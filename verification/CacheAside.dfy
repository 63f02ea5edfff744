/**
  The cache-aside protocol between the reactor, the pool of MySQL readers and
  the write-behind writer.

  A miss is deferred and loaded from a database that lags behind the write
  queue.  Dirty-key sequences and per-key load generations keep an old row out
  of the cache.  The protocol is a step system; the steps of the writer, of a
  crash and of recovery are those of `WriteBack`.
 */
module CacheAside {
  import opened Bytes
  import W = WriteBack

  // -------------------------------------------------------------------- rows

  datatype Body = Str(value: Bytes) | Hash(fields: map<Bytes, Bytes>) | Zset(members: map<Bytes, real>)

  datatype Kind = StrKind | HashKind | ZsetKind

  /** A key row with its body; deadline 0 stands for NULL. */
  datatype Row = Row(deadline: nat, body: Body)

  function KindOf(b: Body): Kind {
    match b
    case Str(_) => StrKind
    case Hash(_) => HashKind
    case Zset(_) => ZsetKind
  }

  /** The row is missing, or its deadline has passed. */
  predicate Gone(r: Option<Row>, now: nat) {
    r.None? || (r.value.deadline != 0 && r.value.deadline <= now)
  }

  // ----------------------------------------------- dirty keys and generations

  datatype LoadState = LoadState(generation: nat, waiters: nat)

  /** `dirty`: last submitted sequence per key; `loads`: keys with registered loads. */
  datatype Tracker = Tracker(dirty: map<Bytes, nat>, loads: map<Bytes, LoadState>)

  function Bump(loads: map<Bytes, LoadState>, key: Bytes): map<Bytes, LoadState> {
    if key in loads then loads[key := loads[key].(generation := loads[key].generation + 1)] else loads
  }

  /** Records a submitted mutation: in-flight loads of the key become stale. */
  function MarkDirty(t: Tracker, key: Bytes, sequence: nat): Tracker {
    if sequence == 0 then t
    else Tracker(
      if key in t.dirty && t.dirty[key] >= sequence then t.dirty else t.dirty[key := sequence],
      Bump(t.loads, key))
  }

  /** Forgets the key if its last mutation has been published as applied. */
  function Cleaned(t: Tracker, key: Bytes, published: nat): Tracker {
    if key in t.dirty && t.dirty[key] <= published then t.(dirty := t.dirty - {key}) else t
  }

  /** The sequence a load of the key must wait for; 0 when there is none. */
  function DirtySequence(t: Tracker, key: Bytes, published: nat): nat {
    var c := Cleaned(t, key, published);
    if key in c.dirty then c.dirty[key] else 0
  }

  function Register(t: Tracker, key: Bytes): Tracker {
    var state := if key in t.loads then t.loads[key] else LoadState(0, 0);
    t.(loads := t.loads[key := state.(waiters := state.waiters + 1)])
  }

  function GenerationOf(t: Tracker, key: Bytes): nat {
    if key in t.loads then t.loads[key].generation else 0
  }

  function Unregister(t: Tracker, key: Bytes): Tracker {
    if key !in t.loads then t
    else if t.loads[key].waiters <= 1 then t.(loads := t.loads - {key})
    else t.(loads := t.loads[key := t.loads[key].(waiters := t.loads[key].waiters - 1)])
  }

  predicate IsStale(t: Tracker, key: Bytes, generation: nat) {
    key !in t.loads || t.loads[key].generation != generation
  }

  // ---------------------------------------------------------------- requests

  datatype Command = Read | Write | Set

  datatype Request = Request(key: Bytes, command: Command)

  /** A deferred request registered with a load job. */
  datatype Pending = Pending(request: Request, generation: nat, job: nat)

  /** What one load query sequence found. */
  datatype Load = Found(row: Row) | Absent | Failed

  /**
    A reader's progress with a job.  The key row and the body are read by
    separate queries, and the waiter list is copied before the job is taken off
    the in-flight list.
   */
  datatype Phase =
    | Queued
    | RowRead(kind: Kind, deadline: nat)
    | Loaded(load: Load)
    | Copied(load: Load, taken: seq<nat>)
    | Completed(load: Load, taken: seq<nat>)
    | Serving(load: Load, stale: bool, rest: seq<nat>)

  datatype Job = Job(key: Bytes, waiters: seq<nat>, phase: Phase)

  datatype State = State(
    store: W.State<Row>,
    tracker: Tracker,
    pending: map<nat, Pending>,
    dirtyWait: seq<Request>,
    jobs: map<nat, Job>,
    cached: map<Bytes, Row>,
    negative: map<Bytes, nat>,
    clock: nat)

  /** What executing a command did: the mutation it submitted and the cache after it. */
  datatype Execution = Execution(mutation: Option<W.Mutation>, cached: map<Bytes, Row>)

  /** Choices of the environment for submitting a load: identities and a full queue. */
  datatype Slot = Slot(waiter: nat, job: nat, full: bool)

  datatype Action =
    | Dispatch(request: Request, execution: Execution, slot: Slot)
    | WakeDirty(index: nat, execution: Execution, slot: Slot)
    | Purge(key: Bytes)
    | Drop(key: Bytes)
    | Tick
    | QueryRow(job: nat, ok: bool)
    | QueryBody(job: nat, ok: bool)
    | CopyWaiters(job: nat)
    | Complete(job: nat)
    | Judge(job: nat, stored: bool, cached: map<Bytes, Row>, ttl: nat, victim: Option<Bytes>)
    | ServeWaiter(job: nat, execution: Execution, slot: Slot)
    | Store(step: W.Action)

  predicate InFlight(j: Job) { !j.phase.Completed? && !j.phase.Serving? }

  // ------------------------------------------------------------ reactor steps

  /** Runs a command; an effective write submits its mutation and marks its key. */
  function Execute(s: State, q: Request, e: Execution): Option<State> {
    if e.mutation.None? then Some(s.(cached := e.cached))
    else if q.command.Read? || e.mutation.value.key != q.key || !s.store.phase.Running? then None
    else
      var store := W.SubmitStep(s.store, e.mutation.value);
      Some(s.(store := store, tracker := MarkDirty(s.tracker, q.key, store.next), cached := e.cached))
  }

  function Invalidate(s: State, q: Request): State {
    if q.command.Read? then s else s.(negative := s.negative - {q.key})
  }

  /** A deferred request whose key was loaded or found in the cache is run now. */
  function CompletePending(s: State, q: Request, e: Execution): Option<State> {
    Execute(Invalidate(s, q), q, e)
  }

  /** Registers the request and joins the in-flight job of its key, or opens one. */
  function SubmitLoad(s: State, q: Request, slot: Slot): Option<State> {
    var registered := Register(s.tracker, q.key);
    var p := Pending(q, GenerationOf(registered, q.key), slot.job);
    if slot.waiter in s.pending then None
    else if slot.job in s.jobs then
      var j := s.jobs[slot.job];
      if InFlight(j) && j.key == q.key then
        Some(s.(tracker := registered, pending := s.pending[slot.waiter := p],
                jobs := s.jobs[slot.job := j.(waiters := [slot.waiter] + j.waiters)]))
      else None
    else if exists i :: i in s.jobs && InFlight(s.jobs[i]) && s.jobs[i].key == q.key then None
    else if slot.full then Some(s.(tracker := Unregister(registered, q.key)))
    else Some(s.(tracker := registered, pending := s.pending[slot.waiter := p],
                 jobs := s.jobs[slot.job := Job(q.key, [slot.waiter], Queued)]))
  }

  /** A miss waits for the writer if its key is dirty, and is loaded otherwise. */
  function Defer(s: State, q: Request, slot: Slot): Option<State> {
    var s1 := s.(tracker := Cleaned(s.tracker, q.key, s.store.published));
    if DirtySequence(s.tracker, q.key, s.store.published) != 0
    then Some(s1.(dirtyWait := s1.dirtyWait + [q]))
    else SubmitLoad(s1, q, slot)
  }

  /** A request as it arrives: negative cache, cache, then deferral. */
  function DispatchStep(s: State, q: Request, e: Execution, slot: Slot): Option<State> {
    var hit := q.key in s.negative && s.negative[q.key] > s.clock;
    var s1 := Invalidate(if hit then s else s.(negative := s.negative - {q.key}), q);
    if !q.command.Set? && !hit && q.key !in s.cached then Defer(s1, q, slot) else Execute(s1, q, e)
  }

  /** A request waiting for a dirty key is retried once the key is clean. */
  function WakeStep(s: State, i: nat, e: Execution, slot: Slot): Option<State>
    requires i < |s.dirtyWait|
  {
    var q := s.dirtyWait[i];
    var s1 := s.(tracker := Cleaned(s.tracker, q.key, s.store.published),
                 dirtyWait := s.dirtyWait[..i] + s.dirtyWait[i + 1..]);
    if DirtySequence(s.tracker, q.key, s.store.published) != 0 then Some(s)
    else if q.key in s.cached then CompletePending(s1, q, e)
    else SubmitLoad(s1, q, slot)
  }

  /** Some waiter of the result registered before the last mutation of the key. */
  ghost predicate AnyStale(s: State, key: Bytes, taken: seq<nat>) {
    exists w :: w in taken && w in s.pending && IsStale(s.tracker, key, s.pending[w].generation)
  }

  /** The verdict on a load result, and the fill of the cache when it is fresh. */
  ghost function JudgeStep(s: State, id: nat, a: Action): Option<State>
    requires a.Judge? && id in s.jobs && s.jobs[id].phase.Completed?
  {
    var j := s.jobs[id];
    var load, taken := j.phase.load, j.phase.taken;
    if AnyStale(s, j.key, taken) then
      Some(s.(jobs := s.jobs[id := j.(phase := Serving(load, true, taken))]))
    else
      var judged := s.jobs[id := j.(phase := Serving(load, false, taken))];
      match load
      case Found(row) =>
        if !a.stored then Some(s.(jobs := s.jobs[id := j.(phase := Serving(Failed, false, taken))]))
        else if j.key in a.cached && a.cached[j.key] == row
        then Some(s.(jobs := judged, cached := a.cached)) else None
      case Absent =>
        if a.ttl == 0 then Some(s.(jobs := judged))
        else
          var room := if a.victim.Some? then s.negative - {a.victim.value} else s.negative;
          Some(s.(jobs := judged, negative := room[j.key := s.clock + a.ttl]))
      case Failed => Some(s.(jobs := judged))
  }

  /** The next waiter of a judged result is unregistered and answered or retried. */
  function ServeStep(s: State, id: nat, e: Execution, slot: Slot): Option<State>
    requires id in s.jobs && s.jobs[id].phase.Serving? && s.jobs[id].phase.rest != []
  {
    var j := s.jobs[id];
    var w := j.phase.rest[0];
    if w !in s.pending then None
    else
      var q := s.pending[w].request;
      var rest := j.phase.rest[1..];
      var s1 := s.(tracker := Unregister(s.tracker, q.key), pending := s.pending - {w},
                   jobs := if rest == [] then s.jobs - {id}
                           else s.jobs[id := j.(phase := j.phase.(rest := rest))]);
      if j.phase.stale then
        if q.key in s.cached then CompletePending(s1, q, e) else Defer(s1, q, slot)
      else if j.phase.load.Failed? then Some(s1)
      else CompletePending(s1, q, e)
  }

  // ------------------------------------------------------------- reader steps

  /** The first query: no row and an expired row end the load. */
  function QueryRowStep(s: State, j: Job, ok: bool): Phase {
    var r := W.Lookup(s.store.db.rows, j.key);
    if !ok then Loaded(Failed)
    else if Gone(r, s.clock) then Loaded(Absent)
    else RowRead(KindOf(r.value.body), r.value.deadline)
  }

  /**
    The second query reads the table that the key row named.  If the row has
    meanwhile become one of another kind, that table has nothing for the key:
    a missing string is an error, a missing collection is read as empty.
   */
  function QueryBodyStep(s: State, j: Job, ok: bool): Phase
    requires j.phase.RowRead?
  {
    var r := W.Lookup(s.store.db.rows, j.key);
    if !ok then Loaded(Failed)
    else if r.Some? && KindOf(r.value.body) == j.phase.kind then Loaded(Found(Row(j.phase.deadline, r.value.body)))
    else match j.phase.kind
         case StrKind => Loaded(Failed)
         case HashKind => Loaded(Found(Row(j.phase.deadline, Hash(map[]))))
         case ZsetKind => Loaded(Found(Row(j.phase.deadline, Zset(map[]))))
  }

  function ReaderStep(s: State, id: nat, phase: Phase): State
    requires id in s.jobs
  {
    s.(jobs := s.jobs[id := s.jobs[id].(phase := phase)])
  }

  // ----------------------------------------------------------------- runs

  /** What an action does, or None where the action cannot happen. */
  ghost function Next(f: W.Effect<Row>, s: State, a: Action): Option<State> {
    match a
    case Store(step) =>
      if step.Submit? then None
      else (match W.Next(f, s.store, step)
            case None => None
            case Some(store) =>
              if step.Crash?
              then Some(State(store, Tracker(map[], map[]), map[], [], map[], map[], map[], s.clock))
              else Some(s.(store := store)))
    case Tick => Some(s.(clock := s.clock + 1))
    case _ => if s.store.phase.Running? then NextRunning(s, a) else None
  }

  ghost function NextRunning(s: State, a: Action): Option<State> {
    match a
    case Dispatch(q, e, slot) => DispatchStep(s, q, e, slot)
    case WakeDirty(i, e, slot) => if i < |s.dirtyWait| then WakeStep(s, i, e, slot) else None
    case Purge(key) => Some(s.(tracker := Cleaned(s.tracker, key, s.store.published)))
    case Drop(key) => Some(s.(cached := s.cached - {key}))
    case QueryRow(id, ok) =>
      if id in s.jobs && s.jobs[id].phase.Queued?
      then Some(ReaderStep(s, id, QueryRowStep(s, s.jobs[id], ok))) else None
    case QueryBody(id, ok) =>
      if id in s.jobs && s.jobs[id].phase.RowRead?
      then Some(ReaderStep(s, id, QueryBodyStep(s, s.jobs[id], ok))) else None
    case CopyWaiters(id) =>
      if id in s.jobs && s.jobs[id].phase.Loaded?
      then Some(ReaderStep(s, id, Copied(s.jobs[id].phase.load, s.jobs[id].waiters))) else None
    case Complete(id) =>
      if id in s.jobs && s.jobs[id].phase.Copied?
      then Some(ReaderStep(s, id, Completed(s.jobs[id].phase.load, s.jobs[id].phase.taken))) else None
    case Judge(id, _, _, _, _) =>
      if id in s.jobs && s.jobs[id].phase.Completed? then JudgeStep(s, id, a) else None
    case ServeWaiter(id, e, slot) =>
      if id in s.jobs && s.jobs[id].phase.Serving? && s.jobs[id].phase.rest != []
      then ServeStep(s, id, e, slot) else None
    case _ => None
  }

  ghost function Run(f: W.Effect<Row>, s: State, actions: seq<Action>): Option<State>
    decreases |actions|
  {
    if actions == [] then Some(s)
    else match Next(f, s, actions[0])
         case None => None
         case Some(s') => Run(f, s', actions[1..])
  }

  /** No crash gives away a number that an old commit may still take. */
  ghost predicate SafeStep(s: State, a: Action) { a.Store? ==> W.SafeStep(s.store, a.step) }

  ghost predicate Safe(f: W.Effect<Row>, s: State, actions: seq<Action>)
    decreases |actions|
  {
    actions == [] ||
    (&& SafeStep(s, actions[0])
     && (Next(f, s, actions[0]).Some? ==> Safe(f, Next(f, s, actions[0]).value, actions[1..])))
  }

  function Boot(rows: W.Rows<Row>, start: nat, clock: nat): State {
    State(W.Boot(rows, start), Tracker(map[], map[]), map[], [], map[], map[], map[], clock)
  }

  // --------------------------------------------------------------- invariant

  /** The registered requests for a key. */
  function Registered(pending: map<nat, Pending>, key: Bytes): set<nat> {
    set w | w in pending && pending[w].request.key == key
  }

  /** The tracker counts the registered requests and never runs behind them. */
  ghost predicate Counted(t: Tracker, pending: map<nat, Pending>) {
    && (forall key :: key in t.loads ==> t.loads[key].waiters == |Registered(pending, key)| > 0)
    && (forall w :: w in pending ==>
          pending[w].request.key in t.loads && pending[w].generation <= t.loads[pending[w].request.key].generation)
  }

  /** Every mutation not yet published as applied is remembered for its key. */
  ghost predicate DirtyCovers(store: W.State<Row>, t: Tracker) {
    forall i :: 0 <= i < |store.history| && store.published < store.start + 1 + i ==>
      store.history[i].key in t.dirty && t.dirty[store.history[i].key] >= store.start + 1 + i
  }

  /** A registered request whose generation is current. */
  predicate Fresh(t: Tracker, p: Pending) { !IsStale(t, p.request.key, p.generation) }

  /** No mutation has been submitted for a key since a still fresh request registered. */
  ghost predicate FreshIsQuiet(store: W.State<Row>, t: Tracker, pending: map<nat, Pending>) {
    forall w :: w in pending && Fresh(t, pending[w]) ==> W.Quiet(store, pending[w].request.key)
  }

  /** What the reader has seen so far is the row that the database holds now. */
  predicate Seen(phase: Phase, row: Option<Row>, now: nat) {
    match phase
    case Queued => true
    case RowRead(kind, deadline) => row.Some? && KindOf(row.value.body) == kind && row.value.deadline == deadline
    case Serving(_, _, _) => true
    case _ =>
      match phase.load
      case Found(r) => row == Some(r)
      case Absent => Gone(row, now)
      case Failed => true
  }

  /** The waiters that the job will still answer. */
  function Owed(j: Job): seq<nat> {
    match j.phase
    case Completed(_, taken) => taken
    case Serving(_, _, rest) => rest
    case _ => j.waiters
  }

  predicate Distinct(ws: seq<nat>) {
    forall i, k :: 0 <= i < k < |ws| ==> ws[i] != ws[k]
  }

  /** The waiters of a job are registered, with its key, and belong to it alone. */
  ghost predicate Owns(pending: map<nat, Pending>, id: nat, j: Job) {
    && Distinct(Owed(j))
    && (forall w :: w in Owed(j) ==> w in pending && pending[w].request.key == j.key && pending[w].job == id)
    && (j.phase.Copied? ==> j.phase.taken != [] && forall w :: w in j.phase.taken ==> w in j.waiters)
    && (j.phase.Copied? ==> Distinct(j.phase.taken))
  }

  /** The waiter that opened the job: the last of the list, which grows at its head. */
  function Opener(j: Job): nat
    requires j.waiters != []
  {
    j.waiters[|j.waiters| - 1]
  }

  /**
    As long as the request that opened the job is fresh, everything the reader
    saw is still what the database holds.
   */
  ghost predicate JobOk(s: State, id: nat, j: Job) {
    && Owns(s.pending, id, j)
    && j.waiters != []
    && (j.phase.Copied? || j.phase.Completed? ==> Opener(j) in j.phase.taken)
    && (!j.phase.Serving? ==>
          Opener(j) in s.pending &&
          (Fresh(s.tracker, s.pending[Opener(j)]) ==> Seen(j.phase, W.Lookup(s.store.db.rows, j.key), s.clock)))
  }

  ghost predicate JobsOk(s: State) { forall id :: id in s.jobs ==> JobOk(s, id, s.jobs[id]) }

  /** A key recorded as absent will have no live row when all is applied. */
  ghost predicate NegativeTrue(f: W.Effect<Row>, s: State) {
    forall key :: key in s.negative ==> Gone(W.Final(f, s.store, key), s.clock)
  }

  ghost predicate Inv(f: W.Effect<Row>, s: State) {
    && W.Inv(f, s.store)
    && Counted(s.tracker, s.pending)
    && (s.store.phase.Running? ==> DirtyCovers(s.store, s.tracker))
    && (!s.store.phase.Running? ==> s.pending == map[] && s.jobs == map[] && s.negative == map[])
    && FreshIsQuiet(s.store, s.tracker, s.pending)
    && JobsOk(s)
    && NegativeTrue(f, s)
  }

  // ------------------------------------------------------------------ proofs

  lemma CleanKeepsInv(f: W.Effect<Row>, s: State, key: Bytes)
    requires Inv(f, s) && s.store.phase.Running?
    ensures Inv(f, s.(tracker := Cleaned(s.tracker, key, s.store.published)))
    ensures DirtySequence(s.tracker, key, s.store.published) == 0 ==> W.Quiet(s.store, key)
  {
    var t := Cleaned(s.tracker, key, s.store.published);
    forall id | id in s.jobs ensures JobOk(s.(tracker := t), id, s.jobs[id]) {
      assert JobOk(s, id, s.jobs[id]);
    }
  }

  lemma RegisteredAdd(pending: map<nat, Pending>, w: nat, p: Pending, key: Bytes)
    requires w !in pending
    ensures |Registered(pending[w := p], key)| ==
            |Registered(pending, key)| + (if p.request.key == key then 1 else 0)
  {
    var after := Registered(pending[w := p], key);
    if p.request.key == key {
      assert after == Registered(pending, key) + {w};
    } else {
      assert after == Registered(pending, key);
    }
  }

  lemma RegisteredRemove(pending: map<nat, Pending>, w: nat, key: Bytes)
    requires w in pending
    ensures |Registered(pending - {w}, key)| ==
            |Registered(pending, key)| - (if pending[w].request.key == key then 1 else 0)
  {
    var after := Registered(pending - {w}, key);
    if pending[w].request.key == key {
      assert after == Registered(pending, key) - {w};
    } else {
      assert after == Registered(pending, key);
    }
  }

  /** Registering one more request keeps the count. */
  lemma RegisterKeepsCount(t: Tracker, pending: map<nat, Pending>, w: nat, q: Request, job: nat)
    requires Counted(t, pending) && w !in pending
    ensures Counted(Register(t, q.key), pending[w := Pending(q, GenerationOf(Register(t, q.key), q.key), job)])
  {
    var t' := Register(t, q.key);
    var p := Pending(q, GenerationOf(t', q.key), job);
    forall key | key in t'.loads ensures t'.loads[key].waiters == |Registered(pending[w := p], key)| > 0 {
      RegisteredAdd(pending, w, p, key);
      if key !in t.loads {
        assert Registered(pending, key) == {};
      }
    }
  }

  /** Dropping one request keeps the count. */
  lemma UnregisterKeepsCount(t: Tracker, pending: map<nat, Pending>, w: nat)
    requires Counted(t, pending) && w in pending
    ensures Counted(Unregister(t, pending[w].request.key), pending - {w})
  {
    var q := pending[w].request;
    var t' := Unregister(t, q.key);
    forall key | key in t.loads ensures key in t'.loads ==>
        t'.loads[key].waiters == |Registered(pending - {w}, key)| > 0 {
      RegisteredRemove(pending, w, key);
    }
    forall v | v in pending - {w} ensures pending[v].request.key in t'.loads {
      if pending[v].request.key == q.key { TwoRegistered(pending, v, w); }
    }
  }

  lemma TwoRegistered(pending: map<nat, Pending>, v: nat, w: nat)
    requires v in pending && w in pending && v != w && pending[v].request.key == pending[w].request.key
    ensures |Registered(pending, pending[w].request.key)| >= 2
  {
    var r := Registered(pending, pending[w].request.key);
    assert {v, w} <= r && r == {v, w} + (r - {v, w});
  }

  /** One more registered request leaves the jobs it does not join as they are. */
  lemma RegisterKeepsJob(s: State, q: Request, slot: Slot, id: nat, j: Job)
    requires Counted(s.tracker, s.pending) && slot.waiter !in s.pending && JobOk(s, id, j)
    ensures JobOk(Enrolled(s, q, slot), id, j)
  {
    var s' := Enrolled(s, q, slot);
    forall w | w in s.pending ensures Fresh(s'.tracker, s.pending[w]) == Fresh(s.tracker, s.pending[w]) { }
  }

  /** The tracker and the pending requests after the registration in SubmitLoad. */
  function Enrolled(s: State, q: Request, slot: Slot): State {
    var t := Register(s.tracker, q.key);
    s.(tracker := t, pending := s.pending[slot.waiter := Pending(q, GenerationOf(t, q.key), slot.job)])
  }

  /** The job that the request joins. */
  lemma JoinKeepsJob(s: State, q: Request, slot: Slot, j: Job)
    requires Counted(s.tracker, s.pending) && slot.waiter !in s.pending
    requires JobOk(s, slot.job, j) && InFlight(j) && j.key == q.key
    ensures JobOk(Enrolled(s, q, slot), slot.job, j.(waiters := [slot.waiter] + j.waiters))
  {
    RegisterKeepsJob(s, q, slot, slot.job, j);
    var j' := j.(waiters := [slot.waiter] + j.waiters);
    assert Opener(j') == Opener(j);
    assert forall w :: w in j'.waiters <==> w == slot.waiter || w in j.waiters;
  }

  lemma EnrollKeepsJobs(s: State, q: Request, slot: Slot)
    requires Counted(s.tracker, s.pending) && JobsOk(s) && SubmitLoad(s, q, slot).Some?
    requires slot.job in s.jobs || !slot.full
    ensures var s' := SubmitLoad(s, q, slot).value;
      JobsOk(s') && s' == Enrolled(s, q, slot).(jobs := s'.jobs)
  {
    var s' := SubmitLoad(s, q, slot).value;
    forall id | id in s'.jobs ensures JobOk(s', id, s'.jobs[id]) {
      if id in s.jobs {
        assert JobOk(s, id, s.jobs[id]);
        if id == slot.job { JoinKeepsJob(s, q, slot, s.jobs[id]); }
        else { RegisterKeepsJob(s, q, slot, id, s.jobs[id]); }
      }
    }
  }

  lemma EnrollKeepsQuiet(s: State, q: Request, slot: Slot)
    requires Counted(s.tracker, s.pending) && slot.waiter !in s.pending
    requires FreshIsQuiet(s.store, s.tracker, s.pending) && W.Quiet(s.store, q.key)
    ensures var e := Enrolled(s, q, slot);
      FreshIsQuiet(s.store, e.tracker, e.pending) && Counted(e.tracker, e.pending)
  {
    RegisterKeepsCount(s.tracker, s.pending, slot.waiter, q, slot.job);
  }

  /** A load submitted for a quiet key. */
  lemma SubmitLoadKeepsInv(f: W.Effect<Row>, s: State, q: Request, slot: Slot)
    requires Inv(f, s) && s.store.phase.Running? && W.Quiet(s.store, q.key)
    requires SubmitLoad(s, q, slot).Some?
    ensures Inv(f, SubmitLoad(s, q, slot).value)
  {
    if slot.job !in s.jobs && slot.full {
      FullQueueChangesNothing(s.tracker, s.pending, q.key);
    } else {
      EnrollKeepsJobs(s, q, slot);
      EnrollKeepsQuiet(s, q, slot);
    }
  }

  /** Registering for a full queue and unregistering again leaves the tracker as it was. */
  lemma FullQueueChangesNothing(t: Tracker, pending: map<nat, Pending>, key: Bytes)
    requires Counted(t, pending)
    ensures Unregister(Register(t, key), key) == t
  {
  }

  lemma DeferKeepsInv(f: W.Effect<Row>, s: State, q: Request, slot: Slot)
    requires Inv(f, s) && s.store.phase.Running? && Defer(s, q, slot).Some?
    ensures Inv(f, Defer(s, q, slot).value)
  {
    CleanKeepsInv(f, s, q.key);
    var s1 := s.(tracker := Cleaned(s.tracker, q.key, s.store.published));
    if DirtySequence(s.tracker, q.key, s.store.published) == 0 {
      SubmitLoadKeepsInv(f, s1, q, slot);
    } else {
      var s2 := s1.(dirtyWait := s1.dirtyWait + [q]);
      forall id | id in s2.jobs ensures JobOk(s2, id, s2.jobs[id]) {
        assert JobOk(s1, id, s1.jobs[id]);
      }
    }
  }

  /** Submitting a mutation changes the final row of its own key only. */
  lemma SubmitChangesOneKey(f: W.Effect<Row>, store: W.State<Row>, m: W.Mutation, key: Bytes)
    requires W.Inv(f, store) && key != m.key
    ensures W.Final(f, W.SubmitStep(store, m), key) == W.Final(f, store, key)
  {
    var ms := store.history + [m];
    W.FoldIgnoresOthers(f, store.base, ms, |store.history|, key);
    assert ms[..|store.history|] == store.history;
  }

  /** Executing a command whose key is not recorded as absent. */
  lemma ExecuteKeepsInv(f: W.Effect<Row>, s: State, q: Request, e: Execution)
    requires Inv(f, s) && s.store.phase.Running? && Execute(s, q, e).Some?
    requires q.command.Read? || q.key !in s.negative
    ensures Inv(f, Execute(s, q, e).value)
  {
    if e.mutation.Some? {
      WriteKeepsInv(f, s, q.key, e.mutation.value, e.cached);
    } else {
      SameJobs(s, Execute(s, q, e).value);
    }
  }

  /** The state after a client's mutation. */
  function Written(s: State, m: W.Mutation, cached: map<Bytes, Row>): State {
    var store := W.SubmitStep(s.store, m);
    s.(store := store, tracker := MarkDirty(s.tracker, m.key, store.next), cached := cached)
  }

  lemma WriteKeepsJobs(s: State, m: W.Mutation, cached: map<Bytes, Row>)
    requires JobsOk(s) && Counted(s.tracker, s.pending)
    ensures JobsOk(Written(s, m, cached))
  {
    var s' := Written(s, m, cached);
    forall id | id in s'.jobs ensures JobOk(s', id, s'.jobs[id]) {
      assert JobOk(s, id, s.jobs[id]);
    }
  }

  lemma WriteKeepsTracker(f: W.Effect<Row>, s: State, m: W.Mutation, cached: map<Bytes, Row>)
    requires Inv(f, s) && s.store.phase.Running?
    ensures var s' := Written(s, m, cached);
      DirtyCovers(s'.store, s'.tracker) && Counted(s'.tracker, s'.pending) &&
          FreshIsQuiet(s'.store, s'.tracker, s'.pending)
  {
  }

  lemma WriteKeepsInv(f: W.Effect<Row>, s: State, key: Bytes, m: W.Mutation, cached: map<Bytes, Row>)
    requires Inv(f, s) && s.store.phase.Running? && m.key == key && key !in s.negative
    ensures Inv(f, Written(s, m, cached))
  {
    var s' := Written(s, m, cached);
    W.SubmitKeepsInv(f, s.store, m);
    WriteKeepsTracker(f, s, m, cached);
    WriteKeepsJobs(s, m, cached);
    forall k | k in s'.negative ensures Gone(W.Final(f, s'.store, k), s'.clock) {
      SubmitChangesOneKey(f, s.store, m, k);
    }
  }

  lemma CompleteKeepsInv(f: W.Effect<Row>, s: State, q: Request, e: Execution)
    requires Inv(f, s) && s.store.phase.Running? && CompletePending(s, q, e).Some?
    ensures Inv(f, CompletePending(s, q, e).value)
  {
    InvalidateKeepsInv(f, s, q.key);
    ExecuteKeepsInv(f, Invalidate(s, q), q, e);
  }

  lemma InvalidateKeepsInv(f: W.Effect<Row>, s: State, key: Bytes)
    requires Inv(f, s)
    ensures Inv(f, s.(negative := s.negative - {key}))
  {
    SameJobs(s, s.(negative := s.negative - {key}));
  }

  /** The jobs depend on the requests, the tracker, the rows and the clock only. */
  lemma SameJobs(s: State, s': State)
    requires JobsOk(s) && s'.jobs == s.jobs && s'.pending == s.pending && s'.tracker == s.tracker
    requires s'.store.db.rows == s.store.db.rows && s'.clock == s.clock
    ensures JobsOk(s')
  {
    forall id | id in s'.jobs ensures JobOk(s', id, s'.jobs[id]) {
      assert JobOk(s, id, s.jobs[id]);
    }
  }

  lemma DispatchKeepsInv(f: W.Effect<Row>, s: State, q: Request, e: Execution, slot: Slot)
    requires Inv(f, s) && s.store.phase.Running? && DispatchStep(s, q, e, slot).Some?
    ensures Inv(f, DispatchStep(s, q, e, slot).value)
  {
    var hit := q.key in s.negative && s.negative[q.key] > s.clock;
    var s0 := if hit then s else s.(negative := s.negative - {q.key});
    InvalidateKeepsInv(f, s, q.key);
    InvalidateKeepsInv(f, s0, q.key);
    var s1 := Invalidate(s0, q);
    if !q.command.Set? && !hit && q.key !in s.cached {
      DeferKeepsInv(f, s1, q, slot);
    } else {
      ExecuteKeepsInv(f, s1, q, e);
    }
  }

  lemma WakeKeepsInv(f: W.Effect<Row>, s: State, i: nat, e: Execution, slot: Slot)
    requires Inv(f, s) && s.store.phase.Running? && i < |s.dirtyWait| && WakeStep(s, i, e, slot).Some?
    ensures Inv(f, WakeStep(s, i, e, slot).value)
  {
    var q := s.dirtyWait[i];
    if DirtySequence(s.tracker, q.key, s.store.published) == 0 {
      CleanKeepsInv(f, s, q.key);
      var s0 := s.(tracker := Cleaned(s.tracker, q.key, s.store.published));
      var s1 := s0.(dirtyWait := s.dirtyWait[..i] + s.dirtyWait[i + 1..]);
      SameJobs(s0, s1);
      if q.key in s.cached {
        CompleteKeepsInv(f, s1, q, e);
      } else {
        SubmitLoadKeepsInv(f, s1, q, slot);
      }
    }
  }

  // ------------------------------------------------- proofs: readers, verdict

  /** One read, of a row that does not change while the opener is fresh. */
  lemma ReaderKeepsInv(f: W.Effect<Row>, s: State, id: nat, phase: Phase)
    requires Inv(f, s) && id in s.jobs && s.store.phase.Running?
    requires JobOk(s, id, s.jobs[id].(phase := phase))
    ensures Inv(f, ReaderStep(s, id, phase))
  {
    var s' := ReaderStep(s, id, phase);
    forall i | i in s'.jobs ensures JobOk(s', i, s'.jobs[i]) {
      assert i != id ==> JobOk(s, i, s.jobs[i]);
    }
  }

  lemma QueriesKeepJob(s: State, id: nat, ok: bool)
    requires JobsOk(s) && id in s.jobs
    ensures s.jobs[id].phase.Queued? ==> JobOk(s, id, s.jobs[id].(phase := QueryRowStep(s, s.jobs[id], ok)))
    ensures s.jobs[id].phase.RowRead? ==> JobOk(s, id, s.jobs[id].(phase := QueryBodyStep(s, s.jobs[id], ok)))
  {
    assert JobOk(s, id, s.jobs[id]);
  }

  lemma HandOverKeepsJob(s: State, id: nat)
    requires JobsOk(s) && id in s.jobs
    ensures s.jobs[id].phase.Loaded? ==>
              JobOk(s, id, s.jobs[id].(phase := Copied(s.jobs[id].phase.load, s.jobs[id].waiters)))
    ensures s.jobs[id].phase.Copied? ==>
              JobOk(s, id, s.jobs[id].(phase := Completed(s.jobs[id].phase.load, s.jobs[id].phase.taken)))
  {
    assert JobOk(s, id, s.jobs[id]);
  }

  /** The heart of the protocol: a verdict of "not stale" certifies the value. */
  lemma FreshLoadIsFinal(f: W.Effect<Row>, s: State, id: nat)
    requires Inv(f, s) && id in s.jobs && s.jobs[id].phase.Completed?
    requires !AnyStale(s, s.jobs[id].key, s.jobs[id].phase.taken)
    ensures Seen(s.jobs[id].phase, W.Final(f, s.store, s.jobs[id].key), s.clock)
  {
    var j := s.jobs[id];
    assert JobOk(s, id, j);
    var p := s.pending[Opener(j)];
    assert Opener(j) in j.phase.taken;
    assert Fresh(s.tracker, p);
    assert W.Quiet(s.store, p.request.key);
    W.QuietIsFinal(f, s.store, j.key);
  }

  /** A judged result still owes its waiters an answer. */
  lemma JudgedKeepsJob(s: State, s': State, id: nat, load: Load, stale: bool)
    requires JobsOk(s) && id in s.jobs && s.jobs[id].phase.Completed?
    requires s'.jobs == s.jobs[id := s.jobs[id].(phase := Serving(load, stale, s.jobs[id].phase.taken))]
    requires s'.pending == s.pending && s'.tracker == s.tracker && s'.store == s.store && s'.clock == s.clock
    ensures JobsOk(s')
  {
    forall i | i in s'.jobs ensures JobOk(s', i, s'.jobs[i]) {
      assert JobOk(s, i, s.jobs[i]);
    }
  }

  lemma JudgeKeepsJobs(s: State, id: nat, a: Action)
    requires JobsOk(s) && a.Judge? && id in s.jobs && s.jobs[id].phase.Completed?
    requires JudgeStep(s, id, a).Some?
    ensures var s' := JudgeStep(s, id, a).value;
      JobsOk(s') && s' == s.(jobs := s'.jobs, cached := s'.cached, negative := s'.negative)
  {
    var s' := JudgeStep(s, id, a).value;
    JudgeChanges(s, id, a);
    JudgedKeepsJob(s, s', id, s'.jobs[id].phase.load, s'.jobs[id].phase.stale);
  }

  /** A verdict turns the job to its waiters and may fill the caches. */
  lemma JudgeChanges(s: State, id: nat, a: Action)
    requires a.Judge? && id in s.jobs && s.jobs[id].phase.Completed? && JudgeStep(s, id, a).Some?
    ensures var s' := JudgeStep(s, id, a).value;
      && id in s'.jobs && s'.jobs[id].phase.Serving? &&
          s' == s.(jobs := s'.jobs, cached := s'.cached, negative := s'.negative)
      && s'.jobs == s.jobs[id := s.jobs[id].(phase := Serving(s'.jobs[id].phase.load, s'.jobs[id].phase.stale,
          s.jobs[id].phase.taken))]
  {
  }

  lemma JudgeKeepsInv(f: W.Effect<Row>, s: State, id: nat, a: Action)
    requires Inv(f, s) && s.store.phase.Running? && a.Judge? && id in s.jobs && s.jobs[id].phase.Completed?
    requires JudgeStep(s, id, a).Some?
    ensures Inv(f, JudgeStep(s, id, a).value)
  {
    JudgeKeepsJobs(s, id, a);
    if !AnyStale(s, s.jobs[id].key, s.jobs[id].phase.taken) {
      FreshLoadIsFinal(f, s, id);
    }
  }

  /** Unregistering the next waiter of a judged result. */
  function Released(s: State, id: nat): State
    requires id in s.jobs && s.jobs[id].phase.Serving? && s.jobs[id].phase.rest != []
    requires s.jobs[id].phase.rest[0] in s.pending
  {
    var j := s.jobs[id];
    var w, rest := j.phase.rest[0], j.phase.rest[1..];
    s.(tracker := Unregister(s.tracker, s.pending[w].request.key), pending := s.pending - {w},
       jobs := if rest == [] then s.jobs - {id} else s.jobs[id := j.(phase := j.phase.(rest := rest))])
  }

  lemma ReleaseKeepsJobs(s: State, id: nat)
    requires Counted(s.tracker, s.pending) && JobsOk(s)
    requires id in s.jobs && s.jobs[id].phase.Serving? && s.jobs[id].phase.rest != []
    requires s.jobs[id].phase.rest[0] in s.pending
    ensures JobsOk(Released(s, id))
  {
    var s' := Released(s, id);
    var w := s.jobs[id].phase.rest[0];
    assert JobOk(s, id, s.jobs[id]);
    assert s.pending[w].job == id;
    UnregisterKeepsCount(s.tracker, s.pending, w);
    ReleaseKeepsFresh(s, w);
    forall i | i in s'.jobs ensures JobOk(s', i, s'.jobs[i]) {
      if i == id {
        ReleaseKeepsOwn(s, id);
      } else {
        assert JobOk(s, i, s.jobs[i]);
        ReleaseKeepsJob(s, s', w, id, i, s.jobs[i]);
      }
    }
  }

  /** The job itself has one waiter less to serve. */
  lemma ReleaseKeepsOwn(s: State, id: nat)
    requires id in s.jobs && JobOk(s, id, s.jobs[id]) && s.jobs[id].phase.Serving? && s.jobs[id].phase.rest != []
    requires s.jobs[id].phase.rest[0] in s.pending
    ensures id in Released(s, id).jobs ==> JobOk(Released(s, id), id, Released(s, id).jobs[id])
  {
    var rest := s.jobs[id].phase.rest;
    assert forall i :: 0 <= i < |rest| - 1 ==> rest[1..][i] == rest[i + 1];
  }

  /** A waiter of one job leaves the other jobs as they are. */
  lemma ReleaseKeepsJob(s: State, s': State, w: nat, id: nat, i: nat, j: Job)
    requires JobOk(s, i, j) && w in s.pending && s.pending[w].job == id && i != id
    requires s'.pending == s.pending - {w} && s'.store == s.store && s'.clock == s.clock
    requires forall v :: v in s.pending && v != w ==> Fresh(s'.tracker, s.pending[v]) == Fresh(s.tracker, s.pending[v])
    ensures JobOk(s', i, j)
  {
    assert w !in Owed(j);
    assert !j.phase.Serving? ==> Opener(j) in Owed(j);
  }

  lemma ReleaseKeepsFresh(s: State, w: nat)
    requires Counted(s.tracker, s.pending) && w in s.pending
    ensures var t := Unregister(s.tracker, s.pending[w].request.key);
      forall v :: v in s.pending && v != w ==> Fresh(t, s.pending[v]) == Fresh(s.tracker, s.pending[v])
  {
    UnregisterKeepsCount(s.tracker, s.pending, w);
    var t := Unregister(s.tracker, s.pending[w].request.key);
    forall v | v in s.pending && v != w ensures Fresh(t, s.pending[v]) == Fresh(s.tracker, s.pending[v]) {
      assert v in s.pending - {w};
    }
  }

  lemma ReleaseKeepsInv(f: W.Effect<Row>, s: State, id: nat)
    requires Inv(f, s) && s.store.phase.Running?
    requires id in s.jobs && s.jobs[id].phase.Serving? && s.jobs[id].phase.rest != []
    requires s.jobs[id].phase.rest[0] in s.pending
    ensures Inv(f, Released(s, id))
  {
    var w := s.jobs[id].phase.rest[0];
    ReleaseKeepsJobs(s, id);
    UnregisterKeepsCount(s.tracker, s.pending, w);
    ReleaseKeepsFresh(s, w);
  }

  lemma ServeKeepsInv(f: W.Effect<Row>, s: State, id: nat, e: Execution, slot: Slot)
    requires Inv(f, s) && s.store.phase.Running?
    requires id in s.jobs && s.jobs[id].phase.Serving? && s.jobs[id].phase.rest != []
    requires ServeStep(s, id, e, slot).Some?
    ensures Inv(f, ServeStep(s, id, e, slot).value)
  {
    var q := s.pending[s.jobs[id].phase.rest[0]].request;
    var s1 := Released(s, id);
    ReleaseKeepsInv(f, s, id);
    if s.jobs[id].phase.stale && q.key !in s.cached {
      DeferKeepsInv(f, s1, q, slot);
    } else if s.jobs[id].phase.stale || !s.jobs[id].phase.load.Failed? {
      CompleteKeepsInv(f, s1, q, e);
    }
  }

  // ------------------------------------------------- proofs: the other threads

  lemma BackgroundKeepsJobs(f: W.Effect<Row>, s: State, step: W.Action)
    requires Inv(f, s) && W.Next(f, s.store, step).Some? && !step.Submit? && !step.Crash?
    ensures JobsOk(s.(store := W.Next(f, s.store, step).value))
  {
    W.BackgroundStep(f, s.store, step);
    var s' := s.(store := W.Next(f, s.store, step).value);
    forall id | id in s'.jobs ensures JobOk(s', id, s'.jobs[id]) {
      var j := s.jobs[id];
      assert JobOk(s, id, j);
      if !j.phase.Serving? && Fresh(s.tracker, s.pending[Opener(j)]) {
        assert W.Quiet(s.store, j.key);
      }
    }
  }

  /** The end of recovery leaves nothing unpublished. */
  lemma BackgroundKeepsDirty(f: W.Effect<Row>, s: State, step: W.Action)
    requires Inv(f, s) && W.Next(f, s.store, step).Some? && !step.Submit? && !step.Crash?
    requires W.Next(f, s.store, step).value.phase.Running?
    ensures DirtyCovers(W.Next(f, s.store, step).value, s.tracker)
  {
    W.BackgroundFrame(f, s.store, step);
    W.NextKeepsInv(f, s.store, step);
    assert !s.store.phase.Running? ==> step.RecoverEnd?;
  }

  lemma BackgroundKeepsInv(f: W.Effect<Row>, s: State, step: W.Action)
    requires Inv(f, s) && W.Next(f, s.store, step).Some? && !step.Submit? && !step.Crash?
    ensures Inv(f, s.(store := W.Next(f, s.store, step).value))
  {
    W.NextKeepsInv(f, s.store, step);
    W.BackgroundStep(f, s.store, step);
    BackgroundKeepsJobs(f, s, step);
    if W.Next(f, s.store, step).value.phase.Running? {
      BackgroundKeepsDirty(f, s, step);
    } else {
      BackgroundNeverStops(f, s.store, step);
    }
  }

  lemma BackgroundNeverStops(f: W.Effect<Row>, store: W.State<Row>, step: W.Action)
    requires W.Next(f, store, step).Some? && !step.Crash?
    ensures store.phase.Running? ==> W.Next(f, store, step).value.phase.Running?
  {
  }

  lemma TickKeepsInv(f: W.Effect<Row>, s: State)
    requires Inv(f, s)
    ensures Inv(f, s.(clock := s.clock + 1))
  {
    var s' := s.(clock := s.clock + 1);
    forall id | id in s'.jobs ensures JobOk(s', id, s'.jobs[id]) {
      assert JobOk(s, id, s.jobs[id]);
    }
  }

  lemma ReadersKeepInv(f: W.Effect<Row>, s: State, a: Action)
    requires Inv(f, s) && s.store.phase.Running? && NextRunning(s, a).Some?
    requires a.QueryRow? || a.QueryBody? || a.CopyWaiters? || a.Complete?
    ensures Inv(f, NextRunning(s, a).value)
  {
    var j := s.jobs[a.job];
    if a.QueryRow? || a.QueryBody? { QueriesKeepJob(s, a.job, a.ok); } else { HandOverKeepsJob(s, a.job); }
    ReaderKeepsInv(f, s, a.job, NextRunning(s, a).value.jobs[a.job].phase);
  }

  lemma DropKeepsInv(f: W.Effect<Row>, s: State, key: Bytes)
    requires Inv(f, s)
    ensures Inv(f, s.(cached := s.cached - {key}))
  {
    SameJobs(s, s.(cached := s.cached - {key}));
  }

  /** A crash loses everything but the database, the log and the clock. */
  lemma StoreKeepsInv(f: W.Effect<Row>, s: State, step: W.Action)
    requires Inv(f, s) && Next(f, s, Store(step)).Some? && W.SafeStep(s.store, step)
    ensures Inv(f, Next(f, s, Store(step)).value)
  {
    W.NextKeepsInv(f, s.store, step);
    if !step.Crash? {
      BackgroundKeepsInv(f, s, step);
    }
  }

  lemma RunningKeepsInv(f: W.Effect<Row>, s: State, a: Action)
    requires Inv(f, s) && s.store.phase.Running? && NextRunning(s, a).Some?
    ensures Inv(f, NextRunning(s, a).value)
  {
    match a
    case Dispatch(q, e, slot) => DispatchKeepsInv(f, s, q, e, slot);
    case WakeDirty(i, e, slot) => WakeKeepsInv(f, s, i, e, slot);
    case Purge(key) => CleanKeepsInv(f, s, key);
    case Drop(key) => DropKeepsInv(f, s, key);
    case Judge(id, _, _, _, _) => JudgeKeepsInv(f, s, id, a);
    case ServeWaiter(id, e, slot) => ServeKeepsInv(f, s, id, e, slot);
    case _ => ReadersKeepInv(f, s, a);
  }

  lemma NextKeepsInv(f: W.Effect<Row>, s: State, a: Action)
    requires Inv(f, s) && Next(f, s, a).Some? && SafeStep(s, a)
    ensures Inv(f, Next(f, s, a).value)
  {
    match a
    case Store(step) => StoreKeepsInv(f, s, step);
    case Tick => TickKeepsInv(f, s);
    case _ => RunningKeepsInv(f, s, a);
  }

  // ---------------------------------------------------------------- theorems

  lemma {:induction false} RunKeepsInv(f: W.Effect<Row>, s: State, actions: seq<Action>)
    requires Inv(f, s) && Run(f, s, actions).Some? && Safe(f, s, actions)
    ensures Inv(f, Run(f, s, actions).value)
    decreases |actions|
  {
    if actions != [] {
      NextKeepsInv(f, s, actions[0]);
      RunKeepsInv(f, Next(f, s, actions[0]).value, actions[1..]);
    }
  }

  /** No crash of the run loses a record of the log. */
  ghost predicate KeepsLog(f: W.Effect<Row>, s: State, actions: seq<Action>)
    decreases |actions|
  {
    actions == [] ||
    (&& (actions[0].Store? && actions[0].step.Crash? ==> actions[0].step.kept == |s.store.log|)
     && (Next(f, s, actions[0]).Some? ==> KeepsLog(f, Next(f, s, actions[0]).value, actions[1..])))
  }

  lemma {:induction false} IntactRunsAreSafe(f: W.Effect<Row>, s: State, actions: seq<Action>)
    requires Inv(f, s) && KeepsLog(f, s, actions)
    ensures Safe(f, s, actions)
    decreases |actions|
  {
    if actions != [] {
      W.IntactLogIsCovered(f, s.store);
      if Next(f, s, actions[0]).Some? {
        NextKeepsInv(f, s, actions[0]);
        IntactRunsAreSafe(f, Next(f, s, actions[0]).value, actions[1..]);
      }
    }
  }

  /**
    No stale fill.  In every run - client writes, evictions, coalesced loads,
    reads in several queries, writer progress, covered crashes - a load result that is
    judged not stale equals what the database will hold for that key after
    every mutation submitted so far: a row that is found is that row, and a row
    reported absent is absent or past its deadline.  So is the value that the
    judgement puts into the cache.
   */
  lemma NoStaleFill(f: W.Effect<Row>, rows: W.Rows<Row>, start: nat, clock: nat, actions: seq<Action>, a: Action)
    requires Run(f, Boot(rows, start, clock), actions).Some? && Safe(f, Boot(rows, start, clock), actions)
    requires a.Judge? && Next(f, Run(f, Boot(rows, start, clock), actions).value, a).Some?
    ensures var s := Run(f, Boot(rows, start, clock), actions).value;
      var s' := Next(f, s, a).value;
      var j := s.jobs[a.job];
      && (!AnyStale(s, j.key, j.phase.taken) && j.phase.load.Found? ==>
            W.Final(f, s.store, j.key) == Some(j.phase.load.row))
      && (!AnyStale(s, j.key, j.phase.taken) && j.phase.load.Absent? ==>
            Gone(W.Final(f, s.store, j.key), s.clock))
      && (s'.cached != s.cached ==> j.key in s'.cached && W.Final(f, s'.store, j.key) == Some(s'.cached[j.key]))
      && (s'.negative != s.negative ==> Gone(W.Final(f, s'.store, j.key), s'.clock))
  {
    var s := Run(f, Boot(rows, start, clock), actions).value;
    assert Inv(f, Boot(rows, start, clock));
    RunKeepsInv(f, Boot(rows, start, clock), actions);
    if !AnyStale(s, s.jobs[a.job].key, s.jobs[a.job].phase.taken) {
      FreshLoadIsFinal(f, s, a.job);
    }
  }

  /**
    The negative cache never lies: while a key stays recorded as absent, no
    mutation submitted so far will leave a live row for it.
   */
  lemma NegativeCacheIsTrue(f: W.Effect<Row>, rows: W.Rows<Row>, start: nat, clock: nat, actions: seq<Action>)
    requires Run(f, Boot(rows, start, clock), actions).Some? && Safe(f, Boot(rows, start, clock), actions)
    ensures var s := Run(f, Boot(rows, start, clock), actions).value;
      forall key :: key in s.negative ==> Gone(W.Final(f, s.store, key), s.clock)
  {
    assert Inv(f, Boot(rows, start, clock));
    RunKeepsInv(f, Boot(rows, start, clock), actions);
  }

  // ------------------------------------------------- the reactor's own tables

  /** The requests whose key still waits for the writer, or those whose key no longer does. */
  function Waiting(t: Tracker, published: nat, qs: seq<Request>, dirty: bool): seq<Request>
    decreases |qs|
  {
    if qs == [] then []
    else
      var q := qs[|qs| - 1];
      var front := Waiting(t, published, qs[..|qs| - 1], dirty);
      if (DirtySequence(t, q.key, published) != 0) == dirty then front + [q] else front
  }

  /** Forgetting one applied key changes no verdict about any key. */
  lemma CleaningIsInvisible(t: Tracker, a: Bytes, b: Bytes, published: nat)
    ensures DirtySequence(Cleaned(t, a, published), b, published) == DirtySequence(t, b, published)
  {
  }

  /**
    The hash tables and the waiting list of the reactor thread, updated in
    place; each method is one function of the step system.
   */
  class Tables {
    var dirty: map<Bytes, nat>
    var loads: map<Bytes, LoadState>
    var waiting: seq<Request>

    function Tracked(): Tracker
      reads this
    {
      Tracker(dirty, loads)
    }

    constructor ()
      ensures Tracked() == Tracker(map[], map[]) && waiting == []
    {
      dirty, loads, waiting := map[], map[], [];
    }

    method MarkDirtyKey(key: Bytes, sequence: nat)
      modifies this`dirty, this`loads
      ensures Tracked() == MarkDirty(old(Tracked()), key, sequence)
    {
      if sequence == 0 { return; }
      if key in loads {
        loads := loads[key := LoadState(loads[key].generation + 1, loads[key].waiters)];
      }
      if key in dirty {
        if sequence > dirty[key] {
          dirty := dirty[key := sequence];
        }
      } else {
        dirty := dirty[key := sequence];
      }
    }

    /** The sequence to wait for; an applied entry is dropped on the way. */
    method DirtyKeySequence(key: Bytes, published: nat) returns (sequence: nat)
      modifies this`dirty
      ensures sequence == DirtySequence(old(Tracked()), key, published)
      ensures Tracked() == Cleaned(old(Tracked()), key, published)
    {
      if key !in dirty { return 0; }
      sequence := dirty[key];
      if sequence <= published {
        dirty := dirty - {key};
        sequence := 0;
      }
    }

    method RegisterLoad(key: Bytes) returns (generation: nat)
      modifies this`loads
      ensures Tracked() == Register(old(Tracked()), key)
      ensures generation == GenerationOf(Tracked(), key) && !IsStale(Tracked(), key, generation)
    {
      var state := LoadState(0, 0);
      if key in loads {
        state := loads[key];
      }
      generation := state.generation;
      loads := loads[key := LoadState(generation, state.waiters + 1)];
    }

    method UnregisterLoad(key: Bytes)
      modifies this`loads
      ensures Tracked() == Unregister(old(Tracked()), key)
    {
      if key !in loads { return; }
      var left := loads[key].waiters;
      if left > 0 {
        left := left - 1;
      }
      if left == 0 {
        loads := loads - {key};
      } else {
        loads := loads[key := LoadState(loads[key].generation, left)];
      }
    }

    /** The verdict on a load result: the waiters are looked at until one is stale. */
    method ResultIsStale(key: Bytes, generations: seq<nat>) returns (stale: bool)
      ensures stale <==> exists i :: 0 <= i < |generations| && IsStale(Tracked(), key, generations[i])
    {
      stale := false;
      var i := 0;
      while i < |generations| && !stale
        invariant 0 <= i <= |generations|
        invariant stale ==> exists k :: 0 <= k < |generations| && IsStale(Tracked(), key, generations[k])
        invariant !stale ==> forall k :: 0 <= k < i ==> !IsStale(Tracked(), key, generations[k])
      {
        stale := key !in loads || loads[key].generation != generations[i];
        assert stale == IsStale(Tracked(), key, generations[i]);
        i := i + 1;
      }
    }

    /**
      One pass over the waiting list: requests whose key is clean leave it, in
      order, the others stay, in order.
     */
    method DrainDirtyWaiters(published: nat) returns (ready: seq<Request>)
      modifies this`dirty, this`waiting
      ensures waiting == Waiting(old(Tracked()), published, old(waiting), true)
      ensures ready == Waiting(old(Tracked()), published, old(waiting), false)
      ensures forall key :: DirtySequence(Tracked(), key, published) == DirtySequence(old(Tracked()), key, published)
    {
      ghost var t := Tracked();
      var all := waiting;
      var kept: seq<Request> := [];
      ready := [];
      var i := 0;
      while i < |all|
        invariant 0 <= i <= |all| && loads == old(loads)
        invariant kept == Waiting(t, published, all[..i], true)
        invariant ready == Waiting(t, published, all[..i], false)
        invariant forall key :: DirtySequence(Tracked(), key, published) == DirtySequence(t, key, published)
      {
        assert all[..i + 1][..i] == all[..i];
        ghost var before := Tracked();
        var sequence := DirtyKeySequence(all[i].key, published);
        forall key ensures DirtySequence(Tracked(), key, published) == DirtySequence(t, key, published) {
          CleaningIsInvisible(before, all[i].key, key, published);
        }
        if sequence != 0 {
          kept := kept + [all[i]];
        } else {
          ready := ready + [all[i]];
        }
        i := i + 1;
      }
      assert all[..|all|] == all;
      waiting := kept;
    }
  }
}
