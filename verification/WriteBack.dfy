/**
  The write-behind half of the MySQL layer: the numbered mutations that the
  service submits, the single writer thread that applies them through retries,
  reconnects and lost commit acknowledgements, and the recovery of a new
  process from the marker records of the append-only log.

  One process run after another works on the same database.  Every run is a
  sequence of `Action`s; `ExactlyOnce` states what holds after each of them.
  A commit that a dead process sent may land long after the next process has
  read the watermark; `ExactIffCovered` says exactly when that does no harm.
 */
module WriteBack {
  import opened Bytes

  /** A canonical mutation record: command, key, further arguments. */
  datatype Mutation = Mutation(key: Bytes, arguments: seq<Bytes>)

  /** What one mutation does to the row of its own key. */
  type Effect<!V> = (Option<V>, Mutation) -> Option<V>

  type Rows<V> = map<Bytes, V>

  /** A mutation with the number that the service gave it. */
  datatype Numbered = Numbered(sequence: nat, mutation: Mutation)

  /**
    The database: the business tables, the change log (unique on the sequence,
    because there is one writer identity) and the applied watermark.
   */
  datatype Database<V> = Database(rows: Rows<V>, changes: set<nat>, applied: nat)

  /** Where the writer thread stands with the job it took from the queue. */
  datatype Writer =
    | Idle
    | Checking(job: Numbered)   // connected, about to ask for the watermark
    | Applying(job: Numbered)   // about to run the transaction
    | Applied(job: Numbered)    // done, watermark not yet published

  datatype Phase =
    | Recovering(cursor: nat, databaseSequence: nat)
    | Running
    | Exiting   // start-up failed; only the next process goes on

  /**
    `history` is the specification's record of all mutations that still count:
    the one numbered start + 1 + i is history[i].  `log` holds the marked
    records of the append-only log, `inDoubt` the transactions whose COMMIT was
    sent on a connection that died before it answered.
   */
  datatype State<V> = State(
    start: nat,
    base: Rows<V>,
    history: seq<Mutation>,
    log: seq<Numbered>,
    phase: Phase,
    next: nat,
    queue: seq<Numbered>,
    writer: Writer,
    inDoubt: set<Numbered>,
    published: nat,
    db: Database<V>)

  /** How one attempt to run the transaction of a job can end. */
  datatype Outcome =
    | Refused        // a statement or the commit failed; nothing was applied
    | Acknowledged   // committed, and the writer knows it
    | LostApplied    // committed, but the acknowledgement was lost
    | LostUnknown    // the commit may still take effect later

  datatype Action =
    | Submit(mutation: Mutation)
    | Take
    | Check(answered: bool)
    | Attempt(outcome: Outcome)
    | LateCommit(transaction: Numbered)
    | LateAbort(transaction: Numbered)
    | Publish
    | Crash(kept: nat)
    | RecoverRecord(outcome: Outcome)
    | RecoverEnd

  // ------------------------------------------------------------ the database

  function Lookup<V>(rows: Rows<V>, key: Bytes): Option<V> {
    if key in rows then Some(rows[key]) else None
  }

  /** One mutation changes the row of its own key and nothing else. */
  function ApplyRow<V>(f: Effect<V>, rows: Rows<V>, m: Mutation): Rows<V> {
    match f(Lookup(rows, m.key), m)
    case Some(v) => rows[m.key := v]
    case None => rows - {m.key}
  }

  /** The mutations folded in, first to last. */
  function Fold<V>(f: Effect<V>, rows: Rows<V>, ms: seq<Mutation>): Rows<V>
    decreases |ms|
  {
    if ms == [] then rows else ApplyRow(f, Fold(f, rows, ms[..|ms| - 1]), ms[|ms| - 1])
  }

  /**
    The transaction of a job: business rows, change record and watermark
    together.  The unique key on the change log makes it fail, without effect,
    when the sequence is already recorded.
   */
  function Transaction<V>(f: Effect<V>, db: Database<V>, job: Numbered): Option<Database<V>> {
    if job.sequence in db.changes then None
    else Some(Database(ApplyRow(f, db.rows, job.mutation),
                       db.changes + {job.sequence},
                       if db.applied >= job.sequence then db.applied else job.sequence))
  }

  // ------------------------------------------------------------- transitions

  function LastSequence(log: seq<Numbered>): nat {
    if log == [] then 0 else log[|log| - 1].sequence
  }

  function Max(a: nat, b: nat): nat { if a >= b then a else b }

  /** A mutation leaves the service: marked in the log, numbered and queued. */
  function SubmitStep<V>(s: State<V>, m: Mutation): State<V> {
    var job := Numbered(s.next + 1, m);
    s.(history := s.history + [m], log := s.log + [job], next := s.next + 1, queue := s.queue + [job])
  }

  /** The attempt of the writer thread to run the transaction of its job. */
  function AttemptStep<V>(f: Effect<V>, s: State<V>, o: Outcome): Option<State<V>>
    requires s.writer.Applying?
  {
    var job := s.writer.job;
    match o
    case Refused => Some(s.(writer := Checking(job)))
    case LostUnknown => Some(s.(writer := Checking(job), inDoubt := s.inDoubt + {job}))
    case _ =>
      match Transaction(f, s.db, job)
      case None => None
      case Some(db) =>
        Some(s.(db := db, writer := if o.Acknowledged? then Applied(job) else Checking(job)))
  }

  /**
    The process dies.  The log keeps some prefix of its records, memory is
    lost, and a new process reads the watermark.  Mutations that are neither in
    the database nor in the kept log are gone, and their numbers free again.
    What the dead process left in doubt may still commit.
   */
  function CrashStep<V>(s: State<V>, kept: nat): State<V>
    requires kept <= |s.log|
  {
    var log := s.log[..kept];
    var top := Max(s.db.applied, LastSequence(log));
    var left := if s.start <= top <= s.start + |s.history| then top - s.start else 0;
    s.(history := s.history[..left], log := log, phase := Recovering(0, s.db.applied), next := top,
       queue := [], writer := Idle, published := s.db.applied)
  }

  /** The recovering process meets the next marked record of the log. */
  function RecoverStep<V>(f: Effect<V>, s: State<V>, o: Outcome): Option<State<V>>
    requires s.phase.Recovering? && s.phase.cursor < |s.log|
  {
    var job := s.log[s.phase.cursor];
    if job.sequence <= s.phase.databaseSequence then
      Some(s.(phase := s.phase.(cursor := s.phase.cursor + 1)))
    else if s.db.applied >= job.sequence then
      Some(s.(phase := Recovering(s.phase.cursor + 1, job.sequence), published := Max(s.published, job.sequence)))
    else
      match o
      case Refused => Some(s.(phase := Exiting))
      case LostUnknown => Some(s.(phase := Exiting, inDoubt := s.inDoubt + {job}))
      case _ =>
        match Transaction(f, s.db, job)
        case None => None
        case Some(db) => Some(RecoverCommitted(s, db, job.sequence, o))
  }

  /** A recovery transaction committed; without an acknowledgement the start-up fails all the same. */
  function RecoverCommitted<V>(s: State<V>, db: Database<V>, sequence: nat, o: Outcome): State<V>
    requires s.phase.Recovering?
  {
    if o.Acknowledged?
    then s.(db := db, phase := Recovering(s.phase.cursor + 1, sequence), published := Max(s.published, sequence))
    else s.(db := db, phase := Exiting)
  }

  /** What an action does, or None where the action cannot happen. */
  function Next<V>(f: Effect<V>, s: State<V>, a: Action): Option<State<V>> {
    match a
    case Submit(m) =>
      if s.phase.Running? then Some(SubmitStep(s, m)) else None
    case Take =>
      if s.phase.Running? && s.writer.Idle? && s.queue != []
      then Some(s.(queue := s.queue[1..], writer := Checking(s.queue[0]))) else None
    case Check(answered) =>
      if !s.writer.Checking? then None
      else if answered && s.db.applied >= s.writer.job.sequence
      then Some(s.(writer := Applied(s.writer.job)))
      else Some(s.(writer := Applying(s.writer.job)))
    case Attempt(o) =>
      if s.writer.Applying? then AttemptStep(f, s, o) else None
    case LateCommit(t) =>
      if t !in s.inDoubt then None
      else (match Transaction(f, s.db, t)
            case None => None
            case Some(db) => Some(s.(db := db, inDoubt := s.inDoubt - {t})))
    case LateAbort(t) =>
      if t in s.inDoubt then Some(s.(inDoubt := s.inDoubt - {t})) else None
    case Publish =>
      if s.writer.Applied?
      then Some(s.(writer := Idle, published := Max(s.published, s.writer.job.sequence))) else None
    case Crash(kept) =>
      if kept <= |s.log| then Some(CrashStep(s, kept)) else None
    case RecoverRecord(o) =>
      if s.phase.Recovering? && s.phase.cursor < |s.log| then RecoverStep(f, s, o) else None
    case RecoverEnd =>
      if s.phase.Recovering? && s.phase.cursor == |s.log|
      then Some(s.(phase := Running, next := Max(s.phase.databaseSequence, LastSequence(s.log)))) else None
  }

  /** A whole run; None when some action in it could not happen. */
  function Run<V>(f: Effect<V>, s: State<V>, actions: seq<Action>): Option<State<V>>
    decreases |actions|
  {
    if actions == [] then Some(s)
    else match Next(f, s, actions[0])
         case None => None
         case Some(s') => Run(f, s', actions[1..])
  }

  /** A database just bootstrapped with watermark `start`, and an empty outbox. */
  function Boot<V>(rows: Rows<V>, start: nat): State<V> {
    State(start, rows, [], [], Running, start, [], Idle, {}, start, Database(rows, {}, start))
  }

  // --------------------------------------------------------------- invariant

  /** The number belongs to the history, and the mutation is what it stands for. */
  predicate Names(start: nat, history: seq<Mutation>, n: Numbered) {
    start < n.sequence <= start + |history| && history[n.sequence - start - 1] == n.mutation
  }

  /** The database is the base state with exactly the first mutations folded in. */
  ghost predicate Exact<V>(f: Effect<V>, s: State<V>) {
    && s.start <= s.db.applied <= s.start + |s.history|
    && s.db.rows == Fold(f, s.base, s.history[..s.db.applied - s.start])
    && (forall n :: n in s.db.changes <==> s.start < n <= s.db.applied)
  }

  ghost predicate Marked(log: seq<Numbered>, n: nat) {
    exists i :: 0 <= i < |log| && log[i].sequence == n
  }

  /** Marked records are in order and true to the history. */
  ghost predicate LogFaithful(start: nat, history: seq<Mutation>, log: seq<Numbered>) {
    && (forall i, j :: 0 <= i < j < |log| ==> log[i].sequence < log[j].sequence)
    && (forall i :: 0 <= i < |log| ==> Names(start, history, log[i]))
  }

  /** Every mutation above the watermark is marked. */
  ghost predicate LogComplete(log: seq<Numbered>, applied: nat, last: nat) {
    forall n :: applied < n <= last ==> Marked(log, n)
  }

  /** The queue holds consecutive numbers starting with `from`. */
  ghost predicate QueueFrom(start: nat, history: seq<Mutation>, queue: seq<Numbered>, from: nat) {
    && from + |queue| == start + |history| + 1
    && forall i :: 0 <= i < |queue| ==> queue[i].sequence == from + i && Names(start, history, queue[i])
  }

  ghost predicate WriterOk<V>(s: State<V>) {
    if s.writer.Idle? then
      QueueFrom(s.start, s.history, s.queue, s.db.applied + 1) && s.published == s.db.applied
    else
      var job := s.writer.job;
      && Names(s.start, s.history, job)
      && (job.sequence == s.db.applied || (job.sequence == s.db.applied + 1 && !s.writer.Applied?))
      && QueueFrom(s.start, s.history, s.queue, job.sequence + 1)
  }

  ghost predicate PhaseOk<V>(s: State<V>) {
    match s.phase
    case Running => s.next == s.start + |s.history| && WriterOk(s)
    case Recovering(c, d) =>
      && s.queue == [] && s.writer.Idle?
      && c <= |s.log| && d == s.published
      && (forall i :: 0 <= i < c ==> s.log[i].sequence <= d)
      && s.start + |s.history| == Max(d, LastSequence(s.log))
    case Exiting => s.queue == [] && s.writer.Idle?
  }

  /** What is in doubt is either recorded already, or the very next mutation. */
  ghost predicate DoubtOk<V>(s: State<V>, t: Numbered) {
    && s.start < t.sequence
    && (t.sequence > s.db.applied ==>
          && t.sequence == s.db.applied + 1 && Names(s.start, s.history, t)
          && (s.phase.Running? ==> (s.writer.Checking? || s.writer.Applying?) && s.writer.job == t))
  }

  ghost predicate DoubtsOk<V>(s: State<V>) { forall t :: t in s.inDoubt ==> DoubtOk(s, t) }

  ghost predicate Inv<V>(f: Effect<V>, s: State<V>) {
    && Exact(f, s)
    && LogFaithful(s.start, s.history, s.log)
    && LogComplete(s.log, s.db.applied, s.start + |s.history|)
    && PhaseOk(s)
    && s.published <= s.db.applied
    && DoubtsOk(s)
  }

  /**
    The kept log or the database still knows every number in doubt, so that the
    next process will not give one of them away again.
   */
  ghost predicate Covered<V>(s: State<V>, kept: nat)
    requires kept <= |s.log|
  {
    forall t :: t in s.inDoubt ==> t.sequence <= Max(s.db.applied, LastSequence(s.log[..kept]))
  }

  /** Every crash of the run is covered. */
  ghost predicate Safe<V>(f: Effect<V>, s: State<V>, actions: seq<Action>)
    decreases |actions|
  {
    actions == [] ||
    (&& SafeStep(s, actions[0])
     && (Next(f, s, actions[0]).Some? ==> Safe(f, Next(f, s, actions[0]).value, actions[1..])))
  }

  ghost predicate SafeStep<V>(s: State<V>, a: Action) { a.Crash? && a.kept <= |s.log| ==> Covered(s, a.kept) }

  // ------------------------------------------------------------------ proofs

  lemma {:induction false} FoldStep<V>(f: Effect<V>, rows: Rows<V>, ms: seq<Mutation>, k: nat)
    requires k < |ms|
    ensures Fold(f, rows, ms[..k + 1]) == ApplyRow(f, Fold(f, rows, ms[..k]), ms[k])
  {
    assert ms[..k + 1][..k] == ms[..k];
  }

  /** A transaction for the number after the watermark extends the fold by one. */
  lemma CommitKeepsExact<V>(f: Effect<V>, s: State<V>, job: Numbered)
    requires Exact(f, s) && Names(s.start, s.history, job)
    requires job.sequence <= s.db.applied + 1
    requires Transaction(f, s.db, job).Some?
    ensures job.sequence == s.db.applied + 1 == Transaction(f, s.db, job).value.applied
    ensures Exact(f, s.(db := Transaction(f, s.db, job).value))
  {
    FoldStep(f, s.base, s.history, s.db.applied - s.start);
  }

  /** Above the watermark the log has the numbers one after the other. */
  lemma LogNextIsConsecutive(start: nat, history: seq<Mutation>, log: seq<Numbered>, applied: nat, c: nat)
    requires LogFaithful(start, history, log) && LogComplete(log, applied, start + |history|)
    requires c < |log| && log[c].sequence > applied
    requires forall i :: 0 <= i < c ==> log[i].sequence <= applied
    ensures log[c].sequence == applied + 1
  {
    assert Names(start, history, log[c]);
    assert Marked(log, applied + 1);
    var i :| 0 <= i < |log| && log[i].sequence == applied + 1;
  }

  lemma SubmitKeepsInv<V>(f: Effect<V>, s: State<V>, m: Mutation)
    requires Inv(f, s) && s.phase.Running?
    ensures Inv(f, SubmitStep(s, m))
  {
    var s' := SubmitStep(s, m);
    var d := s.db.applied - s.start;
    assert s'.history[..d] == s.history[..d];
    forall n | s.db.applied < n <= s.next + 1 ensures Marked(s'.log, n) {
      if n <= s.next {
        assert Marked(s.log, n);
        var i :| 0 <= i < |s.log| && s.log[i].sequence == n;
        assert s'.log[i].sequence == n;
      } else {
        assert s'.log[|s.log|].sequence == n;
      }
    }
  }

  /** Once the next number is committed, nothing in doubt can commit any more. */
  lemma DoubtsSettled<V>(s: State<V>, s': State<V>)
    requires DoubtsOk(s) && s'.start == s.start && s'.db.applied == s.db.applied + 1 && s'.inDoubt <= s.inDoubt
    ensures DoubtsOk(s')
  {
    forall t | t in s'.inDoubt ensures DoubtOk(s', t) {
      assert DoubtOk(s, t);
    }
  }

  lemma CompleteAbove(log: seq<Numbered>, applied: nat, last: nat)
    requires LogComplete(log, applied, last)
    ensures LogComplete(log, applied + 1, last)
  {
  }

  /** The writer's own transaction, or one of its earlier connections, commits. */
  lemma CommitKeepsInv<V>(f: Effect<V>, s: State<V>, job: Numbered, w: Writer, inDoubt: set<Numbered>)
    requires Inv(f, s) && s.phase.Running? && inDoubt <= s.inDoubt
    requires (s.writer.Checking? || s.writer.Applying?) && s.writer.job == job && Transaction(f, s.db, job).Some?
    requires w == s.writer || w == Applied(s.writer.job) || w == Checking(s.writer.job)
    ensures Inv(f, s.(db := Transaction(f, s.db, job).value, writer := w, inDoubt := inDoubt))
  {
    var s' := s.(db := Transaction(f, s.db, job).value, writer := w, inDoubt := inDoubt);
    CommitKeepsExact(f, s, job);
    CompleteAbove(s.log, s.db.applied, s.start + |s.history|);
    DoubtsSettled(s, s');
  }

  /** A transaction left over from an earlier process commits during the start-up of a later one. */
  lemma LateKeepsStartUp<V>(f: Effect<V>, s: State<V>, t: Numbered)
    requires Inv(f, s) && !s.phase.Running? && t in s.inDoubt && Transaction(f, s.db, t).Some?
    ensures Inv(f, s.(db := Transaction(f, s.db, t).value, inDoubt := s.inDoubt - {t}))
  {
    var s' := s.(db := Transaction(f, s.db, t).value, inDoubt := s.inDoubt - {t});
    assert DoubtOk(s, t);
    CommitKeepsExact(f, s, t);
    CompleteAbove(s.log, s.db.applied, s.start + |s.history|);
    DoubtsSettled(s, s');
  }

  /** The history that a crash leaves, and the numbers it still knows. */
  lemma CrashKeepsHistory<V>(f: Effect<V>, s: State<V>, kept: nat)
    requires Inv(f, s) && kept <= |s.log|
    ensures var s', top := CrashStep(s, kept), Max(s.db.applied, LastSequence(s.log[..kept]));
      && s.start + |s'.history| == top && s'.history == s.history[..top - s.start] && s'.history <= s.history
  {
    assert kept > 0 ==> Names(s.start, s.history, s.log[kept - 1]);
  }

  lemma CrashKeepsExact<V>(f: Effect<V>, s: State<V>, kept: nat)
    requires Inv(f, s) && kept <= |s.log|
    ensures Exact(f, CrashStep(s, kept))
  {
    CrashKeepsHistory(f, s, kept);
    var d := s.db.applied - s.start;
    assert CrashStep(s, kept).history[..d] == s.history[..d];
  }

  lemma CrashKeepsLog<V>(f: Effect<V>, s: State<V>, kept: nat)
    requires Inv(f, s) && kept <= |s.log|
    ensures var s' := CrashStep(s, kept);
      LogFaithful(s'.start, s'.history, s'.log) && LogComplete(s'.log, s'.db.applied, s'.start + |s'.history|)
  {
    var s' := CrashStep(s, kept);
    CrashKeepsHistory(f, s, kept);
    forall i | 0 <= i < kept ensures Names(s'.start, s'.history, s'.log[i]) {
      assert Names(s.start, s.history, s.log[i]);
      NoneAbove(s'.log, i);
    }
    forall n | s.db.applied < n <= s'.start + |s'.history| ensures Marked(s'.log, n) {
      assert Marked(s.log, n);
      var i :| 0 <= i < |s.log| && s.log[i].sequence == n;
      assert s'.log[i].sequence == n;
    }
  }

  lemma CrashKeepsDoubts<V>(f: Effect<V>, s: State<V>, kept: nat)
    requires Inv(f, s) && kept <= |s.log| && Covered(s, kept)
    ensures DoubtsOk(CrashStep(s, kept))
  {
    var s' := CrashStep(s, kept);
    CrashKeepsHistory(f, s, kept);
    forall t | t in s'.inDoubt ensures DoubtOk(s', t) {
      assert DoubtOk(s, t);
    }
  }

  lemma CrashKeepsInv<V>(f: Effect<V>, s: State<V>, kept: nat)
    requires Inv(f, s) && kept <= |s.log| && Covered(s, kept)
    ensures Inv(f, CrashStep(s, kept))
  {
    CrashKeepsHistory(f, s, kept);
    CrashKeepsExact(f, s, kept);
    CrashKeepsLog(f, s, kept);
    CrashKeepsDoubts(f, s, kept);
  }

  lemma NoneAbove(log: seq<Numbered>, i: nat)
    requires i < |log|
    requires forall j, k :: 0 <= j < k < |log| ==> log[j].sequence < log[k].sequence
    ensures log[i].sequence <= LastSequence(log)
  {
  }

  /** The next record that recovery has to apply is the next number. */
  lemma NextToRecover<V>(f: Effect<V>, s: State<V>)
    requires Inv(f, s) && s.phase.Recovering? && s.phase.cursor < |s.log|
    ensures var job := s.log[s.phase.cursor];
      && Names(s.start, s.history, job) && job.sequence <= LastSequence(s.log)
      && (job.sequence > s.db.applied ==> job.sequence == s.db.applied + 1 && Transaction(f, s.db, job).Some?)
  {
    var c := s.phase.cursor;
    assert Names(s.start, s.history, s.log[c]);
    NoneAbove(s.log, c);
    if s.log[c].sequence > s.db.applied {
      LogNextIsConsecutive(s.start, s.history, s.log, s.db.applied, c);
    }
  }

  /** A recovery transaction commits, whether or not the new process hears of it. */
  lemma RecoverCommitKeepsInv<V>(f: Effect<V>, s: State<V>, o: Outcome)
    requires Inv(f, s) && s.phase.Recovering? && s.phase.cursor < |s.log|
    requires s.log[s.phase.cursor].sequence > s.db.applied
    ensures var job := s.log[s.phase.cursor];
      && Transaction(f, s.db, job).Some?
      && Inv(f, RecoverCommitted(s, Transaction(f, s.db, job).value, job.sequence, o))
  {
    var job := s.log[s.phase.cursor];
    NextToRecover(f, s);
    CommitKeepsExact(f, s, job);
    CompleteAbove(s.log, s.db.applied, s.start + |s.history|);
    DoubtsSettled(s, RecoverCommitted(s, Transaction(f, s.db, job).value, job.sequence, o));
  }

  lemma RecoverKeepsInv<V>(f: Effect<V>, s: State<V>, o: Outcome)
    requires Inv(f, s) && s.phase.Recovering? && s.phase.cursor < |s.log|
    requires RecoverStep(f, s, o).Some?
    ensures Inv(f, RecoverStep(f, s, o).value)
  {
    var job := s.log[s.phase.cursor];
    NextToRecover(f, s);
    if job.sequence <= s.db.applied {
      RecoverSkipKeepsInv(f, s);
    } else if o.Acknowledged? || o.LostApplied? {
      RecoverCommitKeepsInv(f, s, o);
    } else {
      GiveUpKeepsInv(f, s, if o.LostUnknown? then s.inDoubt + {job} else s.inDoubt, job);
    }
  }

  /** What the database has already is passed over. */
  lemma RecoverSkipKeepsInv<V>(f: Effect<V>, s: State<V>)
    requires Inv(f, s) && s.phase.Recovering? && s.phase.cursor < |s.log| &&
        s.log[s.phase.cursor].sequence <= s.db.applied
    requires s.log[s.phase.cursor].sequence <= LastSequence(s.log)
    ensures RecoverStep(f, s, Acknowledged).Some? && Inv(f, RecoverStep(f, s, Acknowledged).value)
  {
    KeepsDoubts(s, RecoverStep(f, s, Acknowledged).value);
  }

  /** Doubts do not depend on how far the start-up has come. */
  lemma KeepsDoubts<V>(s: State<V>, s': State<V>)
    requires DoubtsOk(s) && !s.phase.Running? && !s'.phase.Running? && s'.inDoubt == s.inDoubt
    requires s'.start == s.start && s'.history == s.history && s'.db == s.db
    ensures DoubtsOk(s')
  {
    forall t | t in s'.inDoubt ensures DoubtOk(s', t) {
      assert DoubtOk(s, t);
    }
  }

  /** A start-up that fails leaves at most one more transaction in doubt, the next one. */
  lemma GiveUpKeepsInv<V>(f: Effect<V>, s: State<V>, inDoubt: set<Numbered>, job: Numbered)
    requires Inv(f, s) && s.phase.Recovering? && s.inDoubt <= inDoubt <= s.inDoubt + {job}
    requires Names(s.start, s.history, job) && job.sequence == s.db.applied + 1
    ensures Inv(f, s.(phase := Exiting, inDoubt := inDoubt))
  {
    var s' := s.(phase := Exiting, inDoubt := inDoubt);
    forall t | t in s'.inDoubt ensures DoubtOk(s', t) {
      assert t in s.inDoubt ==> DoubtOk(s, t);
    }
  }

  lemma LastMarked(log: seq<Numbered>, applied: nat, last: nat)
    requires LogComplete(log, applied, last)
    ensures applied < last ==> Marked(log, last)
  {
  }

  lemma RecoverEndKeepsInv<V>(f: Effect<V>, s: State<V>)
    requires Inv(f, s) && s.phase.Recovering? && s.phase.cursor == |s.log|
    ensures s.db.applied == s.start + |s.history| && Inv(f, Next(f, s, RecoverEnd).value)
  {
    var s', last := Next(f, s, RecoverEnd).value, s.start + |s.history|;
    LastMarked(s.log, s.db.applied, last);
    forall t | t in s'.inDoubt ensures DoubtOk(s', t) {
      assert DoubtOk(s, t);
    }
  }

  lemma QueueStepsKeepInv<V>(f: Effect<V>, s: State<V>, a: Action)
    requires Inv(f, s) && Next(f, s, a).Some?
    requires a.Take? || a.Publish? || a.Check? || a.LateAbort?
    ensures Inv(f, Next(f, s, a).value)
  {
    if a.Take? { assert Names(s.start, s.history, s.queue[0]); }
    QueueStepsKeepDoubts(f, s, a);
  }

  lemma QueueStepsKeepDoubts<V>(f: Effect<V>, s: State<V>, a: Action)
    requires Inv(f, s) && Next(f, s, a).Some?
    requires a.Take? || a.Publish? || a.Check? || a.LateAbort?
    ensures DoubtsOk(Next(f, s, a).value)
  {
    var s' := Next(f, s, a).value;
    forall t | t in s'.inDoubt ensures DoubtOk(s', t) {
      assert DoubtOk(s, t);
    }
  }

  lemma AttemptKeepsInv<V>(f: Effect<V>, s: State<V>, o: Outcome)
    requires Inv(f, s) && s.writer.Applying? && AttemptStep(f, s, o).Some?
    ensures Inv(f, AttemptStep(f, s, o).value)
  {
    var s' := AttemptStep(f, s, o).value;
    if o.Acknowledged? || o.LostApplied? {
      CommitKeepsInv(f, s, s.writer.job, s'.writer, s.inDoubt);
    } else {
      forall t | t in s'.inDoubt ensures DoubtOk(s', t) {
        assert t in s.inDoubt ==> DoubtOk(s, t);
      }
    }
  }

  lemma LateCommitKeepsInv<V>(f: Effect<V>, s: State<V>, t: Numbered)
    requires Inv(f, s) && t in s.inDoubt && Transaction(f, s.db, t).Some?
    ensures Inv(f, s.(db := Transaction(f, s.db, t).value, inDoubt := s.inDoubt - {t}))
  {
    if s.phase.Running? {
      assert DoubtOk(s, t);
      CommitKeepsInv(f, s, t, s.writer, s.inDoubt - {t});
    } else {
      LateKeepsStartUp(f, s, t);
    }
  }

  lemma NextKeepsInv<V>(f: Effect<V>, s: State<V>, a: Action)
    requires Inv(f, s) && Next(f, s, a).Some? && SafeStep(s, a)
    ensures Inv(f, Next(f, s, a).value)
  {
    match a
    case Submit(m) => SubmitKeepsInv(f, s, m);
    case Attempt(o) => AttemptKeepsInv(f, s, o);
    case LateCommit(t) => LateCommitKeepsInv(f, s, t);
    case Crash(kept) => CrashKeepsInv(f, s, kept);
    case RecoverRecord(o) => RecoverKeepsInv(f, s, o);
    case RecoverEnd => RecoverEndKeepsInv(f, s);
    case _ => QueueStepsKeepInv(f, s, a);
  }

  // ---------------------------------------------------------------- theorems

  lemma {:induction false} RunKeepsInv<V>(f: Effect<V>, s: State<V>, actions: seq<Action>)
    requires Inv(f, s) && Run(f, s, actions).Some? && Safe(f, s, actions)
    ensures Inv(f, Run(f, s, actions).value)
    decreases |actions|
  {
    if actions != [] {
      NextKeepsInv(f, s, actions[0]);
      RunKeepsInv(f, Next(f, s, actions[0]).value, actions[1..]);
    }
  }

  /**
    Exactly-once write-back.  After every run whose crashes are covered,
    whatever fails, is retried, crashes or restarts in it, the database equals
    the bootstrapped rows with the mutations numbered up to its watermark folded
    in once each, in order, and the change log records exactly those numbers.
   */
  lemma ExactlyOnce<V>(f: Effect<V>, rows: Rows<V>, start: nat, actions: seq<Action>)
    requires Run(f, Boot(rows, start), actions).Some? && Safe(f, Boot(rows, start), actions)
    ensures var s := Run(f, Boot(rows, start), actions).value;
      && Inv(f, s)
      && start == s.start <= s.db.applied <= start + |s.history|
      && s.db.rows == Fold(f, rows, s.history[..s.db.applied - start])
      && (forall n :: n in s.db.changes <==> start < n <= s.db.applied)
  {
    RunKeepsInv(f, Boot(rows, start), actions);
    RunKeepsBase(f, Boot(rows, start), actions);
  }

  lemma {:induction false} RunKeepsBase<V>(f: Effect<V>, s: State<V>, actions: seq<Action>)
    requires Run(f, s, actions).Some?
    ensures Run(f, s, actions).value.start == s.start && Run(f, s, actions).value.base == s.base
    decreases |actions|
  {
    if actions != [] {
      RunKeepsBase(f, Next(f, s, actions[0]).value, actions[1..]);
    }
  }

  /** One action: the watermark does not fall, and what is below it stays as it is. */
  lemma NextKeepsApplied<V>(f: Effect<V>, s: State<V>, a: Action)
    requires Inv(f, s) && Next(f, s, a).Some?
    ensures var s' := Next(f, s, a).value;
      && s.start == s'.start && s.db.applied <= s'.db.applied
      && s.history[..s.db.applied - s.start] <= s'.history
  {
    match a
    case Crash(kept) => CrashKeepsHistory(f, s, kept);
    case _ => assert s.history <= Next(f, s, a).value.history;
  }

  /**
    A mutation that reached the database stays the one of its number for ever,
    across crashes and whatever the log lost.
   */
  lemma {:induction false} AppliedIsForever<V>(f: Effect<V>, s: State<V>, actions: seq<Action>)
    requires Inv(f, s) && Run(f, s, actions).Some? && Safe(f, s, actions)
    ensures var s' := Run(f, s, actions).value;
      && s.start == s'.start && s.db.applied <= s'.db.applied
      && s.history[..s.db.applied - s.start] <= s'.history
    decreases |actions|
  {
    if actions != [] {
      var s1 := Next(f, s, actions[0]).value;
      NextKeepsInv(f, s, actions[0]);
      NextKeepsApplied(f, s, actions[0]);
      AppliedIsForever(f, s1, actions[1..]);
      var s' := Run(f, s, actions).value;
      var d, d1 := s.db.applied - s.start, s1.db.applied - s.start;
      assert s.history[..d] == s1.history[..d1][..d];
      assert s1.history[..d1] == s'.history[..d1];
    }
  }

  /** A start-up in which every recovery transaction is acknowledged. */
  function Restart(kept: nat): seq<Action> {
    seq(kept, i => RecoverRecord(Acknowledged)) + [RecoverEnd]
  }

  lemma {:induction false} RecoveryFinishes<V>(f: Effect<V>, s: State<V>) returns (r: State<V>)
    requires Inv(f, s) && s.phase.Recovering?
    ensures Run(f, s, Restart(|s.log| - s.phase.cursor)) == Some(r) && r.phase.Running? && Inv(f, r)
    ensures r.start == s.start && r.base == s.base && r.history == s.history && r.log == s.log
    ensures r.db.applied == s.start + |s.history|
    decreases |s.log| - s.phase.cursor
  {
    var left := |s.log| - s.phase.cursor;
    if left == 0 {
      assert Restart(0) == [RecoverEnd];
      RecoverEndKeepsInv(f, s);
      RunOne(f, s, RecoverEnd);
      r := Next(f, s, RecoverEnd).value;
    } else {
      var s1 := RecoverOne(f, s);
      assert Restart(left)[0] == RecoverRecord(Acknowledged) && Restart(left)[1..] == Restart(left - 1);
      RunStep(f, s, Restart(left), s1);
      r := RecoveryFinishes(f, s1);
    }
  }

  lemma RunStep<V>(f: Effect<V>, s: State<V>, actions: seq<Action>, s1: State<V>)
    requires actions != [] && Next(f, s, actions[0]) == Some(s1)
    ensures Run(f, s, actions) == Run(f, s1, actions[1..])
  {
  }

  lemma RecoverOne<V>(f: Effect<V>, s: State<V>) returns (s1: State<V>)
    requires Inv(f, s) && s.phase.Recovering? && s.phase.cursor < |s.log|
    ensures Next(f, s, RecoverRecord(Acknowledged)) == Some(s1) && Inv(f, s1)
    ensures s1.phase.Recovering? && s1.phase.cursor == s.phase.cursor + 1
    ensures s1.start == s.start && s1.base == s.base && s1.history == s.history && s1.log == s.log
  {
    NextToRecover(f, s);
    RecoverKeepsInv(f, s, Acknowledged);
    s1 := RecoverStep(f, s, Acknowledged).value;
  }

  lemma LastIsMarked<V>(f: Effect<V>, s: State<V>)
    requires Inv(f, s)
    ensures Max(s.db.applied, LastSequence(s.log)) == s.start + |s.history|
  {
    assert s.log != [] ==> Names(s.start, s.history, s.log[|s.log| - 1]);
    var last := s.start + |s.history|;
    if last > s.db.applied {
      assert Marked(s.log, last);
      var i :| 0 <= i < |s.log| && s.log[i].sequence == last;
      NoneAbove(s.log, i);
    }
  }

  /** With the whole log kept, a crash drops no mutation and is covered. */
  lemma IntactLogIsCovered<V>(f: Effect<V>, s: State<V>)
    requires Inv(f, s)
    ensures CrashStep(s, |s.log|).history == s.history && Covered(s, |s.log|)
  {
    assert s.log[..|s.log|] == s.log;
    assert s.history[..|s.history|] == s.history;
    LastIsMarked(f, s);
    forall t | t in s.inDoubt ensures t.sequence <= Max(s.db.applied, LastSequence(s.log[..|s.log|])) {
      assert DoubtOk(s, t);
    }
  }

  /** No crash of the run loses a record of the log. */
  predicate KeepsLog<V>(f: Effect<V>, s: State<V>, actions: seq<Action>)
    decreases |actions|
  {
    actions == [] ||
    (&& (actions[0].Crash? ==> actions[0].kept == |s.log|)
     && (Next(f, s, actions[0]).Some? ==> KeepsLog(f, Next(f, s, actions[0]).value, actions[1..])))
  }

  /** Runs whose log survives every crash are safe. */
  lemma {:induction false} IntactRunsAreSafe<V>(f: Effect<V>, s: State<V>, actions: seq<Action>)
    requires Inv(f, s) && KeepsLog(f, s, actions)
    ensures Safe(f, s, actions)
    decreases |actions|
  {
    if actions != [] {
      IntactLogIsCovered(f, s);
      if Next(f, s, actions[0]).Some? {
        NextKeepsInv(f, s, actions[0]);
        IntactRunsAreSafe(f, Next(f, s, actions[0]).value, actions[1..]);
      }
    }
  }

  /**
    A crash with the log intact loses nothing: the next start-up brings the
    database up to the last marked record, which is the last mutation submitted.
   */
  lemma RestartCatchesUp<V>(f: Effect<V>, s: State<V>)
    requires Inv(f, s)
    ensures var r := Run(f, CrashStep(s, |s.log|), Restart(|s.log|));
      && r.Some? && r.value.phase.Running? && r.value.history == s.history
      && r.value.db.rows == Fold(f, s.base, s.history)
      && r.value.db.applied == r.value.next == s.start + |s.history|
  {
    var c := CrashStep(s, |s.log|);
    IntactLogIsCovered(f, s);
    CrashKeepsInv(f, s, |s.log|);
    assert |c.log| == |s.log|;
    var r := RecoveryFinishes(f, c);
    assert s.history[..|s.history|] == s.history;
  }

  // --------------------------------------- commits of a process that is gone

  /** Every run from here whose own crashes are covered ends in an exact database. */
  ghost predicate StaysExact<V>(f: Effect<V>, s: State<V>) {
    forall actions :: Run(f, s, actions).Some? && Safe(f, s, actions) ==> Exact(f, Run(f, s, actions).value)
  }

  /** Something in doubt has a number that neither the database nor the kept log knows. */
  lemma Orphan<V>(f: Effect<V>, s: State<V>, kept: nat) returns (t: Numbered)
    requires Inv(f, s) && kept <= |s.log| && !Covered(s, kept)
    ensures t in s.inDoubt && t.sequence == s.db.applied + 1 && LastSequence(s.log[..kept]) <= s.db.applied
  {
    t :| t in s.inDoubt && t.sequence > Max(s.db.applied, LastSequence(s.log[..kept]));
    assert DoubtOk(s, t);
  }

  /**
    Exactly when a crash is covered does the database stay exact after it,
    whatever the next processes do and whenever the old commits land.
   */
  lemma ExactIffCovered<V>(f: Effect<V>, s: State<V>, kept: nat)
    requires Inv(f, s) && kept <= |s.log|
    ensures Covered(s, kept) <==> StaysExact(f, CrashStep(s, kept))
  {
    var c := CrashStep(s, kept);
    if Covered(s, kept) {
      CrashKeepsInv(f, s, kept);
      forall actions | Run(f, c, actions).Some? && Safe(f, c, actions) ensures Exact(f, Run(f, c, actions).value) {
        RunKeepsInv(f, c, actions);
      }
    } else {
      var t := Orphan(f, s, kept);
      CrashKeepsHistory(f, s, kept);
      CrashKeepsExact(f, s, kept);
      RunOne(f, c, LateCommit(t));
      assert Safe(f, c, [LateCommit(t)]);
      assert !Exact(f, Run(f, c, [LateCommit(t)]).value);
    }
  }

  /** Start-up with every transaction acknowledged does not look at what is in doubt. */
  lemma {:induction false} RestartIgnoresDoubt<V>(f: Effect<V>, s: State<V>, x: set<Numbered>, n: nat)
    requires Run(f, s, Restart(n)).Some?
    ensures Run(f, s.(inDoubt := x), Restart(n)) == Some(Run(f, s, Restart(n)).value.(inDoubt := x))
    decreases n
  {
    if n == 0 {
      assert Restart(0) == [RecoverEnd];
      RunOne(f, s, RecoverEnd);
      RunOne(f, s.(inDoubt := x), RecoverEnd);
    } else {
      var s1 := Next(f, s, RecoverRecord(Acknowledged)).value;
      assert Restart(n)[0] == RecoverRecord(Acknowledged) && Restart(n)[1..] == Restart(n - 1);
      RunStep(f, s, Restart(n), s1);
      RunStep(f, s.(inDoubt := x), Restart(n), s1.(inDoubt := x));
      RestartIgnoresDoubt(f, s1, x, n - 1);
    }
  }

  /** A process starts, submits a mutation under the orphan's number, and the orphan commits first. */
  function Displacing(kept: nat, m: Mutation, t: Numbered): seq<Action> {
    Restart(kept) + [Submit(m), LateCommit(t), Take, Check(true), Publish]
  }

  /** After such a start the process runs, and the database is where the crash left it. */
  lemma OrphanRestarts<V>(f: Effect<V>, s: State<V>, kept: nat, t: Numbered) returns (r: State<V>)
    requires Inv(f, s) && kept <= |s.log|
    requires t in s.inDoubt && t.sequence == s.db.applied + 1 && LastSequence(s.log[..kept]) <= s.db.applied
    ensures Run(f, CrashStep(s, kept), Restart(kept)) == Some(r)
    ensures r.phase.Running? && r.queue == [] && r.writer.Idle? && t in r.inDoubt
    ensures r.db == s.db && r.published == r.next == s.db.applied && r.history == s.history[..s.db.applied - s.start]
  {
    var quiet := s.(inDoubt := {});
    var c := CrashStep(quiet, kept);
    assert Inv(f, quiet) by { DoubtlessKeepsInv(f, s); }
    CrashKeepsInv(f, quiet, kept);
    CrashKeepsHistory(f, quiet, kept);
    var done := RecoveryFinishes(f, c);
    RestartIgnoresDoubt(f, c, s.inDoubt, kept);
    RestartKeepsDatabase(f, c, kept);
    assert c.(inDoubt := s.inDoubt) == CrashStep(s, kept);
    r := done.(inDoubt := s.inDoubt);
  }

  lemma DoubtlessKeepsInv<V>(f: Effect<V>, s: State<V>)
    requires Inv(f, s)
    ensures Inv(f, s.(inDoubt := {}))
  {
  }

  /** Where the whole log is below the watermark, start-up touches nothing but the phase. */
  lemma {:induction false} RestartKeepsDatabase<V>(f: Effect<V>, s: State<V>, n: nat)
    requires Run(f, s, Restart(n)).Some? && s.phase.Recovering? && LastSequence(s.log) <= s.phase.databaseSequence
    requires forall i, j :: 0 <= i < j < |s.log| ==> s.log[i].sequence < s.log[j].sequence
    ensures var r := Run(f, s, Restart(n)).value; r == s.(phase := Running, next := s.phase.databaseSequence)
    decreases n
  {
    if n == 0 {
      assert Restart(0) == [RecoverEnd];
      RunOne(f, s, RecoverEnd);
    } else {
      assert Restart(n)[0] == RecoverRecord(Acknowledged) && Restart(n)[1..] == Restart(n - 1);
      NoneAbove(s.log, s.phase.cursor);
      var s1 := s.(phase := s.phase.(cursor := s.phase.cursor + 1));
      RunStep(f, s, Restart(n), s1);
      RestartKeepsDatabase(f, s1, n - 1);
    }
  }

  /**
    An uncovered crash can cost any mutation: the next process numbers it like
    the orphan, the orphan commits first, and the writer takes the number for
    applied.  Everything then counts as written, but the database holds the
    orphan's effect instead of the mutation's.
   */
  lemma OrphanDisplaces<V>(f: Effect<V>, s: State<V>, kept: nat, t: Numbered, m: Mutation)
    requires Inv(f, s) && kept <= |s.log|
    requires t in s.inDoubt && t.sequence == s.db.applied + 1 && LastSequence(s.log[..kept]) <= s.db.applied
    ensures var r := Run(f, CrashStep(s, kept), Displacing(kept, m, t));
      && r.Some? && r.value.queue == [] && r.value.writer.Idle?
      && r.value.history == s.history[..s.db.applied - s.start] + [m]
      && r.value.published == r.value.db.applied == r.value.next == s.db.applied + 1
      && r.value.db.rows == ApplyRow(f, s.db.rows, t.mutation)
  {
    var c := CrashStep(s, kept);
    var r := OrphanRestarts(f, s, kept, t);
    RunAppend(f, c, Restart(kept), [Submit(m), LateCommit(t), Take, Check(true), Publish]);
    var s1 := SubmitStep(r, m);
    var db := Transaction(f, s.db, t).value;
    var s2 := s1.(db := db, inDoubt := s1.inDoubt - {t});
    var job := Numbered(s.db.applied + 1, m);
    assert s2.queue == [job] && [job][1..] == [];
    var s3 := s2.(queue := [], writer := Checking(job));
    var s4 := s3.(writer := Applied(job));
    var s5 := s4.(writer := Idle, published := s.db.applied + 1);
    RunFive(f, r, Submit(m), s1, LateCommit(t), s2, Take, s3, Check(true), s4, Publish, s5);
  }

  lemma RunFive<V>(f: Effect<V>, s: State<V>, a: Action, s1: State<V>, b: Action, s2: State<V>, c: Action, s3: State<V>,
                   d: Action, s4: State<V>, e: Action, s5: State<V>)
    requires Next(f, s, a) == Some(s1) && Next(f, s1, b) == Some(s2) && Next(f, s2, c) == Some(s3)
    requires Next(f, s3, d) == Some(s4) && Next(f, s4, e) == Some(s5)
    ensures Run(f, s, [a, b, c, d, e]) == Some(s5)
  {
    var all := [a, b, c, d, e];
    assert all[1..] == [b, c, d, e] && all[1..][1..] == [c, d, e];
    assert [c, d, e][1..] == [d, e] && [d, e][1..] == [e];
    RunStep(f, s, all, s1);
    RunStep(f, s1, [b, c, d, e], s2);
    RunStep(f, s2, [c, d, e], s3);
    RunStep(f, s3, [d, e], s4);
    RunOne(f, s4, e);
  }

  /** Each mutation replaces the row of its key. */
  function Overwrite(): Effect<seq<Bytes>> { (v: Option<seq<Bytes>>, m: Mutation) => Some(m.arguments) }

  /**
    A run that loses a mutation: x is sent, its commit is in doubt when the
    process dies with nothing in the log, the next process gives y the same
    number, and x commits late.  In the end y counts as applied, yet the row is x.
   */
  lemma OrphanWitness(k: Bytes, x: seq<Bytes>, y: seq<Bytes>)
    requires x != y
    ensures var f, a, b := Overwrite(), Mutation(k, x), Mutation(k, y);
      var r := Run(f, Boot(map[], 0), DoubtfulRun(a) + Displacing(0, b, Numbered(1, a)));
      && r.Some? && r.value.history == [b] && r.value.queue == [] && r.value.published == r.value.db.applied == 1
      && r.value.db.rows == map[k := x] && Fold(f, map[], [b]) == map[k := y]
  {
    var f, a, b := Overwrite(), Mutation(k, x), Mutation(k, y);
    var s4 := LeftInDoubt(f, map[], a);
    OrphanDisplaces(f, s4, 0, Numbered(1, a), b);
    RunAppend(f, Boot(map[], 0), DoubtfulRun(a), Displacing(0, b, Numbered(1, a)));
    FoldOne(f, map[], b);
    assert s4.history[..0] + [b] == [b];
    assert ApplyRow(f, map[], a) == map[k := x] && ApplyRow(f, map[], b) == map[k := y];
  }

  lemma FoldOne<V>(f: Effect<V>, rows: Rows<V>, m: Mutation)
    ensures Fold(f, rows, [m]) == ApplyRow(f, rows, m)
  {
    assert [m][..0] == [];
  }

  function DoubtfulRun(m: Mutation): seq<Action> { [Submit(m), Take, Check(true), Attempt(LostUnknown), Crash(0)] }

  /** The commit of the first mutation is in doubt, and the process dies with nothing in the log. */
  lemma LeftInDoubt<V>(f: Effect<V>, rows: Rows<V>, m: Mutation) returns (s: State<V>)
    ensures Inv(f, s) && s.inDoubt == {Numbered(1, m)} && s.history == [m] && |s.log| == 1 && s.start == 0
    ensures s.db == Database(rows, {}, 0) && Run(f, Boot(rows, 0), DoubtfulRun(m)) == Some(CrashStep(s, 0))
  {
    var boot, job := Boot(rows, 0), Numbered(1, m);
    var s1 := SubmitStep(boot, m);
    assert s1.queue == [job] && [job][1..] == [];
    var s2 := s1.(queue := [], writer := Checking(job));
    var s3 := s2.(writer := Applying(job));
    s := s3.(writer := Checking(job), inDoubt := {job});
    BootIsInv(f, rows, 0);
    FirstSteps(f, s1, s2, s3, s, job);
    FirstInDoubt(f, boot, s1, s2, s3, s, m);
    CrashNext(f, s);
    RunFive(f, boot, Submit(m), s1, Take, s2, Check(true), s3, Attempt(LostUnknown), s, Crash(0), CrashStep(s, 0));
  }

  /** A writer takes the only job, sees that it is not applied, and its commit is left in doubt. */
  lemma FirstSteps<V>(f: Effect<V>, s1: State<V>, s2: State<V>, s3: State<V>, s: State<V>, job: Numbered)
    requires s1.phase.Running? && s1.writer.Idle? && s1.queue == [job] && s1.inDoubt == {} &&
        s1.db.applied < job.sequence
    requires s2 == s1.(queue := [], writer := Checking(job)) && s3 == s2.(writer := Applying(job))
    requires s == s3.(writer := Checking(job), inDoubt := {job})
    ensures Next(f, s1, Take) == Some(s2) && Next(f, s2, Check(true)) == Some(s3)
    ensures Next(f, s3, Attempt(LostUnknown)) == Some(s)
  {
    assert [job][1..] == [] && {} + {job} == {job};
  }

  lemma CrashNext<V>(f: Effect<V>, s: State<V>)
    ensures Next(f, s, Crash(0)) == Some(CrashStep(s, 0))
  {
  }

  lemma BootIsInv<V>(f: Effect<V>, rows: Rows<V>, start: nat)
    ensures Inv(f, Boot(rows, start))
  {
  }

  lemma FirstInDoubt<V>(f: Effect<V>, boot: State<V>, s1: State<V>, s2: State<V>, s3: State<V>, s: State<V>,
      m: Mutation)
    requires Inv(f, boot) && Next(f, boot, Submit(m)) == Some(s1) && Next(f, s1, Take) == Some(s2)
    requires Next(f, s2, Check(true)) == Some(s3) && Next(f, s3, Attempt(LostUnknown)) == Some(s)
    ensures Inv(f, s)
  {
    NextKeepsInv(f, boot, Submit(m));
    NextKeepsInv(f, s1, Take);
    NextKeepsInv(f, s2, Check(true));
    NextKeepsInv(f, s3, Attempt(LostUnknown));
  }

  // ------------------------------------------- what readers may rely upon

  /** No mutation of the key is still on its way to the database. */
  ghost predicate Quiet<V>(s: State<V>, key: Bytes) {
    forall i :: s.db.applied - s.start <= i < |s.history| && 0 <= i ==> s.history[i].key != key
  }

  /** The row that the key will have once every mutation submitted so far is applied. */
  function Final<V>(f: Effect<V>, s: State<V>, key: Bytes): Option<V> {
    Lookup(Fold(f, s.base, s.history), key)
  }

  lemma {:induction false} FoldIgnoresOthers<V>(f: Effect<V>, rows: Rows<V>, ms: seq<Mutation>, k: nat, key: Bytes)
    requires k <= |ms|
    requires forall i :: k <= i < |ms| ==> ms[i].key != key
    ensures Lookup(Fold(f, rows, ms), key) == Lookup(Fold(f, rows, ms[..k]), key)
    decreases |ms|
  {
    if k == |ms| {
      assert ms[..k] == ms;
    } else {
      var front := ms[..|ms| - 1];
      FoldIgnoresOthers(f, rows, front, k, key);
      assert front[..k] == ms[..k];
    }
  }

  /** For a quiet key the database already holds the final row. */
  lemma QuietIsFinal<V>(f: Effect<V>, s: State<V>, key: Bytes)
    requires Inv(f, s) && Quiet(s, key)
    ensures Lookup(s.db.rows, key) == Final(f, s, key)
  {
    FoldIgnoresOthers(f, s.base, s.history, s.db.applied - s.start, key);
  }

  lemma BackgroundFrame<V>(f: Effect<V>, s: State<V>, a: Action)
    requires Next(f, s, a).Some? && !a.Submit? && !a.Crash?
    ensures var s' := Next(f, s, a).value;
      && s'.start == s.start && s'.base == s.base && s'.history == s.history
      && s.published <= s'.published && s.db.applied <= s'.db.applied
  {
  }

  /**
    What the writer and recovery do to the rest of the system: the history
    stays, the published watermark lags the real one, and the row of a quiet
    key does not change.
   */
  lemma BackgroundStep<V>(f: Effect<V>, s: State<V>, a: Action)
    requires Inv(f, s) && Next(f, s, a).Some? && !a.Submit? && !a.Crash?
    ensures var s' := Next(f, s, a).value;
      && s'.start == s.start && s'.base == s.base && s'.history == s.history
      && s.published <= s'.published <= s'.db.applied
      && s.db.applied <= s'.db.applied
      && (forall key :: Quiet(s, key) ==> Quiet(s', key) && Lookup(s'.db.rows, key) == Lookup(s.db.rows, key))
  {
    NextKeepsInv(f, s, a);
    BackgroundFrame(f, s, a);
    var s' := Next(f, s, a).value;
    forall key | Quiet(s, key)
      ensures Quiet(s', key) && Lookup(s'.db.rows, key) == Lookup(s.db.rows, key)
    {
      QuietIsFinal(f, s, key);
      QuietIsFinal(f, s', key);
    }
  }

  // --------------------------------------------------- the imperative writer

  lemma {:induction false} RunAppend<V>(f: Effect<V>, s: State<V>, a: seq<Action>, b: seq<Action>)
    requires Run(f, s, a).Some?
    ensures Run(f, s, a + b) == Run(f, Run(f, s, a).value, b)
    decreases |a|
  {
    if a == [] {
      assert [] + b == b;
    } else {
      assert (a + b)[1..] == a[1..] + b;
      RunAppend(f, Next(f, s, a[0]).value, a[1..], b);
    }
  }

  lemma RunOne<V>(f: Effect<V>, s: State<V>, a: Action)
    ensures Run(f, s, [a]) == Next(f, s, a)
  {
    assert [a][1..] == [];
    assert Next(f, s, a).Some? ==> Run(f, Next(f, s, a).value, []) == Next(f, s, a);
  }

  /** What the outside world does to one turn of the writer's retry loop. */
  datatype Turn = Turn(connected: bool, answered: bool, outcome: Outcome, lateCommit: bool)

  /**
    The shared part of the MySQL store that the writer thread works on.  The
    ghost fields are the specification's history and outbox.
   */
  class Store<V(!new)> {
    const effect: Effect<V>
    ghost const start: nat
    ghost const base: Rows<V>
    ghost var history: seq<Mutation>
    ghost var log: seq<Numbered>
    var next: nat
    var queue: seq<Numbered>
    var inDoubt: set<Numbered>
    var published: nat
    var db: Database<V>

    ghost function At(writer: Writer): State<V>
      reads this
    {
      State(start, base, history, log, Running, next, queue, writer, inDoubt, published, db)
    }

    constructor (effect: Effect<V>, rows: Rows<V>, watermark: nat)
      ensures At(Idle) == Boot(rows, watermark) && Inv(effect, At(Idle)) && this.effect == effect
    {
      this.effect, start, base := effect, watermark, rows;
      history, log, next, queue, inDoubt := [], [], watermark, [], {};
      published, db := watermark, Database(rows, {}, watermark);
    }

    /** Numbers a mutation, marks it in the log and queues it, whatever the writer is doing. */
    method Submit(m: Mutation, ghost writer: Writer)
      requires Inv(effect, At(writer))
      modifies this`history, this`log, this`next, this`queue
      ensures At(writer) == SubmitStep(old(At(writer)), m) && Inv(effect, At(writer))
    {
      var job := Numbered(next + 1, m);
      SubmitKeepsInv(effect, At(writer), m);
      history, log := history + [m], log + [job];
      next, queue := next + 1, queue + [job];
    }

    /** One try at the transaction of a job; true when the writer knows that it committed. */
    method TryApply(job: Numbered, outcome: Outcome) returns (ok: bool)
      requires Inv(effect, At(Applying(job)))
      modifies this`inDoubt, this`db
      ensures var o := if outcome != LostUnknown && job.sequence in old(db.changes) then Refused else outcome;
        && ok == o.Acknowledged?
        && AttemptStep(effect, old(At(Applying(job))), o) == Some(At(if ok then Applied(job) else Checking(job)))
      ensures Inv(effect, At(if ok then Applied(job) else Checking(job)))
    {
      ghost var o := if outcome != LostUnknown && job.sequence in db.changes then Refused else outcome;
      AttemptKeepsInv(effect, At(Applying(job)), o);
      ok := false;
      if outcome == LostUnknown {
        inDoubt := inDoubt + {job};
      } else if outcome != Refused {
        var committed := Transaction(effect, db, job);
        if committed.Some? {
          db := committed.value;
          ok := outcome == Acknowledged;
        }
      }
    }

    /** A commit sent on a dead connection may take effect before the next try. */
    method LateTurn(job: Numbered) returns (ghost actions: seq<Action>)
      requires Inv(effect, At(Checking(job)))
      modifies this`inDoubt, this`db
      ensures Run(effect, old(At(Checking(job))), actions) == Some(At(Checking(job)))
      ensures Inv(effect, At(Checking(job)))
    {
      actions := [];
      if job in inDoubt {
        var late := Transaction(effect, db, job);
        if late.Some? {
          actions := [LateCommit(job)];
          RunOne(effect, At(Checking(job)), LateCommit(job));
          NextKeepsInv(effect, At(Checking(job)), LateCommit(job));
          db, inDoubt := late.value, inDoubt - {job};
        }
      }
    }

    /** The body of the retry loop on a live connection: ask for the watermark, then apply. */
    method ConnectedTurn(job: Numbered, answered: bool, outcome: Outcome)
      returns (applied: bool, ghost actions: seq<Action>)
      requires Inv(effect, At(Checking(job)))
      modifies this`inDoubt, this`db
      ensures Run(effect, old(At(Checking(job))), actions) == Some(At(if applied then Applied(job) else Checking(job)))
      ensures Inv(effect, At(if applied then Applied(job) else Checking(job)))
    {
      ghost var before := At(Checking(job));
      actions := [Check(answered)];
      RunOne(effect, before, Check(answered));
      NextKeepsInv(effect, before, Check(answered));
      if answered && db.applied >= job.sequence {
        applied := true;
      } else {
        ghost var o := if outcome != LostUnknown && job.sequence in db.changes then Refused else outcome;
        RunAppend(effect, before, actions, [Attempt(o)]);
        RunOne(effect, At(Applying(job)), Attempt(o));
        applied := TryApply(job, outcome);
        actions := actions + [Attempt(o)];
      }
    }

    /**
      The writer takes the oldest job and retries until it knows that the job
      is applied, or until the turns run out (the shutdown deadline).  The
      trace shows that every such service is a run of the step system; a served
      job raises the published watermark by exactly one.
     */
    method Serve(turns: seq<Turn>) returns (applied: bool, ghost writer: Writer, ghost trace: seq<Action>)
      requires Inv(effect, At(Idle)) && queue != []
      modifies this`queue, this`inDoubt, this`published, this`db
      ensures Run(effect, old(At(Idle)), trace) == Some(At(writer)) && Inv(effect, At(writer))
      ensures queue == old(queue)[1..]
      ensures applied ==> writer.Idle? && published == db.applied == old(db.applied) + 1
      ensures !applied ==> !writer.Idle? && published == old(published)
    {
      ghost var before := At(Idle);
      RunOne(effect, before, Take);
      NextKeepsInv(effect, before, Take);
      var job := queue[0];
      queue := queue[1..];
      applied, trace := false, [Take];
      var i := 0;
      while !applied && i < |turns|
        invariant 0 <= i <= |turns| && queue == old(queue)[1..] && published == old(published)
        invariant Run(effect, before, trace) == Some(At(if applied then Applied(job) else Checking(job)))
        invariant Inv(effect, At(if applied then Applied(job) else Checking(job)))
        decreases |turns| - i
      {
        var turn := turns[i];
        i := i + 1;
        ghost var actions;
        if turn.lateCommit {
          actions := LateTurn(job);
          RunAppend(effect, before, trace, actions);
          trace := trace + actions;
        }
        if turn.connected {
          applied, actions := ConnectedTurn(job, turn.answered, turn.outcome);
          RunAppend(effect, before, trace, actions);
          trace := trace + actions;
        }
      }
      writer := if applied then Applied(job) else Checking(job);
      if applied {
        RunAppend(effect, before, trace, [Publish]);
        RunOne(effect, At(writer), Publish);
        NextKeepsInv(effect, At(writer), Publish);
        if job.sequence > published {
          published := job.sequence;
        }
        writer, trace := Idle, trace + [Publish];
      }
    }
  }
}
