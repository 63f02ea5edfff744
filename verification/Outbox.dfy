/**
  The service with MySQL attached: every committed write is logged as evictions,
  the client's own record and a marker, and the own record is what is submitted
  to the database.  The log is the outbox that a restart scans.
 */
module Outbox {
  import opened Bytes
  import opened Records
  import opened MarkerLog
  import C = Cache
  import Service

  /** The cache, the log, the last number used and what was submitted to the database. */
  datatype State = State(uuid: Uuid, log: seq<Record>, next: nat, cache: Service.State, submitted: seq<(nat, Record)>)

  datatype Step =
    | Command(event: Service.Event, admitted: bool, committed: bool)
    | Fill(key: Bytes, value: Service.Value, deadline: nat, charge: nat, now: nat)   // a loaded row is installed
    | Drop(key: Bytes)                                                               // an entry leaves without a record
    | Other(record: Record)                                                          // neither a mutation nor a marker

  /** Commands that may change something. */
  predicate Writes(c: Service.Command) { !c.Read? && !c.Tick? }

  /** The queue, the log or the numbers have no room: refused before anything happens. */
  predicate Refused(s: State, step: Step)
    requires step.Command?
  {
    Writes(step.event.command) && (!step.admitted || s.next >= SIZE_MAX)
  }

  ghost function Executed(s: State, e: Service.Event, env: Service.Env): Service.Result {
    Service.Execute(s.cache, e.command, e.now, e.charge, env)
  }

  /** A transaction that is not committed leaves its effect on the cache, but no record and no submission. */
  ghost function CommandStep(s: State, step: Step, env: Service.Env): State
    requires step.Command?
  {
    if Refused(s, step) then s
    else
      var result := Executed(s, step.event, env);
      match Captured(result.records)
      case None => s.(cache := result.state)
      case Some(own) =>
        if step.committed then Committed(s, result, own) else s.(cache := result.state)
  }

  /** The records and their marker are in the log, and what was captured is submitted under the marker's number. */
  function Committed(s: State, result: Service.Result, own: Record): State {
    s.(cache := result.state, log := s.log + result.records + [Marker(s.uuid, s.next + 1)], next := s.next + 1,
       submitted := s.submitted + [(s.next + 1, own)])
  }

  /** What gives way to a loaded value is logged outside any transaction; the value itself is not. */
  ghost function FillStep(s: State, step: Step, env: Service.Env): State
    requires step.Fill?
  {
    if !C.Accepts(Service.LimitsOf(env), step.charge) then s
    else
      var looked := C.Looked(s.cache, step.key, step.now);
      var t := C.Put(looked, step.key, Service.EntryOf(step.value, step.charge), step.deadline, Service.Lru(env));
      var n := Service.Room(t, step.key, env);
      s.(cache := C.Evicted(t, step.key, n), log := s.log + DelRecords(C.Reported(t, step.key, n, step.now)))
  }

  predicate Possible(step: Step) { step.Other? ==> !IsMutation(step.record) && ParseMarker(step.record).NotMarker? }

  ghost function Next(s: State, step: Step, env: Service.Env): State {
    match step
    case Command(_, _, _) => CommandStep(s, step, env)
    case Fill(_, _, _, _, _) => FillStep(s, step, env)
    case Drop(key) => s.(cache := C.RemoveKey(s.cache, key))
    case Other(r) => s.(log := s.log + [r])
  }

  ghost function Run(s: State, steps: seq<Step>, env: Service.Env): State
    decreases |steps|
  {
    if steps == [] then s else Run(Next(s, steps[0], env), steps[1..], env)
  }

  /** A new process: the log lost a tail, and numbers go on after the database and the log. */
  function Restarted(s: State, kept: nat, watermark: nat, cache: Service.State): State
    requires kept <= |s.log| && ScanAll(s.log[..kept]).Scan?
  {
    var scan := ScanAll(s.log[..kept]);
    State(s.uuid, s.log[..kept], if watermark > scan.maximum then watermark else scan.maximum, cache, scan.found)
  }

  // ------------------------------------------------------------- what is promised

  /** A scan of the log finds exactly what was submitted, numbered upwards, and new numbers are beyond it. */
  ghost predicate Paired(s: State) { Finds(ScanAll(s.log), s.uuid, s.next, s.submitted) }

  ghost predicate Finds(scan: Scan, uuid: Uuid, next: nat, submitted: seq<(nat, Record)>) {
    && scan.Scan? && scan.found == submitted && Increasing(submitted) && scan.maximum <= next <= SIZE_MAX
    && (scan.uuid.Some? ==> scan.uuid.value == uuid)
  }

  /** The step is a write that changed something and was committed. */
  ghost predicate Counts(s: State, step: Step, env: Service.Env) {
    step.Command? && !Refused(s, step) && step.committed && Executed(s, step.event, env).records != []
  }

  /** The client's own record of every write that counts, numbered one after the other. */
  ghost function ClientWrites(s: State, steps: seq<Step>, env: Service.Env): seq<(nat, Record)>
    decreases |steps|
  {
    if steps == [] then []
    else
      var first := if Counts(s, steps[0], env)
                   then [(s.next + 1, Service.Own(steps[0].event.command, steps[0].event.now))] else [];
      first + ClientWrites(Next(s, steps[0], env), steps[1..], env)
  }

  // --------------------------------------------------------------------- proofs

  lemma CommandKeepsPaired(s: State, step: Step, env: Service.Env)
    requires Paired(s) && step.Command?
    ensures Paired(CommandStep(s, step, env))
  {
    if Counts(s, step, env) {
      var e := step.event;
      var result := Executed(s, e, env);
      Service.OwnRecordIsLast(s.cache, e.command, e.now, e.charge, env);
      WritesCount(s.cache, e, env);
      CommittedIsPaired(s, result, Service.Own(e.command, e.now));
    }
  }

  lemma CommittedIsPaired(s: State, result: Service.Result, own: Record)
    requires Paired(s) && s.next < SIZE_MAX && Service.EvictionsThen(result.records, own)
    ensures Paired(Committed(s, result, own))
  {
    MarkedFinds(s.log, result.records, own, s.uuid, s.next, s.submitted);
  }

  lemma MarkedFinds(log: seq<Record>, records: seq<Record>, own: Record, uuid: Uuid, next: nat,
      submitted: seq<(nat, Record)>)
    requires Finds(ScanAll(log), uuid, next, submitted) && next < SIZE_MAX && Mutations(records) &&
        Captured(records) == Some(own)
    ensures Finds(ScanAll(log + records + [Marker(uuid, next + 1)]), uuid, next + 1, submitted + [(next + 1, own)])
  {
    var scan := ScanAll(log);
    ScanIncreases(log);
    ScanMarked(log, records, own, uuid, next + 1);
    FindsMore(scan, uuid, next, submitted, own);
  }

  lemma FindsMore(scan: Scan, uuid: Uuid, next: nat, submitted: seq<(nat, Record)>, own: Record)
    requires Finds(scan, uuid, next, submitted) && Bounded(submitted, scan.maximum) && next < SIZE_MAX
    ensures Finds(Scan(None, Some(uuid), next + 1, scan.found + [(next + 1, own)]), uuid, next + 1,
        submitted + [(next + 1, own)])
  {
  }

  /** Only writes leave records. */
  lemma WritesCount(cache: Service.State, e: Service.Event, env: Service.Env)
    ensures !Writes(e.command) ==> Service.Execute(cache, e.command, e.now, e.charge, env).records == []
  {
  }

  lemma DelsKeepPaired(s: State, keys: seq<Bytes>)
    requires Paired(s)
    ensures Paired(s.(log := s.log + DelRecords(keys)))
  {
    DelsAreMutations(keys);
    if keys == [] {
      assert s.log + DelRecords(keys) == s.log;
    } else {
      ScanMutations(s.log, DelRecords(keys));
    }
  }

  lemma NextKeepsPaired(s: State, step: Step, env: Service.Env)
    requires Paired(s) && Possible(step)
    ensures Paired(Next(s, step, env))
  {
    match step
    case Command(_, _, _) => CommandKeepsPaired(s, step, env);
    case Fill(key, value, deadline, charge, now) =>
      var t := C.Put(C.Looked(s.cache, key, now), key, Service.EntryOf(value, charge), deadline, Service.Lru(env));
      DelsKeepPaired(s, C.Reported(t, key, Service.Room(t, key, env), now));
    case Drop(_) =>
    case Other(r) => ScanOne(s.log, r);
  }

  /** A committed write submits the client's own record, and nothing else submits anything. */
  lemma StepSubmits(s: State, step: Step, env: Service.Env)
    ensures Next(s, step, env).submitted == s.submitted + ClientWrites(s, [step], env)
  {
    assert [step][1..] == [] && s.submitted + [] == s.submitted;
    if Counts(s, step, env) {
      Service.OwnRecordIsLast(s.cache, step.event.command, step.event.now, step.event.charge, env);
    }
  }

  lemma FirstSubmits(s: State, steps: seq<Step>, env: Service.Env)
    requires steps != []
    ensures ClientWrites(s, steps, env) ==
        ClientWrites(s, [steps[0]], env) + ClientWrites(Next(s, steps[0], env), steps[1..], env)
  {
    assert [steps[0]][1..] == [];
  }

  /** A run submits the client's own record of every write that counts. */
  lemma {:induction false} RunSubmits(s: State, steps: seq<Step>, env: Service.Env)
    ensures Run(s, steps, env).submitted == s.submitted + ClientWrites(s, steps, env)
    decreases |steps|
  {
    if steps == [] {
      assert s.submitted + [] == s.submitted;
    } else {
      StepSubmits(s, steps[0], env);
      FirstSubmits(s, steps, env);
      RunSubmits(Next(s, steps[0], env), steps[1..], env);
    }
  }

  /**
    Marker pairing: from any log whose scan finds what was submitted, after any
    run - commands refused, rolled back or committed, evictions under both
    limits, loaded values installed - a scan finds what was found before,
    followed by exactly the client's own record of every committed write that
    changed something, with numbers that strictly increase.
   */
  lemma {:induction false} MarkerPairing(s: State, steps: seq<Step>, env: Service.Env)
    requires Paired(s) && forall i :: 0 <= i < |steps| ==> Possible(steps[i])
    ensures var s' := Run(s, steps, env);
      && Paired(s') && ScanAll(s'.log).Scan?
      && ScanAll(s'.log).found == s'.submitted == ScanAll(s.log).found + ClientWrites(s, steps, env)
    decreases |steps|
  {
    RunSubmits(s, steps, env);
    if steps != [] {
      var s1 := Next(s, steps[0], env);
      NextKeepsPaired(s, steps[0], env);
      MarkerPairing(s1, steps[1..], env);
    }
  }

  /** A restart continues a paired log: whatever tail was lost, a paired log is left. */
  lemma RestartKeepsPaired(s: State, kept: nat, watermark: nat, cache: Service.State)
    requires Paired(s) && kept <= |s.log| && watermark <= SIZE_MAX
    ensures ScanAll(s.log[..kept]).Scan? && Paired(Restarted(s, kept, watermark, cache))
    ensures Restarted(s, kept, watermark, cache).submitted <= s.submitted
  {
    ScanPrefix(s.log, kept);
    ScanIncreases(s.log[..kept]);
  }

  // ------------------------------------------------------ evictions stay at home

  /** A DEL submitted to the database is one that a client asked for. */
  ghost predicate Asked(e: Service.Event, r: Record) {
    && r == Service.Own(e.command, e.now)
    && (|r| == 2 && NameIs(r[0], DEL) ==> e.command == Service.Del(r[1]) || e.command == Service.Expire(r[1], 0))
  }

  ghost predicate AskedIn(steps: seq<Step>, r: Record) {
    exists i :: 0 <= i < |steps| && steps[i].Command? && steps[i].committed && Asked(steps[i].event, r)
  }

  lemma OwnIsAsked(s: State, step: Step, env: Service.Env)
    requires Counts(s, step, env)
    ensures Asked(step.event, Service.Own(step.event.command, step.event.now))
  {
    Service.NamesAreMutations();
    var c := step.event.command;
    WritesCount(s.cache, step.event, env);
    if c.Change? {
      Service.ChangeNames(c.args);
    }
  }

  lemma {:induction false} WritesAreAsked(s: State, steps: seq<Step>, env: Service.Env, i: nat)
    requires i < |ClientWrites(s, steps, env)|
    ensures AskedIn(steps, ClientWrites(s, steps, env)[i].1)
    decreases |steps|
  {
    var rest := ClientWrites(Next(s, steps[0], env), steps[1..], env);
    if Counts(s, steps[0], env) && i == 0 {
      OwnIsAsked(s, steps[0], env);
    } else {
      var j := if Counts(s, steps[0], env) then i - 1 else i;
      WritesAreAsked(Next(s, steps[0], env), steps[1..], env, j);
      assert ClientWrites(s, steps, env)[i] == rest[j];
      AskedLater(steps, rest[j].1);
    }
  }

  lemma AskedLater(steps: seq<Step>, r: Record)
    requires steps != [] && AskedIn(steps[1..], r)
    ensures AskedIn(steps, r)
  {
    var i :| 0 <= i < |steps[1..]| && steps[1..][i].Command? && steps[1..][i].committed &&
        Asked(steps[1..][i].event, r);
    assert steps[i + 1] == steps[1..][i];
  }

  /**
    No eviction becomes a mutation of the database: everything that a run
    submits is the own record of a committed command, and a DEL among it is one
    that a client asked for.
   */
  lemma EvictionsStayHome(s: State, steps: seq<Step>, env: Service.Env, i: nat)
    requires |s.submitted| <= i < |Run(s, steps, env).submitted|
    ensures AskedIn(steps, Run(s, steps, env).submitted[i].1)
  {
    RunSubmits(s, steps, env);
    WritesAreAsked(s, steps, env, i - |s.submitted|);
  }
}
