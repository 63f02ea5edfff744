/**
  Commands on the cache, the log records they leave, and the replay of those
  records.  Both limits of the cache may be set; the replay theorems are for a
  cache that limits the number of keys only.
 */
module Service {
  import opened Bytes
  import opened Order
  import opened Resp
  import opened Records
  import C = Cache
  import Double
  import MarkerLog

  datatype Value = Str(text: Bytes) | Hash(fields: map<Bytes, Bytes>) | Zset(scores: map<Bytes, Score>)

  type State = C.State<Value>

  /** What the outside is to the service: the two limits and how score text is read. */
  datatype Env = Env(maxKeys: nat, maxMemory: nat, score: Bytes -> Option<Score>)

  function LimitsOf(env: Env): C.Limits { C.Limits(env.maxKeys, env.maxMemory) }

  predicate Lru(env: Env) { C.LruOn(LimitsOf(env)) }

  function EntryOf(v: Value, charge: nat): C.Entry<Value> {
    match v
    case Str(_) => C.Entry(v, C.StringKind, charge, 0)
    case Hash(fields) => C.Entry(v, C.HashKind, charge, |fields|)
    case Zset(scores) => C.Entry(v, C.ZsetKind, charge, |scores|)
  }

  function ValueAt(s: State, k: Bytes): Option<Value> { if k in s.index then Some(s.index[k].value) else None }

  // ---------------------------------------------------- commands on one object

  /** What a command does to the object of its key. */
  datatype Effect = Reject | Keep | Write(value: Value) | Erase

  /** HSET and ZADD take pairs, HDEL and ZREM take names. */
  predicate Pairs(args: Record) { |args| >= 4 && |args| % 2 == 0 && (NameIs(args[0], HSET) || NameIs(args[0], ZADD)) }

  predicate Names(args: Record) { |args| >= 3 && (NameIs(args[0], HDEL) || NameIs(args[0], ZREM)) }

  function PairCount(args: Record): nat { if |args| >= 2 then (|args| - 2) / 2 else 0 }

  /** The fields after the first n pairs. */
  function SetFields(h: map<Bytes, Bytes>, args: Record, n: nat): map<Bytes, Bytes>
    requires 2 + 2 * n <= |args|
  {
    if n == 0 then h else SetFields(h, args, n - 1)[args[2 * n] := args[2 * n + 1]]
  }

  /** Whether one of the first n pairs changed something. */
  predicate FieldsChange(h: map<Bytes, Bytes>, args: Record, n: nat)
    requires 2 + 2 * n <= |args|
  {
    n > 0 &&
    (FieldsChange(h, args, n - 1) ||
     var before := SetFields(h, args, n - 1); args[2 * n] !in before || before[args[2 * n]] != args[2 * n + 1])
  }

  predicate ScoresReadable(args: Record, n: nat, env: Env)
    requires 2 + 2 * n <= |args|
  {
    forall i :: 1 <= i <= n ==> env.score(args[2 * i]).Some?
  }

  function SetScores(z: map<Bytes, Score>, args: Record, n: nat, env: Env): map<Bytes, Score>
    requires 2 + 2 * n <= |args| && ScoresReadable(args, n, env)
  {
    if n == 0 then z else SetScores(z, args, n - 1, env)[args[2 * n + 1] := env.score(args[2 * n]).value]
  }

  predicate ScoresChange(z: map<Bytes, Score>, args: Record, n: nat, env: Env)
    requires 2 + 2 * n <= |args| && ScoresReadable(args, n, env)
  {
    n > 0 &&
    (ScoresChange(z, args, n - 1, env) ||
     var before := SetScores(z, args, n - 1, env);
     args[2 * n + 1] !in before || before[args[2 * n + 1]] != env.score(args[2 * n]).value)
  }

  function Listed(args: Record): set<Bytes>
    requires |args| >= 2
  {
    set a | a in args[2..]
  }

  function Mutate(v: Option<Value>, args: Record, env: Env): Effect
    requires Pairs(args) || Names(args)
  {
    var n := PairCount(args);
    if NameIs(args[0], HSET) then
      if v.Some? && !v.value.Hash? then Reject
      else
        var h := if v.Some? then v.value.fields else map[];
        if FieldsChange(h, args, n) then Write(Hash(SetFields(h, args, n))) else Keep
    else if NameIs(args[0], ZADD) then
      if !ScoresReadable(args, n, env) || (v.Some? && !v.value.Zset?) then Reject
      else
        var z := if v.Some? then v.value.scores else map[];
        if ScoresChange(z, args, n, env) then Write(Zset(SetScores(z, args, n, env))) else Keep
    else if v.None? then Keep
    else if NameIs(args[0], HDEL) then
      if !v.value.Hash? then Reject
      else
        var left := v.value.fields - Listed(args);
        if left == v.value.fields then Keep else if left == map[] then Erase else Write(Hash(left))
    else
      if !v.value.Zset? then Reject
      else
        var left := v.value.scores - Listed(args);
        if left == v.value.scores then Keep else if left == map[] then Erase else Write(Zset(left))
  }

  // ------------------------------------------------------------------ commands

  datatype Command =
    | Set(key: Bytes, value: Bytes, ttl: nat)     // 0: no expiry
    | Del(key: Bytes)
    | Expire(key: Bytes, ttl: nat)                // 0: a duration that is not positive
    | Persist(key: Bytes)
    | Change(args: Record)                        // HSET, HDEL, ZADD or ZREM as received
    | Read(key: Bytes)                            // any command that only looks a key up
    | Tick(removed: seq<Bytes>)                   // active expiry, with the keys that it removes

  /** The state after a command and the records that it appended. */
  datatype Result = Result(state: State, records: seq<Record>)

  function SetRecord(k: Bytes, v: Bytes, deadline: nat): Record {
    if deadline == 0 then [SET, k, v] else [SET, k, v, PXAT, Decimal(deadline)]
  }

  /** How many keys are over the limit. */
  function Need(s: State, env: Env): nat {
    if env.maxKeys != 0 && |s.index| > env.maxKeys then |s.index| - env.maxKeys else 0
  }

  /** How many entries give way to k. */
  ghost function Room(t: State, k: Bytes, env: Env): nat { C.Fewest(t, k, LimitsOf(env)) }

  /** An object stored: evictions are logged first, then the command's own record. */
  ghost function StoreValue(s: State, k: Bytes, v: Value, deadline: nat, charge: nat, now: nat, own: Record,
      env: Env): Result {
    var t := C.Put(s, k, EntryOf(v, charge), deadline, Lru(env));
    Result(C.Evicted(t, k, Room(t, k, env)), DelRecords(C.Reported(t, k, Room(t, k, env), now)) + [own])
  }

  /** The deadline a time to live stands for; 0 is none. */
  function After(ttl: nat, now: nat): nat { if ttl == 0 then 0 else now + ttl }

  ghost function Execute(s: State, c: Command, now: nat, charge: nat, env: Env): Result {
    match c
    case Set(k, v, ttl) =>
      if (ttl > 0 && now + ttl > SIZE_MAX) || !C.Accepts(LimitsOf(env), charge) then Result(s, [])
      else
        StoreValue(C.Looked(s, k, now), k, Str(v), After(ttl, now), charge, now, SetRecord(k, v, After(ttl, now)), env)
    case Del(k) =>
      var s1 := C.Looked(s, k, now);
      if k in s1.index then Result(C.RemoveKey(s1, k), [[DEL, k]]) else Result(s1, [])
    case Expire(k, ttl) =>
      if ttl > 0 && now + ttl > SIZE_MAX then Result(s, [])
      else
        var s1 := C.Looked(s, k, now);
        if k !in s1.index then Result(s1, [])
        else if ttl == 0 then Result(C.RemoveKey(s1, k), [[DEL, k]])
        else Result(s1.(d := s1.d[k := now + ttl]), [[PEXPIREAT, k, Decimal(now + ttl)]])
    case Persist(k) =>
      var s1 := C.Looked(s, k, now);
      if k in s1.index && k in s1.d then Result(s1.(d := s1.d - {k}), [[PERSIST, k]]) else Result(s1, [])
    case Change(args) => if Pairs(args) || Names(args) then ExecuteChange(s, args, now, charge, env) else Result(s, [])
    case Read(k) => Result(C.Used(C.Looked(s, k, now), k, Lru(env)), [])
    case Tick(removed) => Result(C.RemoveAll(s, removed), [])
  }

  predicate UnreadableScores(args: Record, env: Env)
    requires Pairs(args) || Names(args)
  {
    NameIs(args[0], ZADD) && Pairs(args) && !ScoresReadable(args, PairCount(args), env)
  }

  ghost function ExecuteChange(s: State, args: Record, now: nat, charge: nat, env: Env): Result
    requires Pairs(args) || Names(args)
  {
    var k := args[1];
    if UnreadableScores(args, env) then Result(s, [])
    else
      var s1 := C.Used(C.Looked(s, k, now), k, Lru(env));
      Apply(s1, k, Mutate(ValueAt(s1, k), args, env), now, charge, args, env)
  }

  /** The object is changed where it is, not in a copy: what is removed, and a single pair without a memory limit. */
  predicate InPlace(s: State, k: Bytes, args: Record, env: Env) {
    k in s.index && (!Pairs(args) || (PairCount(args) == 1 && env.maxMemory == 0))
  }

  /** The time at which evictions count as expired; a change in place reads none for a key without deadline. */
  function StoreTime(s: State, k: Bytes, args: Record, now: nat, env: Env): nat {
    if InPlace(s, k, args, env) && C.DeadlineOf(s, k) == 0 then 0 else now
  }

  /**
    A removed object takes its key with it; a written one keeps the deadline of
    its key.  A charge that is refused leaves no record, and if the object was
    changed where it is, the change stays.
   */
  ghost function Apply(s: State, k: Bytes, effect: Effect, now: nat, charge: nat, args: Record, env: Env): Result {
    match effect
    case Reject => Result(s, [])
    case Keep => Result(s, [])
    case Erase => Result(C.RemoveKey(s, k), [args])
    case Write(v) =>
      if C.Accepts(LimitsOf(env), charge)
      then StoreValue(s, k, v, C.DeadlineOf(s, k), charge, StoreTime(s, k, args, now, env), args, env)
      else Result(if InPlace(s, k, args, env) then s.(index := s.index[k := s.index[k].(value := v)]) else s, [])
  }

  // -------------------------------------------------------------------- replay

  /** A record's effect, or None where the replay gives up. */
  ghost function Replay(s: State, r: Record, clock: nat, charge: nat, env: Env): Option<State> {
    if |r| == 0 then None
    else if NameIs(r[0], PING) && |r| <= 2 then Some(s)
    else if NameIs(r[0], SET) then
      if |r| != 3 && |r| != 5 then None
      else
        var deadline := if |r| == 5 then (if NameIs(r[3], PXAT) then ParseNumber(r[4]) else None) else Some(0);
        if deadline.None? || (|r| == 5 && deadline.value == 0) then None
        else if deadline.value != 0 && deadline.value <= clock
            then Some(Execute(s, Del(r[1]), clock, charge, env).state)
        else if !C.Accepts(LimitsOf(env), charge) then None
        else Some(StoreValue(C.Looked(s, r[1], clock), r[1], Str(r[2]), deadline.value, charge, clock, r, env).state)
    else if NameIs(r[0], DEL) && |r| == 2 then Some(Execute(s, Del(r[1]), clock, charge, env).state)
    else if NameIs(r[0], PERSIST) && |r| == 2 then Some(Execute(s, Persist(r[1]), clock, charge, env).state)
    else if NameIs(r[0], PEXPIREAT) && |r| == 3 then
      match ParseNumber(r[2])
      case None => None
      case Some(deadline) =>
        if deadline == 0 then None
        else if deadline <= clock then Some(Execute(s, Del(r[1]), clock, charge, env).state)
        else
          var s1 := C.Looked(s, r[1], clock);
          Some(if r[1] in s1.index then s1.(d := s1.d[r[1] := deadline]) else s1)
    else if Pairs(r) || Names(r) then
      var s1 := C.Used(C.Looked(s, r[1], clock), r[1], Lru(env));
      var effect := Mutate(ValueAt(s1, r[1]), r, env);
      if UnreadableScores(r, env) || effect.Reject? || (effect.Write? && !C.Accepts(LimitsOf(env), charge)) then None
      else Some(ExecuteChange(s, r, clock, charge, env).state)
    else None
  }

  ghost function ReplayAll(s: State, records: seq<Record>, clock: nat, charge: nat, env: Env): Option<State>
    decreases |records|
  {
    if records == [] then Some(s)
    else
      match Replay(s, records[0], clock, charge, env)
      case None => None
      case Some(s') => ReplayAll(s', records[1..], clock, charge, env)
  }

  // ------------------------------------------------------------ what is compared

  /** Keys with their objects and deadlines: what a client can see of the cache. */
  datatype Contents = Contents(values: map<Bytes, Value>, deadlines: map<Bytes, nat>)

  function View(s: State): Contents { Contents(Values(s.index), s.d) }

  function Values(index: C.Index<Value>): map<Bytes, Value> { map k | k in index :: index[k].value }

  function Without(c: Contents, k: Bytes): Contents { Contents(c.values - {k}, c.deadlines - {k}) }

  function With(c: Contents, k: Bytes, v: Value, deadline: nat): Contents {
    Contents(c.values[k := v], C.WithDeadline(c.deadlines, k, deadline))
  }

  /** Memory is not limited, the structures agree and the key limit is kept. */
  ghost predicate Ok(s: State, env: Env) { env.maxMemory == 0 && C.Joint(s, Lru(env)) && Need(s, env) == 0 }

  /** A charge that the cache does not refuse. */
  predicate Fits(charge: nat, env: Env) { C.Accepts(LimitsOf(env), charge) }

  /** No deadline of the state has passed. */
  ghost predicate Early(s: State, clock: nat) { forall k :: k in s.d ==> clock < s.d[k] }

  lemma ViewRemove(s: State, k: Bytes)
    ensures View(C.RemoveKey(s, k)) == Without(View(s), k)
  {
  }

  lemma ViewPut(s: State, k: Bytes, v: Value, deadline: nat, charge: nat, lru: bool)
    ensures View(C.Put(s, k, EntryOf(v, charge), deadline, lru)) == With(View(s), k, v, deadline)
  {
    ValuesPut(s.index, k, EntryOf(v, charge));
  }

  lemma ValuesPut(index: C.Index<Value>, k: Bytes, e: C.Entry<Value>)
    ensures Values(index[k := e]) == Values(index)[k := e.value]
  {
  }

  lemma ViewUsed(s: State, k: Bytes, lru: bool)
    ensures View(C.Used(s, k, lru)) == View(s)
  {
  }

  lemma ViewSize(s: State)
    ensures |View(s).values| == |s.index| && View(s).values.Keys == s.index.Keys
  {
    assert View(s).values.Keys == s.index.Keys;
    assert |View(s).values.Keys| == |View(s).values| && |s.index.Keys| == |s.index|;
  }

  /** Two states with the same contents hold the same number of keys. */
  lemma SameNeed(a: State, b: State, env: Env)
    requires View(a) == View(b)
    ensures Need(a, env) == Need(b, env) && forall k :: k in a.index <==> k in b.index
  {
    ViewSize(a);
    ViewSize(b);
    assert forall k :: k in a.index <==> k in View(a).values;
    assert forall k :: k in b.index <==> k in View(b).values;
  }

  lemma SameValue(a: State, b: State, k: Bytes)
    requires View(a) == View(b)
    ensures ValueAt(a, k) == ValueAt(b, k) && C.DeadlineOf(a, k) == C.DeadlineOf(b, k)
  {
    assert k in a.index <==> k in View(a).values;
    assert k in b.index <==> k in View(b).values;
    if k in a.index { assert View(a).values[k] == a.index[k].value && View(b).values[k] == b.index[k].value; }
  }

  /** Before every deadline a lookup changes nothing. */
  lemma EarlyLooks(s: State, k: Bytes, clock: nat)
    requires Early(s, clock)
    ensures C.Looked(s, k, clock) == s
  {
  }

  // ---------------------------------------------------------------- evictions

  /** Only the number of keys counts, so that exactly the excess is evicted. */
  lemma NeedIsShortest(t: State, p: Bytes, env: Env)
    requires C.Joint(t, Lru(env)) && p in t.index && env.maxMemory == 0
    ensures C.Shortest(t, p, Need(t, env), LimitsOf(env))
  {
    if Lru(env) {
      CandidateCount(t, p);
      forall i: nat | i <= |C.Candidates(t, p)| ensures |C.Evicted(t, p, i).index| == |t.index| - i {
        EvictedSize(t, p, i);
      }
      assert forall i :: 0 <= i < Need(t, env) ==> C.Over(t, p, i, LimitsOf(env));
    }
  }

  lemma RoomIsNeed(t: State, p: Bytes, env: Env)
    requires C.Joint(t, Lru(env)) && p in t.index && env.maxMemory == 0
    ensures Room(t, p, env) == Need(t, env)
  {
    NeedIsShortest(t, p, env);
    C.FewestIs(t, p, Need(t, env), LimitsOf(env));
  }

  /** A store into a cache that limits the number of keys only. */
  lemma StoreIs(s: State, k: Bytes, v: Value, deadline: nat, charge: nat, now: nat, own: Record, env: Env)
    requires C.Joint(s, Lru(env)) && env.maxMemory == 0
    ensures var t := C.Put(s, k, EntryOf(v, charge), deadline, Lru(env));
      StoreValue(s, k, v, deadline, charge, now, own, env)
      == Result(C.Evicted(t, k, Need(t, env)), DelRecords(C.Reported(t, k, Need(t, env), now)) + [own])
  {
    C.PutKeepsJoint(s, k, EntryOf(v, charge), deadline, Lru(env));
    RoomIsNeed(C.Put(s, k, EntryOf(v, charge), deadline, Lru(env)), k, env);
  }

  lemma CandidateCount(t: State, p: Bytes)
    requires C.Joint(t, true) && p in t.index
    ensures |C.Candidates(t, p)| == |t.index| - 1
  {
    C.LruList.WithoutKeys(t.order, p);
    KeysOf(t.order, t.index.Keys);
    assert |t.index.Keys| == |t.index|;
  }

  lemma {:induction false} KeysOf(order: seq<Bytes>, keys: set<Bytes>)
    requires C.LruList.Distinct(order) && forall k :: k in order <==> k in keys
    ensures |keys| == |order|
    decreases |order|
  {
    if order == [] {
      assert keys == {};
    } else {
      var k := order[0];
      assert forall x :: x in order[1..] <==> x in keys - {k} by {
        assert order == [k] + order[1..];
        assert forall i :: 1 <= i < |order| ==> order[i] != k;
      }
      KeysOf(order[1..], keys - {k});
    }
  }

  lemma EvictedSize(t: State, p: Bytes, i: nat)
    requires C.Joint(t, true) && i <= |C.Candidates(t, p)|
    ensures |C.Evicted(t, p, i).index| == |t.index| - i
  {
    var step := C.Evictor<Value>(p);
    forall n: nat | n < i && Smaller(t, n, C.Repeated(step, t, n))
        ensures Smaller(t, n + 1, step(C.Repeated(step, t, n))) {
      var at := C.EvictedState(t, p, n, true);
      EvictOneSize(at, p);
    }
    C.RepeatedKeeps(step, t, i, (n: nat, x: State) => Smaller(t, n, x));
  }

  /** x has n keys less. */
  ghost predicate Smaller(t: State, n: nat, x: State) { |x.index| + n == |t.index| }

  lemma EvictOneSize(s: State, p: Bytes)
    requires C.Joint(s, true) && C.Candidates(s, p) != []
    ensures |C.EvictOne(s, p).index| == |s.index| - 1
  {
    C.OneEvicted(s, p, true);
    OneKeyLess(s.index, C.Victim(s, p));
  }

  // ------------------------------------------------------- one step of the replay

  /** One more key needs at most one eviction. */
  lemma NeedAtMostOne(s: State, k: Bytes, e: C.Entry<Value>, deadline: nat, env: Env)
    requires Need(s, env) == 0
    ensures var t := C.Put(s, k, e, deadline, Lru(env)); Need(t, env) <= 1 && (k in s.index ==> Need(t, env) == 0)
  {
    var m := s.index[k := e];
    if k in s.index {
      assert m.Keys == s.index.Keys;
    } else {
      assert m.Keys == s.index.Keys + {k};
    }
    assert |m.Keys| == |m| && |s.index.Keys| == |s.index|;
  }

  function Removed(r: State, k: Bytes): State { if k in r.index then C.RemoveKey(r, k) else r }

  lemma AbsentWithout(c: Contents, k: Bytes)
    requires k !in c.values && k !in c.deadlines
    ensures Without(c, k) == c
  {
  }

  lemma RemovedView(r: State, k: Bytes, lru: bool)
    requires C.Joint(r, lru)
    ensures View(Removed(r, k)) == Without(View(r), k)
  {
    if k in r.index { ViewRemove(r, k); } else { AbsentWithout(View(r), k); }
  }

  lemma RemovedIs(r: State, k: Bytes, clock: nat, env: Env)
    requires Ok(r, env) && Early(r, clock)
    ensures Ok(Removed(r, k), env) && Early(Removed(r, k), clock)
  {
    C.RemoveKeepsJoint(r, k, Lru(env));
    if k in r.index { OneKeyLess(r.index, k); }
  }

  /** A DEL record removes its key and nothing else. */
  lemma ReplayDel(r: State, k: Bytes, clock: nat, charge: nat, env: Env)
    requires Early(r, clock)
    ensures Replay(r, [DEL, k], clock, charge, env) == Some(Removed(r, k))
  {
    EarlyLooks(r, k, clock);
    DelIsDel(k);
  }

  lemma DelIsDel(k: Bytes)
    ensures NameIs([DEL, k][0], DEL) && !NameIs(DEL, PING) && !NameIs(DEL, SET)
  {
    assert Upper(DEL[0]) != SET[0];
  }

  /** The live side of a store and the state of the replay after the eviction records. */
  ghost predicate ReadyFor(t: State, k: Bytes, v: Value, deadline: nat, n: nat, r: State, clock: nat, env: Env) {
    Ok(r, env) && Early(r, clock) && With(View(r), k, v, deadline) == View(C.Evicted(t, k, n))
  }

  lemma WithoutWith(c: Contents, k: Bytes, v: Value, deadline: nat, w: Bytes)
    requires w != k
    ensures Without(With(c, k, v, deadline), w) == With(Without(c, w), k, v, deadline)
  {
  }

  /** Replaying the evictions of a store makes the same room. */
  lemma ReplayEvictions(s: State, k: Bytes, v: Value, deadline: nat, charge: nat, now: nat,
                        r: State, clock: nat, charge': nat, env: Env) returns (r': State)
    requires Ok(s, env) && Ok(r, env) && Early(r, clock) &&
        With(View(s), k, v, deadline) == With(View(r), k, v, deadline)
    requires var t := C.Put(s, k, EntryOf(v, charge), deadline, Lru(env));
        |C.Reported(t, k, Need(t, env), now)| == Need(t, env)
    ensures var t := C.Put(s, k, EntryOf(v, charge), deadline, Lru(env));
      && ReplayAll(r, DelRecords(C.Reported(t, k, Need(t, env), now)), clock, charge', env) == Some(r')
      && ReadyFor(t, k, v, deadline, Need(t, env), r', clock, env)
    ensures ValueAt(r', k) == ValueAt(r, k) && C.DeadlineOf(r', k) == C.DeadlineOf(r, k)
  {
    var e := EntryOf(v, charge);
    var t := C.Put(s, k, e, deadline, Lru(env));
    NeedAtMostOne(s, k, e, deadline, env);
    ViewPut(s, k, v, deadline, charge, Lru(env));
    if Need(t, env) == 0 {
      r' := r;
    } else {
      C.PutKeepsJoint(s, k, e, deadline, Lru(env));
      CandidateCount(t, k);
      r' := ReplayOneEviction(t, k, v, deadline, Need(t, env), now, r, clock, charge', env);
    }
  }

  /** Replaying the DEL of the only entry that gave way. */
  lemma ReplayOneEviction(t: State, k: Bytes, v: Value, deadline: nat, n: nat, now: nat,
                          r: State, clock: nat, charge': nat, env: Env) returns (r': State)
    requires C.Joint(t, true) && Lru(env) && C.Candidates(t, k) != [] && n == 1 && |C.Reported(t, k, n, now)| == n
    requires Ok(r, env) && Early(r, clock) && View(t) == With(View(r), k, v, deadline)
    ensures ReplayAll(r, DelRecords(C.Reported(t, k, n, now)), clock, charge', env) == Some(r')
    ensures ReadyFor(t, k, v, deadline, n, r', clock, env)
    ensures ValueAt(r', k) == ValueAt(r, k) && C.DeadlineOf(r', k) == C.DeadlineOf(r, k)
  {
    var w := C.Victim(t, k);
    C.OneEvicted(t, k, true);
    OneReported(t, k, n, now);
    ReplayDel(r, w, clock, charge', env);
    ReplayOne(r, [DEL, w], clock, charge', env);
    RemovedIs(r, w, clock, env);
    RemovedView(r, w, Lru(env));
    r' := Removed(r, w);
    ViewRemove(t, w);
    WithoutWith(View(r), k, v, deadline, w);
  }

  lemma OneReported(t: State, k: Bytes, n: nat, now: nat)
    requires C.Candidates(t, k) != [] && n == 1 && |C.Reported(t, k, n, now)| == n
    ensures DelRecords(C.Reported(t, k, n, now)) == [[DEL, C.Victim(t, k)]] &&
        C.Evicted(t, k, n) == C.RemoveKey(t, C.Victim(t, k))
  {
    assert C.Evicted(t, k, 0) == t;
    assert C.Reported(t, k, 0, now) == [];
    assert C.Reported(t, k, 1, now) == [C.Victim(t, k)];
    assert [C.Victim(t, k)][1..] == [];
  }

  lemma ReplayOne(r: State, record: Record, clock: nat, charge: nat, env: Env)
    ensures ReplayAll(r, [record], clock, charge, env) == Replay(r, record, clock, charge, env)
  {
    assert [record][1..] == [];
  }

  /** After the evictions the limit is kept on the live side. */
  lemma StoredIsOk(s: State, k: Bytes, v: Value, deadline: nat, charge: nat, env: Env)
    requires Ok(s, env)
    ensures var t := C.Put(s, k, EntryOf(v, charge), deadline, Lru(env)); Ok(C.Evicted(t, k, Need(t, env)), env)
  {
    var t := C.Put(s, k, EntryOf(v, charge), deadline, Lru(env));
    C.PutKeepsJoint(s, k, EntryOf(v, charge), deadline, Lru(env));
    NeedIsShortest(t, k, env);
    C.EvictedCandidates(t, k, Need(t, env), Lru(env));
  }

  /** With room made, the replayed store needs no eviction and gives the live contents. */
  lemma StoreFits(t: State, k: Bytes, v: Value, deadline: nat, n: nat, r: State, clock: nat, own: Record,
      charge: nat, env: Env)
    requires ReadyFor(t, k, v, deadline, n, r, clock, env) && Ok(C.Evicted(t, k, n), env) &&
        (deadline == 0 || clock < deadline)
    ensures var r' := StoreValue(r, k, v, deadline, charge, clock, own, env).state;
      View(r') == View(C.Evicted(t, k, n)) && Ok(r', env) && Early(r', clock)
  {
    var p := C.Put(r, k, EntryOf(v, charge), deadline, Lru(env));
    StoreIs(r, k, v, deadline, charge, clock, own, env);
    ViewPut(r, k, v, deadline, charge, Lru(env));
    SameNeed(p, C.Evicted(t, k, n), env);
    C.PutKeepsJoint(r, k, EntryOf(v, charge), deadline, Lru(env));
  }

  lemma ReplaySet(r: State, k: Bytes, v: Bytes, deadline: nat, clock: nat, charge: nat, env: Env)
    requires Early(r, clock) && (deadline == 0 || clock < deadline <= SIZE_MAX) && Fits(charge, env)
    ensures Replay(r, SetRecord(k, v, deadline), clock, charge, env)
            == Some(StoreValue(r, k, Str(v), deadline, charge, clock, SetRecord(k, v, deadline), env).state)
  {
    EarlyLooks(r, k, clock);
    SetIsSet();
    if deadline != 0 { ParseDecimal(deadline); }
  }

  lemma SetIsSet()
    ensures NameIs(SET, SET) && !NameIs(SET, PING) && NameIs(PXAT, PXAT)
  {
  }

  /** The names that are replayed by executing them again. */
  lemma ChangeNames(args: Record)
    requires Pairs(args) || Names(args)
    ensures !NameIs(args[0], PING) && !NameIs(args[0], SET) && !NameIs(args[0], DEL) && !NameIs(args[0], PERSIST) &&
        !NameIs(args[0], PEXPIREAT)
  {
    var name := args[0];
    if NameIs(name, HSET) { assert Upper(name[0]) == HSET[0]; }
    if NameIs(name, HDEL) { assert Upper(name[0]) == HDEL[0]; }
    if NameIs(name, ZADD) { assert Upper(name[0]) == ZADD[0]; }
    if NameIs(name, ZREM) { assert Upper(name[0]) == ZREM[0]; }
    if NameIs(name, PING) { FirstIs(name, PING); }
  }

  lemma FirstIs(a: Bytes, name: Bytes)
    requires NameIs(a, name) && name != []
    ensures a != [] && Upper(a[0]) == name[0]
  {
  }

  /** A change that writes or erases does the same on a state with the same object. */
  lemma ReplayChange(r: State, args: Record, clock: nat, charge: nat, env: Env)
    requires Early(r, clock) && (Pairs(args) || Names(args)) && !UnreadableScores(args, env)
    requires !Mutate(ValueAt(r, args[1]), args, env).Reject?
    requires Mutate(ValueAt(r, args[1]), args, env).Write? ==> Fits(charge, env)
    ensures Replay(r, args, clock, charge, env)
            == Some(Apply(C.Used(r, args[1], Lru(env)), args[1], Mutate(ValueAt(r, args[1]), args, env), clock,
                charge, args, env).state)
  {
    EarlyLooks(r, args[1], clock);
    ChangeNames(args);
  }

  lemma {:induction false} ReplayThen(r: State, a: seq<Record>, b: seq<Record>, clock: nat, charge: nat, env: Env)
    requires ReplayAll(r, a, clock, charge, env).Some?
    ensures ReplayAll(r, a + b, clock, charge, env) ==
        ReplayAll(ReplayAll(r, a, clock, charge, env).value, b, clock, charge, env)
    decreases |a|
  {
    if a == [] {
      assert a + b == b;
    } else {
      assert (a + b)[1..] == a[1..] + b;
      ReplayThen(Replay(r, a[0], clock, charge, env).value, a[1..], b, clock, charge, env);
    }
  }

  // ------------------------------------------------------- every command mirrored

  /** The records of a result, replayed from r, give the contents of the result. */
  ghost predicate Mirrors(result: Result, r: State, clock: nat, charge: nat, env: Env) {
    var o := ReplayAll(r, result.records, clock, charge, env);
    o.Some? && View(o.value) == View(result.state) && Ok(result.state, env) && Ok(o.value, env) && Early(o.value, clock)
  }

  /** The records give the contents that the result has. */
  ghost predicate Agrees(result: Result, r: State, clock: nat, charge: nat, env: Env) {
    var o := ReplayAll(r, result.records, clock, charge, env);
    o.Some? && View(o.value) == View(result.state)
  }

  lemma NothingMirrors(s: State, r: State, clock: nat, charge: nat, env: Env)
    requires Ok(s, env) && Ok(r, env) && Early(r, clock) && View(s) == View(r)
    ensures Mirrors(Result(s, []), r, clock, charge, env)
  {
  }

  /** A record whose replay from r gives r' mirrors a state with the contents of r'. */
  lemma OneMirrors(s: State, record: Record, r: State, r': State, clock: nat, charge: nat, env: Env)
    requires Replay(r, record, clock, charge, env) == Some(r') && View(s) == View(r') && Ok(s, env) && Ok(r', env) &&
        Early(r', clock)
    ensures Mirrors(Result(s, [record]), r, clock, charge, env)
  {
    ReplayOne(r, record, clock, charge, env);
  }

  /** A store is mirrored, provided that its own record replays as the same store. */
  lemma StoreMirrors(s: State, k: Bytes, v: Value, deadline: nat, charge: nat, now: nat, own: Record,
                     r: State, r1: State, clock: nat, charge': nat, env: Env)
    requires Ok(s, env) && (deadline == 0 || clock < deadline)
    requires var t := C.Put(s, k, EntryOf(v, charge), deadline, Lru(env));
      && ReplayAll(r, DelRecords(C.Reported(t, k, Need(t, env), now)), clock, charge', env) == Some(r1)
      && ReadyFor(t, k, v, deadline, Need(t, env), r1, clock, env)
    requires Replay(r1, own, clock, charge', env) ==
        Some(StoreValue(r1, k, v, deadline, charge', clock, own, env).state)
    ensures Mirrors(StoreValue(s, k, v, deadline, charge, now, own, env), r, clock, charge', env)
  {
    var t := C.Put(s, k, EntryOf(v, charge), deadline, Lru(env));
    var dels := DelRecords(C.Reported(t, k, Need(t, env), now));
    StoreIs(s, k, v, deadline, charge, now, own, env);
    StoredIsOk(s, k, v, deadline, charge, env);
    StoreFits(t, k, v, deadline, Need(t, env), r1, clock, own, charge', env);
    ReplayThen(r, dels, [own], clock, charge', env);
    ReplayOne(r1, own, clock, charge', env);
  }

  /** What a store would evict has not expired, so that every eviction is logged. */
  ghost predicate EvictionsLogged(s: State, k: Bytes, v: Value, deadline: nat, charge: nat, now: nat, env: Env) {
    var t := C.Put(s, k, EntryOf(v, charge), deadline, Lru(env)); |C.Reported(t, k, Need(t, env), now)| == Need(t, env)
  }

  /** The key other than k that gives way next, if there is one. */
  function NextOut(s: State, k: Bytes): Option<Bytes> {
    if C.Candidates(s, k) == [] then None else Some(C.Victim(s, k))
  }

  /** Every eviction is logged, or the replay evicts the same key by itself. */
  ghost predicate EvictionsRepeat(s: State, k: Bytes, v: Value, deadline: nat, charge: nat, now: nat, r: State,
      env: Env) {
    EvictionsLogged(s, k, v, deadline, charge, now, env) || NextOut(s, k) == NextOut(r, k)
  }

  /** A store of a new key into a full cache: one entry gives way, and is logged unless it has expired. */
  lemma FullStore(s: State, k: Bytes, v: Value, deadline: nat, charge: nat, now: nat, own: Record, env: Env)
      returns (t: State, w: Bytes)
    requires Ok(s, env) && Need(C.Put(s, k, EntryOf(v, charge), deadline, Lru(env)), env) > 0
    ensures t == C.Put(s, k, EntryOf(v, charge), deadline, Lru(env)) && NextOut(s, k) == Some(w) && w in t.index
    ensures StoreValue(s, k, v, deadline, charge, now, own, env)
            == Result(C.RemoveKey(t, w), DelRecords(if C.Expired(t, w, now) then [] else [w]) + [own])
    ensures Ok(C.RemoveKey(t, w), env)
    ensures EvictionsLogged(s, k, v, deadline, charge, now, env) <==> !C.Expired(t, w, now)
  {
    t, w := OutFor(s, k, EntryOf(v, charge), deadline, env);
    OneOut(t, k, now);
    StoreIs(s, k, v, deadline, charge, now, own, env);
    StoredIsOk(s, k, v, deadline, charge, env);
  }

  /** Who gives way to a new key. */
  lemma OutFor(s: State, k: Bytes, e: C.Entry<Value>, deadline: nat, env: Env) returns (t: State, w: Bytes)
    requires Ok(s, env) && Need(C.Put(s, k, e, deadline, Lru(env)), env) > 0
    ensures t == C.Put(s, k, e, deadline, Lru(env)) && Need(t, env) == 1
    ensures C.Candidates(t, k) != [] && w == C.Victim(t, k) && NextOut(s, k) == Some(w) && w in t.index
  {
    t := C.Put(s, k, e, deadline, Lru(env));
    NeedAtMostOne(s, k, e, deadline, env);
    C.PutKeepsJoint(s, k, e, deadline, Lru(env));
    CandidateCount(t, k);
    C.OneEvicted(t, k, true);
    C.PutCandidates(s, k, e, deadline, Lru(env));
    w := C.Victim(t, k);
  }

  lemma OneOut(t: State, k: Bytes, now: nat)
    requires C.Candidates(t, k) != []
    ensures var w := C.Victim(t, k);
      && C.Evicted(t, k, 1) == C.RemoveKey(t, w)
      && C.Reported(t, k, 1, now) == if C.Expired(t, w, now) then [] else [w]
  {
    assert C.Evicted(t, k, 0) == t && C.Reported(t, k, 0, now) == [];
  }

  /** An eviction without a record is repeated exactly when both sides have the same key next in line. */
  lemma UnloggedRepeats(s: State, k: Bytes, v: Value, deadline: nat, charge: nat, now: nat, own: Record,
                        r: State, clock: nat, charge': nat, env: Env)
    requires Ok(s, env) && Ok(r, env) && Early(r, clock) && (deadline == 0 || clock < deadline)
    requires With(View(s), k, v, deadline) == With(View(r), k, v, deadline)
    requires !EvictionsLogged(s, k, v, deadline, charge, now, env)
    requires Replay(r, own, clock, charge', env) == Some(StoreValue(r, k, v, deadline, charge', clock, own, env).state)
    ensures var result := StoreValue(s, k, v, deadline, charge, now, own, env);
      if NextOut(s, k) == NextOut(r, k) then Mirrors(result, r, clock, charge', env)
      else !Agrees(result, r, clock, charge', env)
  {
    var t, w := UnloggedStore(s, k, v, deadline, charge, now, own, env);
    ViewPut(s, k, v, deadline, charge, Lru(env));
    var t', w' := RepeatedStore(t, r, k, v, deadline, charge', clock, own, env);
    OutAgrees(t, w, t', w', own, r, clock, charge', env);
  }

  /** The entry that gives way unlogged. */
  lemma UnloggedStore(s: State, k: Bytes, v: Value, deadline: nat, charge: nat, now: nat, own: Record, env: Env)
      returns (t: State, w: Bytes)
    requires Ok(s, env) && !EvictionsLogged(s, k, v, deadline, charge, now, env)
    ensures t == C.Put(s, k, EntryOf(v, charge), deadline, Lru(env)) && NextOut(s, k) == Some(w) && w in t.index
    ensures StoreValue(s, k, v, deadline, charge, now, own, env) == Result(C.RemoveKey(t, w), [own])
    ensures Ok(C.RemoveKey(t, w), env) && Need(t, env) > 0
  {
    t, w := FullStore(s, k, v, deadline, charge, now, own, env);
    assert DelRecords([]) + [own] == [own];
  }

  /** The same store on the side of the replay, which is full as well. */
  lemma RepeatedStore(t: State, r: State, k: Bytes, v: Value, deadline: nat, charge: nat, clock: nat, own: Record,
      env: Env) returns (t': State, w: Bytes)
    requires Need(t, env) > 0 && View(t) == With(View(r), k, v, deadline)
    requires Ok(r, env) && Early(r, clock) && (deadline == 0 || clock < deadline)
    ensures View(t') == View(t) && NextOut(r, k) == Some(w) && w in t'.index
    ensures StoreValue(r, k, v, deadline, charge, clock, own, env).state == C.RemoveKey(t', w)
    ensures Ok(C.RemoveKey(t', w), env) && Early(C.RemoveKey(t', w), clock)
  {
    ViewPut(r, k, v, deadline, charge, Lru(env));
    SameNeed(t, C.Put(r, k, EntryOf(v, charge), deadline, Lru(env)), env);
    t', w := FullStore(r, k, v, deadline, charge, clock, own, env);
  }

  /** Two states of the same contents, one with w taken out and recorded as own, one with w' taken out by its replay. */
  lemma OutAgrees(t: State, w: Bytes, t': State, w': Bytes, own: Record, r: State, clock: nat, charge: nat, env: Env)
    requires View(t) == View(t') && w in t.index && w' in t'.index
    requires Replay(r, own, clock, charge, env) == Some(C.RemoveKey(t', w'))
    ensures Agrees(Result(C.RemoveKey(t, w), [own]), r, clock, charge, env) <==> w == w'
    ensures ReplayAll(r, [own], clock, charge, env) == Some(C.RemoveKey(t', w'))
  {
    ReplayOne(r, own, clock, charge, env);
    ViewRemove(t, w);
    ViewRemove(t', w');
    assert w in View(t).values && w' in View(t').values;
    WithoutDiffers(View(t), w, w');
  }

  /** Different keys taken out leave different contents. */
  lemma WithoutDiffers(c: Contents, w: Bytes, w': Bytes)
    requires w in c.values && w' in c.values
    ensures Without(c, w) == Without(c, w') <==> w == w'
  {
    if w != w' { assert w in Without(c, w').values && w !in Without(c, w).values; }
  }

  lemma LookedIsOk(s: State, k: Bytes, now: nat, env: Env)
    requires Ok(s, env)
    ensures Ok(C.Looked(s, k, now), env)
  {
    if k in s.index && C.Expired(s, k, now) {
      C.RemoveKeepsJoint(s, k, Lru(env));
      OneKeyLess(s.index, k);
    }
  }

  lemma WithTwice(c: Contents, k: Bytes, v: Value, deadline: nat)
    ensures With(Without(c, k), k, v, deadline) == With(c, k, v, deadline)
  {
  }

  /** Writing a key does not care whether its old object was forgotten before. */
  lemma LookedWith(s: State, k: Bytes, v: Value, deadline: nat, now: nat)
    ensures With(View(C.Looked(s, k, now)), k, v, deadline) == With(View(s), k, v, deadline)
  {
    ViewRemove(s, k);
    WithTwice(View(s), k, v, deadline);
  }

  /** SET on a state that has been looked at. */
  lemma PutMirrors(s: State, k: Bytes, v: Bytes, deadline: nat, now: nat, charge: nat, r: State, clock: nat,
      charge': nat, env: Env)
    requires Ok(s, env) && Ok(r, env) && Early(r, clock) &&
        With(View(s), k, Str(v), deadline) == With(View(r), k, Str(v), deadline)
    requires (deadline == 0 || clock < deadline <= SIZE_MAX) && Fits(charge', env)
    requires EvictionsLogged(s, k, Str(v), deadline, charge, now, env)
    ensures Mirrors(StoreValue(s, k, Str(v), deadline, charge, now, SetRecord(k, v, deadline), env), r, clock,
        charge', env)
  {
    var r1 := ReplayEvictions(s, k, Str(v), deadline, charge, now, r, clock, charge', env);
    ReplaySet(r1, k, v, deadline, clock, charge', env);
    StoreMirrors(s, k, Str(v), deadline, charge, now, SetRecord(k, v, deadline), r, r1, clock, charge', env);
  }

  lemma SetMirrors(s: State, k: Bytes, v: Bytes, ttl: nat, now: nat, charge: nat, r: State, clock: nat, charge': nat,
      env: Env)
    requires Ok(s, env) && Ok(r, env) && Early(r, clock) && View(s) == View(r) && now + ttl <= SIZE_MAX
    requires (ttl == 0 || clock < now + ttl) && Fits(charge, env) && Fits(charge', env)
    requires EvictionsRepeat(C.Looked(s, k, now), k, Str(v), After(ttl, now), charge, now, r, env)
    ensures Mirrors(Execute(s, Set(k, v, ttl), now, charge, env), r, clock, charge', env)
  {
    var deadline := After(ttl, now);
    var s1 := C.Looked(s, k, now);
    LookedIsOk(s, k, now, env);
    LookedWith(s, k, Str(v), deadline, now);
    if EvictionsLogged(s1, k, Str(v), deadline, charge, now, env) {
      PutMirrors(s1, k, v, deadline, now, charge, r, clock, charge', env);
    } else {
      ReplaySet(r, k, v, deadline, clock, charge', env);
      UnloggedRepeats(s1, k, Str(v), deadline, charge, now, SetRecord(k, v, deadline), r, clock, charge', env);
    }
  }

  lemma NotExpiredLooks(s: State, k: Bytes, now: nat)
    requires !C.Expired(s, k, now)
    ensures C.Looked(s, k, now) == s
  {
  }

  lemma RemoveMirrors(s: State, k: Bytes, record: Record, r: State, clock: nat, charge: nat, env: Env)
    requires Ok(s, env) && Ok(r, env) && Early(r, clock) && View(s) == View(r) && k in s.index
    requires Replay(r, record, clock, charge, env) == Some(Removed(r, k))
    ensures Mirrors(Result(C.RemoveKey(s, k), [record]), r, clock, charge, env)
  {
    RemovedIs(r, k, clock, env);
    RemovedView(r, k, Lru(env));
    RemovedView(s, k, Lru(env));
    C.RemoveKeepsJoint(s, k, Lru(env));
    OneKeyLess(s.index, k);
    OneMirrors(C.RemoveKey(s, k), record, r, Removed(r, k), clock, charge, env);
  }

  lemma DelMirrors(s: State, k: Bytes, now: nat, r: State, clock: nat, charge: nat, charge': nat, env: Env)
    requires Ok(s, env) && Ok(r, env) && Early(r, clock) && View(s) == View(r) && !C.Expired(s, k, now)
    ensures Mirrors(Execute(s, Del(k), now, charge, env), r, clock, charge', env)
  {
    NotExpiredLooks(s, k, now);
    if k in s.index {
      ReplayDel(r, k, clock, charge', env);
      RemoveMirrors(s, k, [DEL, k], r, clock, charge', env);
    } else {
      NothingMirrors(s, r, clock, charge', env);
    }
  }

  /** A new deadline on both sides. */
  lemma DeadlineMirrors(s: State, k: Bytes, deadline: nat, record: Record, r: State, clock: nat, charge: nat, env: Env)
    requires Ok(s, env) && Ok(r, env) && Early(r, clock) && View(s) == View(r) && k in s.index && clock < deadline
    requires Replay(r, record, clock, charge, env) == Some(r.(d := r.d[k := deadline]))
    ensures Mirrors(Result(s.(d := s.d[k := deadline]), [record]), r, clock, charge, env)
  {
    SameNeed(s, r, env);
    OneMirrors(s.(d := s.d[k := deadline]), record, r, r.(d := r.d[k := deadline]), clock, charge, env);
  }

  lemma ReplayExpire(r: State, k: Bytes, deadline: nat, clock: nat, charge: nat, env: Env)
    requires Early(r, clock) && clock < deadline <= SIZE_MAX && k in r.index
    ensures Replay(r, [PEXPIREAT, k, Decimal(deadline)], clock, charge, env) == Some(r.(d := r.d[k := deadline]))
  {
    EarlyLooks(r, k, clock);
    ParseDecimal(deadline);
    ExpireIsExpire();
  }

  lemma ExpireIsExpire()
    ensures NameIs(PEXPIREAT, PEXPIREAT) && !NameIs(PEXPIREAT, PING) && !NameIs(PEXPIREAT, SET) &&
        !NameIs(PEXPIREAT, DEL)
    ensures NameIs(PERSIST, PERSIST) && !NameIs(PERSIST, PING) && !NameIs(PERSIST, SET) && !NameIs(PERSIST, DEL) &&
        !NameIs(PEXPIREAT, PERSIST)
  {
  }

  lemma ExpireMirrors(s: State, k: Bytes, ttl: nat, now: nat, r: State, clock: nat, charge: nat, charge': nat, env: Env)
    requires Ok(s, env) && Ok(r, env) && Early(r, clock) && View(s) == View(r) && !C.Expired(s, k, now)
    requires now + ttl <= SIZE_MAX && (ttl == 0 || clock < now + ttl)
    ensures Mirrors(Execute(s, Expire(k, ttl), now, charge, env), r, clock, charge', env)
  {
    NotExpiredLooks(s, k, now);
    SameNeed(s, r, env);
    if k !in s.index {
      NothingMirrors(s, r, clock, charge', env);
    } else if ttl == 0 {
      ReplayDel(r, k, clock, charge', env);
      RemoveMirrors(s, k, [DEL, k], r, clock, charge', env);
    } else {
      ReplayExpire(r, k, now + ttl, clock, charge', env);
      DeadlineMirrors(s, k, now + ttl, [PEXPIREAT, k, Decimal(now + ttl)], r, clock, charge', env);
    }
  }

  lemma ReplayPersist(r: State, k: Bytes, clock: nat, charge: nat, env: Env)
    requires Early(r, clock) && k in r.index && k in r.d
    ensures Replay(r, [PERSIST, k], clock, charge, env) == Some(r.(d := r.d - {k}))
  {
    EarlyLooks(r, k, clock);
    ExpireIsExpire();
  }

  lemma PersistMirrors(s: State, k: Bytes, now: nat, r: State, clock: nat, charge: nat, charge': nat, env: Env)
    requires Ok(s, env) && Ok(r, env) && Early(r, clock) && View(s) == View(r) && !C.Expired(s, k, now)
    ensures Mirrors(Execute(s, Persist(k), now, charge, env), r, clock, charge', env)
  {
    NotExpiredLooks(s, k, now);
    SameNeed(s, r, env);
    if k in s.index && k in s.d {
      ReplayPersist(r, k, clock, charge', env);
      OneMirrors(s.(d := s.d - {k}), [PERSIST, k], r, r.(d := r.d - {k}), clock, charge', env);
    } else {
      NothingMirrors(s, r, clock, charge', env);
    }
  }

  lemma UsedIsOk(s: State, k: Bytes, env: Env)
    requires Ok(s, env)
    ensures Ok(C.Used(s, k, Lru(env)), env) && View(C.Used(s, k, Lru(env))) == View(s)
    ensures C.Used(s, k, Lru(env)).index == s.index && C.Used(s, k, Lru(env)).d == s.d
  {
    if k in s.index { C.TouchKeepsJoint(s, k, Lru(env)); }
    ViewUsed(s, k, Lru(env));
  }

  lemma ReadMirrors(s: State, k: Bytes, now: nat, r: State, clock: nat, charge: nat, charge': nat, env: Env)
    requires Ok(s, env) && Ok(r, env) && Early(r, clock) && View(s) == View(r) && !C.Expired(s, k, now)
    ensures Mirrors(Execute(s, Read(k), now, charge, env), r, clock, charge', env)
  {
    NotExpiredLooks(s, k, now);
    UsedIsOk(s, k, env);
    NothingMirrors(C.Used(s, k, Lru(env)), r, clock, charge', env);
  }

  /** Touching a key that is then written or removed makes no difference. */
  lemma TouchedTwice(s: State, k: Bytes, e: C.Entry<Value>, deadline: nat, lru: bool)
    requires C.Joint(s, lru)
    ensures C.Put(C.Used(s, k, lru), k, e, deadline, lru) == C.Put(s, k, e, deadline, lru)
    ensures C.RemoveKey(C.Used(s, k, lru), k) == C.RemoveKey(s, k)
  {
    assert lru ==> ([k] + C.LruList.Without(s.order, k))[1..] == C.LruList.Without(s.order, k);
  }

  lemma ReplayErase(r: State, args: Record, clock: nat, charge: nat, env: Env)
    requires Ok(r, env) && Early(r, clock) && (Pairs(args) || Names(args)) && !UnreadableScores(args, env)
    requires Mutate(ValueAt(r, args[1]), args, env).Erase?
    ensures args[1] in r.index && Replay(r, args, clock, charge, env) == Some(Removed(r, args[1]))
  {
    EraseHas(ValueAt(r, args[1]), args, env);
    ReplayChange(r, args, clock, charge, env);
    ApplyErase(r, args[1], clock, charge, args, env);
  }

  lemma EraseHas(v: Option<Value>, args: Record, env: Env)
    requires (Pairs(args) || Names(args)) && Mutate(v, args, env).Erase?
    ensures v.Some?
  {
  }

  lemma ApplyErase(s: State, k: Bytes, now: nat, charge: nat, own: Record, env: Env)
    requires Ok(s, env) && k in s.index
    ensures Apply(C.Used(s, k, Lru(env)), k, Erase, now, charge, own, env) == Result(Removed(s, k), [own])
  {
    TouchedTwice(s, k, EntryOf(Str([]), 0), 0, Lru(env));
  }

  lemma ApplyWrite(s: State, k: Bytes, v: Value, now: nat, charge: nat, own: Record, env: Env)
    requires Ok(s, env) && Fits(charge, env)
    ensures Apply(C.Used(s, k, Lru(env)), k, Write(v), now, charge, own, env)
            == StoreValue(s, k, v, C.DeadlineOf(s, k), charge, now, own, env)
  {
    var d := C.DeadlineOf(s, k);
    UsedIsOk(s, k, env);
    StoreTouched(s, k, v, d, charge, StoreTime(C.Used(s, k, Lru(env)), k, own, now, env), own, env);
    AnyTime(s, k, v, d, charge, now, own, env);
  }

  lemma StoreTouched(s: State, k: Bytes, v: Value, d: nat, charge: nat, now: nat, own: Record, env: Env)
    requires Ok(s, env)
    ensures StoreValue(C.Used(s, k, Lru(env)), k, v, d, charge, now, own, env)
            == StoreValue(s, k, v, d, charge, now, own, env)
  {
    TouchedTwice(s, k, EntryOf(v, charge), d, Lru(env));
  }

  /** A key that is there makes room for itself, so that the time does not matter. */
  lemma AnyTime(s: State, k: Bytes, v: Value, deadline: nat, charge: nat, now: nat, own: Record, env: Env)
    requires Ok(s, env)
    ensures k in s.index ==>
      StoreValue(s, k, v, deadline, charge, now, own, env) == StoreValue(s, k, v, deadline, charge, 0, own, env)
  {
    StoreIs(s, k, v, deadline, charge, now, own, env);
    StoreIs(s, k, v, deadline, charge, 0, own, env);
    NeedAtMostOne(s, k, EntryOf(v, charge), deadline, env);
  }

  lemma ChangeErases(s: State, args: Record, now: nat, r: State, clock: nat, charge: nat, env: Env)
    requires Ok(s, env) && Ok(r, env) && Early(r, clock) && View(s) == View(r) && (Pairs(args) || Names(args))
    requires !UnreadableScores(args, env) && Mutate(ValueAt(s, args[1]), args, env).Erase?
    ensures Mirrors(Result(C.RemoveKey(s, args[1]), [args]), r, clock, charge, env)
  {
    SameValue(s, r, args[1]);
    ReplayErase(r, args, clock, charge, env);
    RemoveMirrors(s, args[1], args, r, clock, charge, env);
  }

  /** A change that writes, replayed on a state with the same object for the key. */
  lemma ReplayWrite(r: State, args: Record, v: Value, clock: nat, charge: nat, env: Env)
    requires Ok(r, env) && Early(r, clock) && (Pairs(args) || Names(args)) && !UnreadableScores(args, env)
    requires Mutate(ValueAt(r, args[1]), args, env) == Write(v) && Fits(charge, env)
    ensures Replay(r, args, clock, charge, env)
            == Some(StoreValue(r, args[1], v, C.DeadlineOf(r, args[1]), charge, clock, args, env).state)
  {
    ReplayChange(r, args, clock, charge, env);
    ApplyWrite(r, args[1], v, clock, charge, args, env);
  }

  /** A write that evicts without a record, given that its own record replays as the same write. */
  lemma ChangeUnlogged(s: State, args: Record, v: Value, now: nat, charge: nat, r: State, clock: nat, charge': nat,
      env: Env)
    requires Ok(s, env) && Ok(r, env) && Early(r, clock) && View(s) == View(r) && (Pairs(args) || Names(args))
    requires !UnreadableScores(args, env) && Mutate(ValueAt(s, args[1]), args, env) == Write(v) && Fits(charge', env)
    requires !EvictionsLogged(s, args[1], v, C.DeadlineOf(s, args[1]), charge, now, env)
    ensures var result := StoreValue(s, args[1], v, C.DeadlineOf(s, args[1]), charge, now, args, env);
      if NextOut(s, args[1]) == NextOut(r, args[1]) then Mirrors(result, r, clock, charge', env)
      else !Agrees(result, r, clock, charge', env)
  {
    var k := args[1];
    SameValue(s, r, k);
    ReplayWrite(r, args, v, clock, charge', env);
    UnloggedRepeats(s, k, v, C.DeadlineOf(s, k), charge, now, args, r, clock, charge', env);
  }

  lemma ChangeWrites(s: State, args: Record, v: Value, now: nat, charge: nat, r: State, clock: nat, charge': nat,
      env: Env)
    requires Ok(s, env) && Ok(r, env) && Early(r, clock) && View(s) == View(r) && (Pairs(args) || Names(args))
    requires !UnreadableScores(args, env) && Mutate(ValueAt(s, args[1]), args, env) == Write(v)
    requires EvictionsLogged(s, args[1], v, C.DeadlineOf(s, args[1]), charge, now, env) && Fits(charge', env)
    ensures Mirrors(StoreValue(s, args[1], v, C.DeadlineOf(s, args[1]), charge, now, args, env), r, clock, charge', env)
  {
    var k := args[1];
    var deadline := C.DeadlineOf(s, k);
    SameValue(s, r, k);
    var r1 := ReplayEvictions(s, k, v, deadline, charge, now, r, clock, charge', env);
    ReplayWrite(r1, args, v, clock, charge', env);
    StoreMirrors(s, k, v, deadline, charge, now, args, r, r1, clock, charge', env);
  }

  lemma ChangeMirrors(s: State, args: Record, now: nat, charge: nat, r: State, clock: nat, charge': nat, env: Env)
    requires Ok(s, env) && Ok(r, env) && Early(r, clock) && View(s) == View(r) && (Pairs(args) || Names(args))
    requires (!UnreadableScores(args, env) ==> !C.Expired(s, args[1], now)) && Fits(charge, env) && Fits(charge', env)
    requires !UnreadableScores(args, env) && Mutate(ValueAt(s, args[1]), args, env).Write? ==>
      EvictionsRepeat(s, args[1], Mutate(ValueAt(s, args[1]), args, env).value, C.DeadlineOf(s, args[1]), charge,
          now, r, env)
    ensures Mirrors(ExecuteChange(s, args, now, charge, env), r, clock, charge', env)
  {
    var k := args[1];
    if UnreadableScores(args, env) {
      NothingMirrors(s, r, clock, charge', env);
    } else {
      NotExpiredLooks(s, k, now);
      UsedIsOk(s, k, env);
      match Mutate(ValueAt(s, k), args, env)
      case Reject => NothingMirrors(C.Used(s, k, Lru(env)), r, clock, charge', env);
      case Keep => NothingMirrors(C.Used(s, k, Lru(env)), r, clock, charge', env);
      case Erase =>
        EraseHas(ValueAt(s, k), args, env);
        ApplyErase(s, k, now, charge, args, env);
        ChangeErases(s, args, now, r, clock, charge', env);
      case Write(v) =>
        ApplyWrite(s, k, v, now, charge, args, env);
        if EvictionsLogged(s, k, v, C.DeadlineOf(s, k), charge, now, env) {
          ChangeWrites(s, args, v, now, charge, r, clock, charge', env);
        } else {
          ChangeUnlogged(s, args, v, now, charge, r, clock, charge', env);
        }
    }
  }

  // ------------------------------------------------------------------ whole runs

  /**
    The command forgets no entry silently: its key has not expired (a SET may
    overwrite an expired one), nor has what it evicts, and active expiry found
    nothing.
   */
  ghost predicate NoSilentDrop(s: State, c: Command, now: nat, charge: nat, env: Env) {
    match c
    case Set(k, v, ttl) =>
      (ttl > 0 && now + ttl > SIZE_MAX) ||
      EvictionsLogged(C.Looked(s, k, now), k, Str(v), After(ttl, now), charge, now, env)
    case Expire(k, ttl) => (ttl > 0 && now + ttl > SIZE_MAX) || !C.Expired(s, k, now)
    case Del(k) => !C.Expired(s, k, now)
    case Persist(k) => !C.Expired(s, k, now)
    case Read(k) => !C.Expired(s, k, now)
    case Change(args) =>
      (Pairs(args) || Names(args)) && !UnreadableScores(args, env) ==>
        && !C.Expired(s, args[1], now)
        && var effect := Mutate(ValueAt(s, args[1]), args, env);
           effect.Write? ==> EvictionsLogged(s, args[1], effect.value, C.DeadlineOf(s, args[1]), charge, now, env)
    case Tick(removed) => removed == []
  }

  /**
    The replay repeats the command: nothing is forgotten silently, but for an
    expired entry that gives way to a new key and gives way in the replay too.
   */
  ghost predicate Repeatable(s: State, c: Command, now: nat, charge: nat, r: State, env: Env) {
    match c
    case Set(k, v, ttl) =>
      (ttl > 0 && now + ttl > SIZE_MAX) ||
      EvictionsRepeat(C.Looked(s, k, now), k, Str(v), After(ttl, now), charge, now, r, env)
    case Change(args) =>
      (Pairs(args) || Names(args)) && !UnreadableScores(args, env) ==>
        && !C.Expired(s, args[1], now)
        && var effect := Mutate(ValueAt(s, args[1]), args, env);
           effect.Write? ==> EvictionsRepeat(s, args[1], effect.value, C.DeadlineOf(s, args[1]), charge, now, r, env)
    case _ => NoSilentDrop(s, c, now, charge, env)
  }

  /** What is not forgotten silently is repeated, and without a key limit nothing else is. */
  lemma RepeatableIs(s: State, c: Command, now: nat, charge: nat, r: State, env: Env)
    ensures NoSilentDrop(s, c, now, charge, env) ==> Repeatable(s, c, now, charge, r, env)
    ensures env.maxKeys == 0 ==> (Repeatable(s, c, now, charge, r, env) <==> NoSilentDrop(s, c, now, charge, env))
  {
  }

  /** The deadline that a command records, or 0. */
  function Recorded(c: Command, now: nat): nat {
    match c
    case Set(_, _, ttl) => if ttl == 0 || now + ttl > SIZE_MAX then 0 else now + ttl
    case Expire(_, ttl) => if ttl == 0 || now + ttl > SIZE_MAX then 0 else now + ttl
    case _ => 0
  }

  lemma SetCommand(s: State, c: Command, now: nat, charge: nat, r: State, clock: nat, charge': nat, env: Env)
    requires Ok(s, env) && Ok(r, env) && Early(r, clock) && View(s) == View(r) && now <= SIZE_MAX
    requires Repeatable(s, c, now, charge, r, env) && (Recorded(c, now) == 0 || clock < Recorded(c, now))
    requires Fits(charge, env) && Fits(charge', env)
    requires c.Set?
    ensures Mirrors(Execute(s, c, now, charge, env), r, clock, charge', env)
  {
    if c.ttl > 0 && now + c.ttl > SIZE_MAX {
      NothingMirrors(s, r, clock, charge', env);
    } else {
      SetMirrors(s, c.key, c.value, c.ttl, now, charge, r, clock, charge', env);
    }
  }

  lemma ExpireCommand(s: State, c: Command, now: nat, charge: nat, r: State, clock: nat, charge': nat, env: Env)
    requires Ok(s, env) && Ok(r, env) && Early(r, clock) && View(s) == View(r) && now <= SIZE_MAX
    requires Repeatable(s, c, now, charge, r, env) && (Recorded(c, now) == 0 || clock < Recorded(c, now))
    requires Fits(charge, env) && Fits(charge', env)
    requires c.Expire?
    ensures Mirrors(Execute(s, c, now, charge, env), r, clock, charge', env)
  {
    if c.ttl > 0 && now + c.ttl > SIZE_MAX {
      NothingMirrors(s, r, clock, charge', env);
    } else {
      ExpireMirrors(s, c.key, c.ttl, now, r, clock, charge, charge', env);
    }
  }

  lemma ChangeCommand(s: State, c: Command, now: nat, charge: nat, r: State, clock: nat, charge': nat, env: Env)
    requires Ok(s, env) && Ok(r, env) && Early(r, clock) && View(s) == View(r) && now <= SIZE_MAX
    requires Repeatable(s, c, now, charge, r, env) && (Recorded(c, now) == 0 || clock < Recorded(c, now))
    requires Fits(charge, env) && Fits(charge', env)
    requires c.Change?
    ensures Mirrors(Execute(s, c, now, charge, env), r, clock, charge', env)
  {
    if Pairs(c.args) || Names(c.args) {
      ChangeMirrors(s, c.args, now, charge, r, clock, charge', env);
    } else {
      NothingMirrors(s, r, clock, charge', env);
    }
  }

  /** One command that the replay repeats is mirrored by its records. */
  lemma CommandMirrors(s: State, c: Command, now: nat, charge: nat, r: State, clock: nat, charge': nat, env: Env)
    requires Ok(s, env) && Ok(r, env) && Early(r, clock) && View(s) == View(r) && now <= SIZE_MAX
    requires Repeatable(s, c, now, charge, r, env) && (Recorded(c, now) == 0 || clock < Recorded(c, now))
    requires Fits(charge, env) && Fits(charge', env)
    ensures Mirrors(Execute(s, c, now, charge, env), r, clock, charge', env)
  {
    if c.Set? { SetCommand(s, c, now, charge, r, clock, charge', env); }
    else if c.Expire? { ExpireCommand(s, c, now, charge, r, clock, charge', env); }
    else if c.Change? { ChangeCommand(s, c, now, charge, r, clock, charge', env); }
    else if c.Del? { DelMirrors(s, c.key, now, r, clock, charge, charge', env); }
    else if c.Persist? { PersistMirrors(s, c.key, now, r, clock, charge, charge', env); }
    else if c.Read? { ReadMirrors(s, c.key, now, r, clock, charge, charge', env); }
    else { NothingMirrors(s, r, clock, charge', env); }
  }

  /** A command, the time at which it runs and the memory charged for what it stores. */
  datatype Event = Event(command: Command, now: nat, charge: nat)

  ghost function Run(s: State, events: seq<Event>, env: Env): Result
    decreases |events|
  {
    if events == [] then Result(s, [])
    else
      var first := Execute(s, events[0].command, events[0].now, events[0].charge, env);
      var rest := Run(first.state, events[1..], env);
      Result(rest.state, first.records + rest.records)
  }

  /** What the replay asks of one event. */
  ghost predicate FaithfulEvent(s: State, e: Event, clock: nat, env: Env) {
    && e.now <= SIZE_MAX && Fits(e.charge, env) && NoSilentDrop(s, e.command, e.now, e.charge, env)
    && (Recorded(e.command, e.now) == 0 || clock < Recorded(e.command, e.now))
  }

  /** No event drops an entry silently, and every recorded deadline is after the replay's clock. */
  ghost predicate Faithful(s: State, events: seq<Event>, clock: nat, env: Env)
    decreases |events|
  {
    events != [] ==>
      && FaithfulEvent(s, events[0], clock, env)
      && Faithful(Execute(s, events[0].command, events[0].now, events[0].charge, env).state, events[1..], clock, env)
  }

  /**
    Wherever no event drops an entry silently: from states with the same
    contents, replaying the records of the run gives the contents that it left,
    whatever the two recency orders and charges are.
   */
  lemma {:induction false} FaithfulMirrors(s: State, events: seq<Event>, r: State, clock: nat, charge: nat, env: Env)
    requires Ok(s, env) && Ok(r, env) && Early(r, clock) && View(s) == View(r) && Faithful(s, events, clock, env) &&
        Fits(charge, env)
    ensures Mirrors(Run(s, events, env), r, clock, charge, env)
    decreases |events|
  {
    if events == [] {
      NothingMirrors(s, r, clock, charge, env);
    } else {
      var e := events[0];
      var first := Execute(s, e.command, e.now, e.charge, env);
      RepeatableIs(s, e.command, e.now, e.charge, r, env);
      CommandMirrors(s, e.command, e.now, e.charge, r, clock, charge, env);
      var r1 := ReplayAll(r, first.records, clock, charge, env).value;
      FaithfulMirrors(first.state, events[1..], r1, clock, charge, env);
      ReplayThen(r, first.records, Run(first.state, events[1..], env).records, clock, charge, env);
    }
  }

  // ------------------------------------------------------- clocks that do not go back

  /** Active expiry removes keys whose deadline has passed. */
  ghost predicate OnlyExpired(s: State, c: Command, now: nat) {
    c.Tick? ==> forall i :: 0 <= i < |c.removed| ==> C.Expired(s, c.removed[i], now)
  }

  /** The event is not after the replay, and the replay is before the deadline that the event records. */
  ghost predicate TimelyEvent(s: State, e: Event, clock: nat, env: Env) {
    && e.now <= clock && Fits(e.charge, env) && OnlyExpired(s, e.command, e.now)
    && (Recorded(e.command, e.now) == 0 || clock < Recorded(e.command, e.now))
  }

  ghost predicate Timely(s: State, events: seq<Event>, clock: nat, env: Env)
    decreases |events|
  {
    events != [] ==>
      && TimelyEvent(s, events[0], clock, env)
      && Timely(Execute(s, events[0].command, events[0].now, events[0].charge, env).state, events[1..], clock, env)
  }

  /** What gives way to k has not expired. */
  lemma EvictsTheLiving(s: State, k: Bytes, v: Value, deadline: nat, charge: nat, now: nat, clock: nat, env: Env)
    requires Ok(s, env) && Early(s, clock) && now <= clock
    ensures EvictionsLogged(s, k, v, deadline, charge, now, env)
  {
    var e := EntryOf(v, charge);
    var t := C.Put(s, k, e, deadline, Lru(env));
    NeedAtMostOne(s, k, e, deadline, env);
    if Need(t, env) == 1 {
      C.PutKeepsJoint(s, k, e, deadline, Lru(env));
      CandidateCount(t, k);
      C.OneEvicted(t, k, true);
      assert C.Evicted(t, k, 0) == t && C.Reported(t, k, 0, now) == [];
      assert C.Reported(t, k, 1, now) == [C.Victim(t, k)];
    }
  }

  lemma FirstExpired(s: State, keys: seq<Bytes>, now: nat)
    requires forall i :: 0 <= i < |keys| ==> C.Expired(s, keys[i], now)
    ensures keys != [] ==> exists k :: k in s.d && s.d[k] <= now
  {
    if keys != [] { assert C.Expired(s, keys[0], now); }
  }

  /** Before every deadline nothing is dropped silently. */
  lemma NothingDrops(s: State, e: Event, clock: nat, env: Env)
    requires Ok(s, env) && Early(s, clock) && clock <= SIZE_MAX && TimelyEvent(s, e, clock, env)
    ensures FaithfulEvent(s, e, clock, env)
  {
    match e.command
    case Set(k, v, ttl) =>
      EarlyLooks(s, k, e.now);
      EvictsTheLiving(s, k, Str(v), After(ttl, e.now), e.charge, e.now, clock, env);
    case Change(args) =>
      if (Pairs(args) || Names(args)) && Mutate(ValueAt(s, args[1]), args, env).Write? {
        var v := Mutate(ValueAt(s, args[1]), args, env).value;
        EvictsTheLiving(s, args[1], v, C.DeadlineOf(s, args[1]), e.charge, e.now, clock, env);
      }
    case Tick(removed) =>
      FirstExpired(s, removed, e.now);
    case _ =>
  }

  /** A run that the clock never overtakes drops nothing silently. */
  lemma {:induction false} TimelyIsFaithful(s: State, events: seq<Event>, clock: nat, env: Env)
    requires Ok(s, env) && Early(s, clock) && clock <= SIZE_MAX && Timely(s, events, clock, env)
    ensures Faithful(s, events, clock, env)
    decreases |events|
  {
    if events != [] {
      var e := events[0];
      var next := Execute(s, e.command, e.now, e.charge, env).state;
      NothingDrops(s, e, clock, env);
      RepeatableIs(s, e.command, e.now, e.charge, s, env);
      CommandMirrors(s, e.command, e.now, e.charge, s, clock, e.charge, env);
      assert Early(next, clock);
      TimelyIsFaithful(next, events[1..], clock, env);
    }
  }

  /**
    Replay equals live: when the replay's clock is not before any event and still
    before every recorded deadline, replaying the records of any run, from
    states with the same contents, gives the contents that the run left,
    whatever the two recency orders and charges are.
   */
  lemma ReplayEqualsLive(s: State, events: seq<Event>, r: State, clock: nat, charge: nat, env: Env)
    requires Ok(s, env) && Ok(r, env) && Early(r, clock) && View(s) == View(r) && Fits(charge, env)
    requires clock <= SIZE_MAX && Timely(s, events, clock, env)
    ensures Mirrors(Run(s, events, env), r, clock, charge, env)
  {
    TimelyIsFaithful(s, events, clock, env);
    FaithfulMirrors(s, events, r, clock, charge, env);
  }

  // --------------------------------------------------- when a step is not mirrored

  /** A lookup of an expired key forgets its deadline. */
  lemma LookedForgets(s: State, k: Bytes, now: nat, lru: bool)
    requires C.Joint(s, lru) && C.Expired(s, k, now)
    ensures k !in C.Looked(s, k, now).d && k !in C.Looked(s, k, now).index
  {
  }

  /** Replaying nothing keeps the deadline that the live side has lost. */
  lemma LostDeadline(result: Result, k: Bytes, r: State, clock: nat, charge: nat, env: Env)
    requires result.records == [] && k in r.d && k !in result.state.d
    ensures !Agrees(result, r, clock, charge, env)
  {
  }

  lemma {:induction false} RemoveAllForgets(s: State, keys: seq<Bytes>, i: nat)
    requires i < |keys|
    ensures keys[i] !in C.RemoveAll(s, keys).d
    decreases |keys|
  {
    if i < |keys| - 1 { RemoveAllForgets(s, keys[..|keys| - 1], i); }
  }

  /** A collection command on an expired key: the new object has no deadline, the replayed one keeps it. */
  lemma ChangeForgets(s: State, args: Record, now: nat, charge: nat, r: State, clock: nat, charge': nat, env: Env)
    requires Ok(s, env) && Ok(r, env) && Early(r, clock) && View(s) == View(r) && (Pairs(args) || Names(args))
    requires !UnreadableScores(args, env) && C.Expired(s, args[1], now) && Fits(charge, env) && Fits(charge', env)
    ensures !Agrees(ExecuteChange(s, args, now, charge, env), r, clock, charge', env)
  {
    var k := args[1];
    LookedForgets(s, k, now, Lru(env));
    LookedIsOk(s, k, now, env);
    OwnRoom(s, k, now, env);
    var s1 := C.Looked(s, k, now);
    assert k in r.d && C.Used(s1, k, Lru(env)) == s1 && ValueAt(s1, k) == None;
    var effect := Mutate(None, args, env);
    NothingToErase(args, env);
    if effect.Write? {
      WriteForgets(s1, args, effect.value, now, charge, r, clock, charge', env);
    } else {
      LostDeadline(Result(s1, []), k, r, clock, charge', env);
    }
  }

  lemma NothingToErase(args: Record, env: Env)
    requires Pairs(args) || Names(args)
    ensures !Mutate(None, args, env).Erase?
  {
  }

  /** A new object without a deadline, whose record meets the old one with its deadline. */
  lemma WriteForgets(s: State, args: Record, v: Value, now: nat, charge: nat, r: State, clock: nat, charge': nat,
      env: Env)
    requires Ok(s, env) && (env.maxKeys == 0 || |s.index| < env.maxKeys) && (Pairs(args) || Names(args))
    requires Ok(r, env) && Early(r, clock) && args[1] !in s.index && args[1] in r.d
    requires !UnreadableScores(args, env) && Mutate(None, args, env) == Write(v) && Fits(charge, env) &&
        Fits(charge', env)
    ensures !Agrees(Apply(s, args[1], Write(v), now, charge, args, env), r, clock, charge', env)
  {
    var k := args[1];
    FreshStore(s, k, v, charge, now, args, env);
    ReplayOne(r, args, clock, charge', env);
    NotErased(ValueAt(r, k), args, env);
    if !Mutate(ValueAt(r, k), args, env).Reject? {
      KeepsDeadline(r, args, clock, charge', env);
    } else {
      ChangeNames(args);
      EarlyLooks(r, k, clock);
    }
  }

  /** What makes an object where there is none erases none. */
  lemma NotErased(v: Option<Value>, args: Record, env: Env)
    requires (Pairs(args) || Names(args)) && Mutate(None, args, env).Write?
    ensures !Mutate(v, args, env).Erase?
  {
  }

  /** An expired key that is removed makes room for itself. */
  lemma OwnRoom(s: State, k: Bytes, now: nat, env: Env)
    requires Ok(s, env) && C.Expired(s, k, now)
    ensures env.maxKeys == 0 || |C.Looked(s, k, now).index| < env.maxKeys
  {
    OneKeyLess(s.index, k);
  }

  /** A key that was not there is stored without deadline, and without evictions where there is room. */
  lemma FreshStore(s: State, k: Bytes, v: Value, charge: nat, now: nat, args: Record, env: Env)
    requires Ok(s, env) && (env.maxKeys == 0 || |s.index| < env.maxKeys) && k !in s.index && Fits(charge, env)
    ensures var result := Apply(s, k, Write(v), now, charge, args, env);
        result.records == [args] && k !in result.state.d
  {
    StoreIs(s, k, v, 0, charge, now, args, env);
    var t := C.Put(s, k, EntryOf(v, charge), 0, Lru(env));
    assert |t.index| == |s.index| + 1;
    assert C.Reported(t, k, 0, now) == [] && C.Evicted(t, k, 0) == t && [] + [args] == [args];
  }

  /** HSET and ZADD keep the deadline of an object that is there. */
  lemma KeepsDeadline(r: State, args: Record, clock: nat, charge: nat, env: Env)
    requires Ok(r, env) && Early(r, clock) && (Pairs(args) || Names(args)) && !UnreadableScores(args, env)
    requires Fits(charge, env) && args[1] in r.d && !Mutate(ValueAt(r, args[1]), args, env).Reject? &&
        !Mutate(ValueAt(r, args[1]), args, env).Erase?
    ensures Replay(r, args, clock, charge, env).Some? && args[1] in Replay(r, args, clock, charge, env).value.d
  {
    var k := args[1];
    ReplayChange(r, args, clock, charge, env);
    UsedIsOk(r, k, env);
    var effect := Mutate(ValueAt(r, k), args, env);
    if effect.Write? {
      ApplyWrite(r, k, effect.value, clock, charge, args, env);
      StoreIs(r, k, effect.value, C.DeadlineOf(r, k), charge, clock, args, env);
      NeedAtMostOne(r, k, EntryOf(effect.value, charge), C.DeadlineOf(r, k), env);
    }
  }

  /** SET evicts an expired entry without a record, and the replay evicts another one. */
  lemma SetShows(s: State, k: Bytes, v: Bytes, ttl: nat, now: nat, charge: nat, r: State, clock: nat, charge': nat,
      env: Env)
    requires Ok(s, env) && Ok(r, env) && Early(r, clock) && View(s) == View(r) && now <= SIZE_MAX
    requires (ttl == 0 || clock < now + ttl <= SIZE_MAX) && Fits(charge, env) && Fits(charge', env)
    requires !EvictionsRepeat(C.Looked(s, k, now), k, Str(v), After(ttl, now), charge, now, r, env)
    ensures !Agrees(Execute(s, Set(k, v, ttl), now, charge, env), r, clock, charge', env)
  {
    var deadline := After(ttl, now);
    LookedIsOk(s, k, now, env);
    LookedWith(s, k, Str(v), deadline, now);
    ReplaySet(r, k, v, deadline, clock, charge', env);
    UnloggedRepeats(C.Looked(s, k, now), k, Str(v), deadline, charge, now, SetRecord(k, v, deadline), r, clock, charge',
        env);
  }

  /** A collection command that is not repeated: its key has expired, or it evicts another entry than the replay. */
  lemma ChangeShows(s: State, args: Record, now: nat, charge: nat, r: State, clock: nat, charge': nat, env: Env)
    requires Ok(s, env) && Ok(r, env) && Early(r, clock) && View(s) == View(r) && (Pairs(args) || Names(args))
    requires Fits(charge, env) && Fits(charge', env) && !Repeatable(s, Change(args), now, charge, r, env)
    ensures !Agrees(ExecuteChange(s, args, now, charge, env), r, clock, charge', env)
  {
    var k := args[1];
    if C.Expired(s, k, now) {
      ChangeForgets(s, args, now, charge, r, clock, charge', env);
    } else {
      var v := Mutate(ValueAt(s, k), args, env).value;
      NotExpiredLooks(s, k, now);
      UsedIsOk(s, k, env);
      ApplyWrite(s, k, v, now, charge, args, env);
      ChangeUnlogged(s, args, v, now, charge, r, clock, charge', env);
    }
  }

  lemma DropShows(s: State, c: Command, now: nat, charge: nat, r: State, clock: nat, charge': nat, env: Env)
    requires Ok(s, env) && Ok(r, env) && Early(r, clock) && View(s) == View(r) && OnlyExpired(s, c, now)
    requires Fits(charge, env) && Fits(charge', env) && now <= SIZE_MAX &&
        (Recorded(c, now) == 0 || clock < Recorded(c, now))
    requires !Repeatable(s, c, now, charge, r, env)
    ensures !Agrees(Execute(s, c, now, charge, env), r, clock, charge', env)
  {
    match c
    case Set(k, v, ttl) => SetShows(s, k, v, ttl, now, charge, r, clock, charge', env);
    case Change(args) => ChangeShows(s, args, now, charge, r, clock, charge', env);
    case Tick(removed) =>
      RemoveAllForgets(s, removed, 0);
      LostDeadline(Execute(s, c, now, charge, env), removed[0], r, clock, charge', env);
    case _ => LookupShows(s, c, now, charge, r, clock, charge', env);
  }

  /** A command that only finds its key expired. */
  lemma LookupShows(s: State, c: Command, now: nat, charge: nat, r: State, clock: nat, charge': nat, env: Env)
    requires C.Joint(s, Lru(env)) && View(s) == View(r) && (c.Del? || c.Expire? || c.Persist? || c.Read?)
    requires !NoSilentDrop(s, c, now, charge, env)
    ensures !Agrees(Execute(s, c, now, charge, env), r, clock, charge', env)
  {
    LookedForgets(s, c.key, now, Lru(env));
    LostDeadline(Execute(s, c, now, charge, env), c.key, r, clock, charge', env);
  }

  /** A command's records give its contents exactly when the replay repeats what it drops. */
  lemma ExactlyFaithful(s: State, c: Command, now: nat, charge: nat, r: State, clock: nat, charge': nat, env: Env)
    requires Ok(s, env) && Ok(r, env) && Early(r, clock) && View(s) == View(r) && OnlyExpired(s, c, now)
    requires Fits(charge, env) && Fits(charge', env) && now <= SIZE_MAX &&
        (Recorded(c, now) == 0 || clock < Recorded(c, now))
    ensures Agrees(Execute(s, c, now, charge, env), r, clock, charge', env) <==> Repeatable(s, c, now, charge, r, env)
  {
    if Repeatable(s, c, now, charge, r, env) {
      CommandMirrors(s, c, now, charge, r, clock, charge', env);
    } else {
      DropShows(s, c, now, charge, r, clock, charge', env);
    }
  }

  // ------------------------------------------------------------- exactly, for runs

  /** An event that the cache and the replay accept: only its drops can set them apart. */
  ghost predicate AcceptedEvent(s: State, e: Event, clock: nat, env: Env) {
    && e.now <= SIZE_MAX && Fits(e.charge, env) && OnlyExpired(s, e.command, e.now)
    && (Recorded(e.command, e.now) == 0 || clock < Recorded(e.command, e.now))
  }

  ghost predicate Accepted(s: State, events: seq<Event>, clock: nat, env: Env)
    decreases |events|
  {
    events != [] ==>
      && AcceptedEvent(s, events[0], clock, env)
      && Accepted(Execute(s, events[0].command, events[0].now, events[0].charge, env).state, events[1..], clock, env)
  }

  /** The replay repeats every event of the run, from the state that it has reached by then. */
  ghost predicate Repeats(s: State, events: seq<Event>, r: State, clock: nat, charge: nat, env: Env)
    decreases |events|
  {
    events != [] ==>
      && Repeatable(s, events[0].command, events[0].now, events[0].charge, r, env)
      && var first := Execute(s, events[0].command, events[0].now, events[0].charge, env);
         var o := ReplayAll(r, first.records, clock, charge, env);
         o.Some? ==> Repeats(first.state, events[1..], o.value, clock, charge, env)
  }

  /** At every point of the run the log so far rebuilds the cache of that time. */
  ghost predicate AlwaysAgrees(s: State, events: seq<Event>, r: State, clock: nat, charge: nat, env: Env) {
    forall n :: 0 <= n <= |events| ==> Agrees(Run(s, events[..n], env), r, clock, charge, env)
  }

  lemma RunFirst(s: State, events: seq<Event>, n: nat, env: Env)
    requires n < |events|
    ensures var first := Execute(s, events[0].command, events[0].now, events[0].charge, env);
      var rest := Run(first.state, events[1..][..n], env);
      Run(s, events[..n + 1], env) == Result(rest.state, first.records + rest.records)
  {
    assert events[..n + 1][1..] == events[1..][..n];
  }

  /** After a first event that is repeated, the rest of the run is compared from where both have come. */
  lemma AgreesLater(s: State, events: seq<Event>, n: nat, r: State, r1: State, clock: nat, charge: nat, env: Env)
    requires n < |events|
    requires var first := Execute(s, events[0].command, events[0].now, events[0].charge, env);
      ReplayAll(r, first.records, clock, charge, env) == Some(r1)
    ensures var next := Execute(s, events[0].command, events[0].now, events[0].charge, env).state;
      Agrees(Run(s, events[..n + 1], env), r, clock, charge, env) <==>
      Agrees(Run(next, events[1..][..n], env), r1, clock, charge, env)
  {
    var first := Execute(s, events[0].command, events[0].now, events[0].charge, env);
    RunFirst(s, events, n, env);
    ReplayThen(r, first.records, Run(first.state, events[1..][..n], env).records, clock, charge, env);
  }

  lemma AlwaysAgreesLater(s: State, events: seq<Event>, r: State, r1: State, clock: nat, charge: nat, env: Env)
    requires events != [] && View(s) == View(r)
    requires var first := Execute(s, events[0].command, events[0].now, events[0].charge, env);
      ReplayAll(r, first.records, clock, charge, env) == Some(r1)
    ensures var next := Execute(s, events[0].command, events[0].now, events[0].charge, env).state;
      AlwaysAgrees(s, events, r, clock, charge, env) <==> AlwaysAgrees(next, events[1..], r1, clock, charge, env)
  {
    var next, rest := Execute(s, events[0].command, events[0].now, events[0].charge, env).state, events[1..];
    assert Agrees(Run(s, events[..0], env), r, clock, charge, env);
    forall n: nat | n <= |rest|
      ensures Agrees(Run(s, events[..n + 1], env), r, clock, charge, env) <==>
              Agrees(Run(next, rest[..n], env), r1, clock, charge, env)
    {
      AgreesLater(s, events, n, r, r1, clock, charge, env);
    }
    if AlwaysAgrees(next, rest, r1, clock, charge, env) {
      forall n | 0 <= n <= |events| ensures Agrees(Run(s, events[..n], env), r, clock, charge, env) {
        if n > 0 { assert Agrees(Run(next, rest[..n - 1], env), r1, clock, charge, env); }
      }
    }
    if AlwaysAgrees(s, events, r, clock, charge, env) {
      forall n | 0 <= n <= |rest| ensures Agrees(Run(next, rest[..n], env), r1, clock, charge, env) {
        assert Agrees(Run(s, events[..n + 1], env), r, clock, charge, env);
      }
    }
  }

  /**
    Exactly when does the log rebuild the cache at every point of a run: if and
    only if the replay repeats every event.  Without a key limit that is, if and
    only if no event drops an entry silently.
   */
  lemma {:induction false} ExactlyFaithfulRuns(s: State, events: seq<Event>, r: State, clock: nat, charge: nat,
      env: Env)
    requires Ok(s, env) && Ok(r, env) && Early(r, clock) && View(s) == View(r) && Fits(charge, env)
    requires Accepted(s, events, clock, env)
    ensures AlwaysAgrees(s, events, r, clock, charge, env) <==> Repeats(s, events, r, clock, charge, env)
    ensures env.maxKeys == 0 ==>
      (AlwaysAgrees(s, events, r, clock, charge, env) <==> Faithful(s, events, clock, env))
    decreases |events|
  {
    if events != [] {
      var e := events[0];
      ExactlyFaithful(s, e.command, e.now, e.charge, r, clock, charge, env);
      RepeatableIs(s, e.command, e.now, e.charge, r, env);
      if Repeatable(s, e.command, e.now, e.charge, r, env) {
        var first := Execute(s, e.command, e.now, e.charge, env);
        CommandMirrors(s, e.command, e.now, e.charge, r, clock, charge, env);
        var r1 := ReplayAll(r, first.records, clock, charge, env).value;
        ExactlyFaithfulRuns(first.state, events[1..], r1, clock, charge, env);
        AlwaysAgreesLater(s, events, r, r1, clock, charge, env);
      } else {
        FirstDiffers(s, events, r, clock, charge, env);
      }
    }
  }

  lemma FirstDiffers(s: State, events: seq<Event>, r: State, clock: nat, charge: nat, env: Env)
    requires events != []
    requires !Agrees(Execute(s, events[0].command, events[0].now, events[0].charge, env), r, clock, charge, env)
    ensures !AlwaysAgrees(s, events, r, clock, charge, env)
  {
    var first := Execute(s, events[0].command, events[0].now, events[0].charge, env);
    RunFirst(s, events, 0, env);
    assert first.records + [] == first.records;
    assert !Agrees(Run(s, events[..1], env), r, clock, charge, env);
  }

  function EmptyState(): State { C.State(map[], map[], []) }

  /**
    A clock that went back: a key expired at time 11 and was looked up at 20, so
    it is gone from the cache without a record; a replay whose clock shows 0
    brings it back.
   */
  lemma ExpiredKeyComesBack(env: Env)
    requires env.maxKeys == 0 && env.maxMemory == 0
    ensures var events := [Event(Set([1], [2], 10), 1, 100), Event(Read([1]), 20, 0)];
      var run := Run(EmptyState(), events, env);
      View(run.state) == View(EmptyState()) && !Agrees(run, EmptyState(), 0, 100, env)
  {
    var s0 := EmptyState();
    var events := [Event(Set([1], [2], 10), 1, 100), Event(Read([1]), 20, 0)];
    var s1 := C.Put(s0, [1], EntryOf(Str([2]), 100), 11, false);
    var own := SetRecord([1], [2], 11);
    FirstSet(env);
    var second := ExpiredRead(s1, env);
    RunTwo(s0, events, s1, [own], second, env);
    ReplayOne(s0, own, 0, 100, env);
    assert [1] in s1.d;
  }

  lemma ExpiredRead(s: State, env: Env) returns (second: State)
    requires s.index.Keys == {[1]} && s.d == map[[1] := 11] && s.order == []
    ensures Execute(s, Read([1]), 20, 0, env) == Result(second, []) && View(second) == View(EmptyState())
  {
    assert C.Looked(s, [1], 20) == C.RemoveKey(s, [1]);
    assert C.RemoveKey(s, [1]).index == map[] && C.RemoveKey(s, [1]).d == map[];
    second := C.RemoveKey(s, [1]);
  }

  lemma RunTwo(s: State, events: seq<Event>, s1: State, records: seq<Record>, s2: State, env: Env)
    requires |events| == 2
    requires Execute(s, events[0].command, events[0].now, events[0].charge, env) == Result(s1, records)
    requires Execute(s1, events[1].command, events[1].now, events[1].charge, env) == Result(s2, [])
    ensures Run(s, events, env) == Result(s2, records)
  {
    assert events[1..][1..] == [] && Run(s2, [], env) == Result(s2, []);
    assert Run(s1, events[1..], env) == Result(s2, []);
    assert records + [] == records;
  }

  lemma FirstSet(env: Env)
    requires env.maxKeys == 0 && env.maxMemory == 0
    ensures var s0 := EmptyState();
      var s1, own := C.Put(s0, [1], EntryOf(Str([2]), 100), 11, false), SetRecord([1], [2], 11);
      && Execute(s0, Set([1], [2], 10), 1, 100, env) == Result(s1, [own])
      && Replay(s0, own, 0, 100, env) == Some(s1)
  {
    var s0, own := EmptyState(), SetRecord([1], [2], 11);
    var s1 := C.Put(s0, [1], EntryOf(Str([2]), 100), 11, false);
    StoreIs(s0, [1], Str([2]), 11, 100, 1, own, env);
    StoreIs(s0, [1], Str([2]), 11, 100, 0, own, env);
    assert C.Reported(s1, [1], 0, 1) == [] && C.Evicted(s1, [1], 0) == s1 && [] + [own] == [own];
    ReplaySet(s0, [1], [2], 11, 0, 100, env);
  }

  // ----------------------------------------------------------- scores are doubles

  /** Score text is read as a double. */
  ghost predicate ReadsDoubles(env: Env) { forall t :: env.score(t).Some? ==> Double.IsDouble(env.score(t).value) }

  ghost predicate AllDoubles(z: map<Bytes, Score>) { forall m :: m in z ==> Double.IsDouble(z[m]) }

  ghost predicate DoubleValue(v: Value) { v.Zset? ==> AllDoubles(v.scores) }

  ghost predicate Doubles(s: State) { forall k :: k in s.index ==> DoubleValue(s.index[k].value) }

  lemma {:induction false} SetScoresDoubles(z: map<Bytes, Score>, args: Record, n: nat, env: Env)
    requires AllDoubles(z) && ReadsDoubles(env) && 2 * n + 1 < |args| && ScoresReadable(args, n, env)
    ensures AllDoubles(SetScores(z, args, n, env))
    decreases n
  {
    if n > 0 { SetScoresDoubles(z, args, n - 1, env); }
  }

  lemma MutateDoubles(v: Option<Value>, args: Record, env: Env)
    requires (Pairs(args) || Names(args)) && ReadsDoubles(env) && (v.Some? ==> DoubleValue(v.value))
    ensures var effect := Mutate(v, args, env); effect.Write? ==> DoubleValue(effect.value)
  {
    var n := PairCount(args);
    if NameIs(args[0], ZADD) && ScoresReadable(args, n, env) && (v.None? || v.value.Zset?) && 2 * n + 1 < |args| {
      SetScoresDoubles(if v.Some? then v.value.scores else map[], args, n, env);
    }
  }

  lemma {:induction false} EvictedDoubles(s: State, k: Bytes, j: nat)
    requires Doubles(s)
    ensures Doubles(C.Evicted(s, k, j))
    decreases j
  {
    if j > 0 { EvictedDoubles(s, k, j - 1); }
  }

  lemma {:induction false} RemovedDoubles(s: State, keys: seq<Bytes>)
    requires Doubles(s)
    ensures Doubles(C.RemoveAll(s, keys))
    decreases |keys|
  {
    if keys != [] { RemovedDoubles(s, keys[..|keys| - 1]); }
  }

  lemma StoreDoubles(s: State, k: Bytes, v: Value, deadline: nat, charge: nat, now: nat, own: Record, env: Env)
    requires Doubles(s) && DoubleValue(v)
    ensures Doubles(StoreValue(s, k, v, deadline, charge, now, own, env).state)
  {
    var t := C.Put(s, k, EntryOf(v, charge), deadline, Lru(env));
    EvictedDoubles(t, k, Room(t, k, env));
  }

  lemma ApplyDoubles(s: State, k: Bytes, effect: Effect, now: nat, charge: nat, args: Record, env: Env)
    requires Doubles(s) && (effect.Write? ==> DoubleValue(effect.value))
    ensures Doubles(Apply(s, k, effect, now, charge, args, env).state)
  {
    if effect.Write? && C.Accepts(LimitsOf(env), charge) {
      StoreDoubles(s, k, effect.value, C.DeadlineOf(s, k), charge, StoreTime(s, k, args, now, env), args, env);
    }
  }

  lemma ExecuteDoubles(s: State, c: Command, now: nat, charge: nat, env: Env)
    requires Doubles(s) && ReadsDoubles(env)
    ensures Doubles(Execute(s, c, now, charge, env).state)
  {
    match c
    case Set(k, v, ttl) =>
      StoreDoubles(C.Looked(s, k, now), k, Str(v), After(ttl, now), charge, now, SetRecord(k, v, After(ttl, now)), env);
    case Change(args) =>
      if Pairs(args) || Names(args) {
        var s1 := C.Used(C.Looked(s, args[1], now), args[1], Lru(env));
        MutateDoubles(ValueAt(s1, args[1]), args, env);
        ApplyDoubles(s1, args[1], Mutate(ValueAt(s1, args[1]), args, env), now, charge, args, env);
      }
    case Tick(removed) => RemovedDoubles(s, removed);
    case _ =>
  }

  /** In every run all scores in the cache are doubles. */
  lemma {:induction false} RunDoubles(s: State, events: seq<Event>, env: Env)
    requires Doubles(s) && ReadsDoubles(env)
    ensures Doubles(Run(s, events, env).state)
    decreases |events|
  {
    if events != [] {
      ExecuteDoubles(s, events[0].command, events[0].now, events[0].charge, env);
      RunDoubles(Execute(s, events[0].command, events[0].now, events[0].charge, env).state, events[1..], env);
    }
  }

  // ------------------------------------------------------------- records and marks

  /** The record that a command itself leaves when it changes something. */
  function Own(c: Command, now: nat): Record {
    match c
    case Set(k, v, ttl) => SetRecord(k, v, After(ttl, now))
    case Del(k) => [DEL, k]
    case Expire(k, ttl) => if ttl == 0 then [DEL, k] else [PEXPIREAT, k, Decimal(now + ttl)]
    case Persist(k) => [PERSIST, k]
    case Change(args) => args
    case Read(k) => []
    case Tick(_) => []
  }

  /** Evictions followed by one's own record, all of them mutations. */
  ghost predicate EvictionsThen(records: seq<Record>, own: Record) {
    && MarkerLog.Captured(records) == Some(own)
    && MarkerLog.Mutations(records)
    && forall i :: 0 <= i < |records| - 1 ==> |records[i]| == 2 && records[i][0] == DEL
  }

  /** A store leaves evictions and then the command's own record. */
  lemma StoreLeaves(s: State, k: Bytes, v: Value, deadline: nat, charge: nat, now: nat, own: Record, env: Env)
    requires MarkerLog.IsMutation(own)
    ensures EvictionsThen(StoreValue(s, k, v, deadline, charge, now, own, env).records, own)
  {
    var t := C.Put(s, k, EntryOf(v, charge), deadline, Lru(env));
    StoreRecords(C.Reported(t, k, Room(t, k, env), now), own);
  }

  lemma ApplyRecords(s: State, k: Bytes, effect: Effect, now: nat, charge: nat, args: Record, env: Env)
    requires MarkerLog.IsMutation(args)
    ensures var records := Apply(s, k, effect, now, charge, args, env).records;
        records == [] || EvictionsThen(records, args)
  {
    if effect.Write? && C.Accepts(LimitsOf(env), charge) {
      StoreLeaves(s, k, effect.value, C.DeadlineOf(s, k), charge, StoreTime(s, k, args, now, env), args, env);
    }
  }

  lemma ChangeRecords(s: State, args: Record, now: nat, charge: nat, env: Env)
    requires Pairs(args) || Names(args)
    ensures var records := ExecuteChange(s, args, now, charge, env).records;
        records == [] || EvictionsThen(records, args)
  {
    var s1 := C.Used(C.Looked(s, args[1], now), args[1], Lru(env));
    ApplyRecords(s1, args[1], Mutate(ValueAt(s1, args[1]), args, env), now, charge, args, env);
  }

  /**
    What a command appends: nothing, or evictions followed by its own record, all
    of them mutations.  So the marker of a write names the client's own record.
   */
  lemma OwnRecordIsLast(s: State, c: Command, now: nat, charge: nat, env: Env)
    ensures var records := Execute(s, c, now, charge, env).records; records == [] || EvictionsThen(records, Own(c, now))
  {
    NamesAreMutations();
    match c
    case Set(k, v, ttl) =>
      StoreLeaves(C.Looked(s, k, now), k, Str(v), After(ttl, now), charge, now, SetRecord(k, v, After(ttl, now)), env);
    case Change(args) => if Pairs(args) || Names(args) { ChangeRecords(s, args, now, charge, env); }
    case _ =>
  }

  lemma NamesAreMutations()
    ensures NameIs(SET, SET) && NameIs(DEL, DEL) && NameIs(PEXPIREAT, PEXPIREAT) && NameIs(PERSIST, PERSIST)
  {
  }

  lemma {:induction false} DelRecordsAre(keys: seq<Bytes>)
    ensures forall i :: 0 <= i < |DelRecords(keys)| ==> |DelRecords(keys)[i]| == 2 && DelRecords(keys)[i][0] == DEL
  {
    if keys != [] { DelRecordsAre(keys[1..]); }
  }

  lemma StoreRecords(keys: seq<Bytes>, own: Record)
    requires MarkerLog.IsMutation(own)
    ensures EvictionsThen(DelRecords(keys) + [own], own)
  {
    DelRecordsAre(keys);
    NamesAreMutations();
  }
}
