/**
  Starting from a snapshot and the rest of the log: the same contents as
  replaying the whole log.
 */
module Recovery {
  import opened Bytes
  import opened Resp
  import opened Records
  import AofReplay
  import C = Cache
  import Double
  import MarkerLog
  import Rdb
  import Service

  type Contents = Service.Contents
  type State = Service.State

  // ----------------------------------------------------------------- the loader

  /** A loaded row is stored unless its deadline has passed. */
  predicate Stored(r: Rdb.Loaded, now: nat) { r.deadline == 0 || r.deadline > now }

  ghost predicate DistinctKeys(rows: seq<Rdb.Loaded>) {
    forall i, j :: 0 <= i < j < |rows| ==> rows[i].key != rows[j].key
  }

  /** What is installed, row by row and key by key. */
  ghost predicate Matches(rows: seq<Rdb.Loaded>, now: nat, c: Contents) {
    && (forall i :: 0 <= i < |rows| && Stored(rows[i], now) ==>
          && rows[i].key in c.values && c.values[rows[i].key] == rows[i].value
          && (if rows[i].deadline == 0 then rows[i].key !in c.deadlines
              else rows[i].key in c.deadlines && c.deadlines[rows[i].key] == rows[i].deadline))
    && (forall k :: k in c.values ==> HasRow(rows, now, k))
    && forall k :: k in c.deadlines ==> k in c.values
  }

  ghost predicate HasRow(rows: seq<Rdb.Loaded>, now: nat, k: Bytes) {
    exists i :: 0 <= i < |rows| && rows[i].key == k && Stored(rows[i], now)
  }

  lemma {:induction false} InstalledMatches(rows: seq<Rdb.Loaded>, now: nat)
    requires DistinctKeys(rows)
    ensures Matches(rows, now, Rdb.Installed(rows, now))
    decreases |rows|
  {
    if rows != [] {
      var front, last := rows[..|rows| - 1], rows[|rows| - 1];
      InstalledMatches(front, now);
      OneMore(front, last, now, Rdb.Installed(front, now));
      assert front + [last] == rows;
    }
  }

  lemma OneMore(front: seq<Rdb.Loaded>, last: Rdb.Loaded, now: nat, c: Contents)
    requires Matches(front, now, c) && DistinctKeys(front + [last])
    ensures Matches(front + [last], now, if Stored(last, now)
        then Service.With(c, last.key, last.value, last.deadline) else c)
  {
    var rows := front + [last];
    var c' := if Stored(last, now) then Service.With(c, last.key, last.value, last.deadline) else c;
    forall i | 0 <= i < |front| ensures rows[i] == front[i] && front[i].key != last.key {
      assert rows[i].key != rows[|front|].key;
    }
    forall k | k in c'.values ensures HasRow(rows, now, k) {
      if Stored(last, now) && k == last.key {
        assert rows[|front|] == last;
      } else {
        var i :| 0 <= i < |front| && front[i].key == k && Stored(front[i], now);
        assert rows[i] == front[i];
      }
    }
  }

  /** Two contents that match the same rows are the same. */
  lemma MatchesUnique(rows: seq<Rdb.Loaded>, now: nat, a: Contents, b: Contents)
    requires Matches(rows, now, a) && Matches(rows, now, b)
    ensures a == b
  {
    forall k | k in a.values
        ensures k in b.values && a.values[k] == b.values[k] && (k in a.deadlines <==> k in b.deadlines) &&
        (k in a.deadlines ==> a.deadlines[k] == b.deadlines[k]) {
      var i :| 0 <= i < |rows| && rows[i].key == k && Stored(rows[i], now);
    }
    forall k | k in b.values ensures k in a.values {
      var i :| 0 <= i < |rows| && rows[i].key == k && Stored(rows[i], now);
    }
    assert a.values == b.values;
    assert a.deadlines == b.deadlines;
  }

  /** The visited rows are the contents of the cache, each key once. */
  ghost predicate Describes(rows: seq<Rdb.Row>, c: Contents) {
    && (forall i, j :: 0 <= i < j < |rows| ==> rows[i].key != rows[j].key)
    && (forall i :: 0 <= i < |rows| ==>
          && rows[i].key in c.values && c.values[rows[i].key] == Rdb.ValueOf(rows[i].value)
          && (if rows[i].deadline == 0 then rows[i].key !in c.deadlines
              else rows[i].key in c.deadlines && c.deadlines[rows[i].key] == rows[i].deadline))
    && (forall k :: k in c.values ==> exists i :: 0 <= i < |rows| && rows[i].key == k)
    && forall k :: k in c.deadlines ==> k in c.values
  }

  /** What is left of contents when deadlines up to a time have passed. */
  function LivingContents(c: Contents, time: nat): Contents {
    Service.Contents(
      map k | k in c.values && (k in c.deadlines ==> c.deadlines[k] > time) :: c.values[k],
      map k | k in c.deadlines && c.deadlines[k] > time :: c.deadlines[k])
  }

  function Later(a: nat, b: nat): nat { if a >= b then a else b }

  function Kept(rows: seq<Rdb.Row>, time: nat): seq<Rdb.Loaded> { Rdb.AllLoaded(Rdb.Living(rows, time)) }

  ghost predicate FromRow(rows: seq<Rdb.Row>, time: nat, x: Rdb.Loaded) {
    exists j :: 0 <= j < |rows| && Rdb.Alive(rows[j], time) && x == Rdb.LoadedOf(rows[j])
  }

  ghost predicate DistinctRows(rows: seq<Rdb.Row>) {
    forall i, j :: 0 <= i < j < |rows| ==> rows[i].key != rows[j].key
  }

  lemma KeptStep(rows: seq<Rdb.Row>, time: nat)
    requires rows != []
    ensures Kept(rows, time) == if Rdb.Alive(rows[0], time) then [Rdb.LoadedOf(rows[0])] + Kept(rows[1..], time)
        else Kept(rows[1..], time)
  {
    var rest := Rdb.Living(rows[1..], time);
    if Rdb.Alive(rows[0], time) {
      assert ([rows[0]] + rest)[1..] == rest;
    } else {
      assert [] + rest == rest;
    }
  }

  /** The rows kept are those alive, and each key is kept once. */
  lemma {:induction false} KeptElements(rows: seq<Rdb.Row>, time: nat)
    requires DistinctRows(rows)
    ensures (forall x :: x in Kept(rows, time) <==> FromRow(rows, time, x)) && DistinctKeys(Kept(rows, time))
    decreases |rows|
  {
    if rows != [] {
      var rest := rows[1..];
      KeptStep(rows, time);
      KeptElements(rest, time);
      forall x ensures x in Kept(rows, time) <==> FromRow(rows, time, x) {
        FromRowStep(rows, time, x);
      }
      if Rdb.Alive(rows[0], time) {
        forall i | 0 <= i < |Kept(rest, time)| ensures Kept(rest, time)[i].key != rows[0].key {
          var x := Kept(rest, time)[i];
          assert x in Kept(rest, time);
          var j :| 0 <= j < |rest| && Rdb.Alive(rest[j], time) && x == Rdb.LoadedOf(rest[j]);
          assert rest[j] == rows[j + 1];
        }
        FirstDistinct(Rdb.LoadedOf(rows[0]), Kept(rest, time));
      }
    }
  }

  lemma FirstDistinct(first: Rdb.Loaded, rest: seq<Rdb.Loaded>)
    requires DistinctKeys(rest) && forall i :: 0 <= i < |rest| ==> rest[i].key != first.key
    ensures DistinctKeys([first] + rest)
  {
    var all := [first] + rest;
    forall i, j | 0 <= i < j < |all| ensures all[i].key != all[j].key {
      assert all[j] == rest[j - 1] && (i > 0 ==> all[i] == rest[i - 1]);
    }
  }

  lemma FromRowStep(rows: seq<Rdb.Row>, time: nat, x: Rdb.Loaded)
    requires rows != []
    ensures FromRow(rows, time, x) <==>
        (Rdb.Alive(rows[0], time) && x == Rdb.LoadedOf(rows[0])) || FromRow(rows[1..], time, x)
  {
    if FromRow(rows[1..], time, x) {
      var j :| 0 <= j < |rows[1..]| && Rdb.Alive(rows[1..][j], time) && x == Rdb.LoadedOf(rows[1..][j]);
      assert rows[j + 1] == rows[1..][j];
    }
    if FromRow(rows, time, x) {
      var j :| 0 <= j < |rows| && Rdb.Alive(rows[j], time) && x == Rdb.LoadedOf(rows[j]);
      if j > 0 { assert rows[1..][j - 1] == rows[j]; }
    }
  }

  lemma KeptMatches(rows: seq<Rdb.Row>, time: nat, now: nat, c: Contents)
    requires Describes(rows, c)
    ensures Matches(Kept(rows, time), now, LivingContents(c, Later(time, now))) && DistinctKeys(Kept(rows, time))
  {
    KeptElements(rows, time);
    var kept, left := Kept(rows, time), LivingContents(c, Later(time, now));
    forall i | 0 <= i < |kept| && Stored(kept[i], now)
      ensures
        && kept[i].key in left.values && left.values[kept[i].key] == kept[i].value
        && (if kept[i].deadline == 0 then kept[i].key !in left.deadlines
            else kept[i].key in left.deadlines && left.deadlines[kept[i].key] == kept[i].deadline)
    {
      assert kept[i] in kept;
      var j :| 0 <= j < |rows| && Rdb.Alive(rows[j], time) && kept[i] == Rdb.LoadedOf(rows[j]);
    }
    forall k | k in left.values ensures HasRow(kept, now, k) {
      var j :| 0 <= j < |rows| && rows[j].key == k;
      assert FromRow(rows, time, Rdb.LoadedOf(rows[j]));
      var i :| 0 <= i < |kept| && kept[i] == Rdb.LoadedOf(rows[j]);
    }
  }

  /** Loading a saved snapshot rebuilds every key that had not expired, with its object and deadline. */
  lemma SnapshotRoundTrip(rows: seq<Rdb.Row>, c: Contents, time: nat, now: nat, cp: Rdb.Checkpoint, codec: Rdb.Codec)
    requires Describes(rows, c) && Rdb.Good(rows) && Rdb.Sound(codec) && time < Rdb.U64 && |rows| < Rdb.U64 &&
        cp.offset < Rdb.U64
    ensures var loaded := Rdb.Load(Rdb.Save(rows, time, cp, codec), codec);
      loaded.Snapshot? && loaded.checkpoint == Rdb.Carried(cp) &&
      Rdb.Installed(loaded.rows, now) == LivingContents(c, Later(time, now))
  {
    Rdb.LoadSave(rows, time, cp, codec);
    KeptMatches(rows, time, now, c);
    InstalledMatches(Kept(rows, time), now);
    MatchesUnique(Kept(rows, time), now, Rdb.Installed(Kept(rows, time), now), LivingContents(c, Later(time, now)));
  }

  /** The rows are small enough for the format, and no visit names a part twice. */
  ghost predicate Visited(rows: seq<Rdb.Row>) {
    |rows| < Rdb.U64 && forall i :: 0 <= i < |rows| ==> Rdb.Once(rows[i].value) && Rdb.Short(rows[i])
  }

  /** Scores of a cache that holds doubles only can be written. */
  lemma VisitedIsGood(rows: seq<Rdb.Row>, s: State)
    requires Visited(rows) && Describes(rows, Service.View(s)) && Service.Doubles(s)
    ensures Rdb.Good(rows)
  {
    forall i | 0 <= i < |rows| ensures Rdb.DoubleScores(rows[i].value) {
      assert rows[i].key in s.index && s.index[rows[i].key].value == Rdb.ValueOf(rows[i].value);
      assert Service.DoubleValue(s.index[rows[i].key].value);
      ScoresAreDoubles(rows[i].value);
    }
  }

  lemma ScoresAreDoubles(o: Rdb.Object)
    requires Rdb.Once(o) && Service.DoubleValue(Rdb.ValueOf(o))
    ensures Rdb.DoubleScores(o)
  {
    if o.Members? {
      forall i | 0 <= i < |o.items| ensures Double.IsDouble(o.items[i].1) {
        Rdb.ItemMapHas(map[], o.items, i);
      }
    }
  }

  // ---------------------------------------------------------- snapshot and tail

  /** One row stored as any object is: looked up first, with evictions as the limits demand. */
  ghost function Install(before: State, r: Rdb.Loaded, now: nat, charge: nat, env: Service.Env): State {
    if Stored(r, now)
    then Service.StoreValue(C.Looked(before, r.key, now), r.key, r.value, r.deadline, charge, now, [], env).state
    else before
  }

  /** The cache after the rows were stored in it one by one. */
  ghost function InstallAll(rows: seq<Rdb.Loaded>, now: nat, charge: nat, env: Service.Env): State
    decreases |rows|
  {
    if rows == [] then Service.EmptyState()
    else Install(InstallAll(rows[..|rows| - 1], now, charge, env), rows[|rows| - 1], now, charge, env)
  }

  /** The limits have room for all the keys. */
  ghost predicate HasRoom(c: Contents, env: Service.Env) {
    env.maxMemory == 0 && (env.maxKeys == 0 || |c.values| <= env.maxKeys)
  }

  /** Where there is room for the row, nothing gives way to it. */
  lemma InstallIs(before: State, r: Rdb.Loaded, now: nat, charge: nat, env: Service.Env)
    requires C.Joint(before, Service.Lru(env)) && Service.Early(before, now) && Stored(r, now)
    requires HasRoom(Service.With(Service.View(before), r.key, r.value, r.deadline), env)
    ensures var t := C.Put(before, r.key, Service.EntryOf(r.value, charge), r.deadline, Service.Lru(env));
      && Service.Room(t, r.key, env) == 0 && Install(before, r, now, charge, env) == t
      && Service.View(t) == Service.With(Service.View(before), r.key, r.value, r.deadline)
      && C.Joint(t, Service.Lru(env)) && Service.Early(t, now)
  {
    var t := C.Put(before, r.key, Service.EntryOf(r.value, charge), r.deadline, Service.Lru(env));
    Service.EarlyLooks(before, r.key, now);
    Service.ViewPut(before, r.key, r.value, r.deadline, charge, Service.Lru(env));
    Service.ViewSize(t);
    C.PutKeepsJoint(before, r.key, Service.EntryOf(r.value, charge), r.deadline, Service.Lru(env));
    Service.RoomIsNeed(t, r.key, env);
    assert C.Evicted(t, r.key, 0) == t;
  }

  /** Fewer rows need less room. */
  lemma LessRoom(c: Contents, k: Bytes, v: Service.Value, deadline: nat, env: Service.Env)
    requires HasRoom(Service.With(c, k, v, deadline), env)
    ensures HasRoom(c, env)
  {
    var all := Service.With(c, k, v, deadline).values;
    SubsetSize(c.values.Keys, all.Keys);
    assert |c.values.Keys| == |c.values| && |all.Keys| == |all|;
  }

  /** Rows that fit the limits are all installed, in a cache whose structures agree. */
  lemma {:induction false} InstallAllIs(rows: seq<Rdb.Loaded>, now: nat, charge: nat, env: Service.Env)
    requires HasRoom(Rdb.Installed(rows, now), env)
    ensures var s := InstallAll(rows, now, charge, env);
      C.Joint(s, Service.Lru(env)) && Service.Early(s, now) && Service.View(s) == Rdb.Installed(rows, now)
    decreases |rows|
  {
    if rows != [] {
      var front, r := rows[..|rows| - 1], rows[|rows| - 1];
      if Stored(r, now) {
        LessRoom(Rdb.Installed(front, now), r.key, r.value, r.deadline, env);
        InstallAllIs(front, now, charge, env);
        InstallIs(InstallAll(front, now, charge, env), r, now, charge, env);
      } else {
        InstallAllIs(front, now, charge, env);
      }
    }
  }

  /** The record that a checkpoint leaves in the log. */
  function CheckpointRecord(token: Rdb.Token): Record { [PING, MarkerLog.Hex(token)] }

  lemma CheckpointReplays(r: State, token: Rdb.Token, clock: nat, charge: nat, env: Service.Env)
    ensures Service.Replay(r, CheckpointRecord(token), clock, charge, env) == Some(r)
  {
    assert NameIs(PING, PING);
  }

  /** Whether the log still holds the checkpoint's record right before its offset. */
  predicate CheckpointValid(file: Bytes, cp: Rdb.Checkpoint) {
    var expected := Encode(CheckpointRecord(cp.token));
    cp.valid && |expected| <= cp.offset <= |file| && file[cp.offset - |expected|..cp.offset] == expected
  }

  lemma NothingExpired(c: Contents, time: nat)
    requires forall k :: k in c.deadlines ==> c.deadlines[k] > time
    ensures LivingContents(c, time) == c
  {
  }

  /** The state that the loader leaves has the contents of the cache that was saved. */
  lemma LoadedState(live: State, rows: seq<Rdb.Row>, time: nat, cp: Rdb.Checkpoint, codec: Rdb.Codec,
                    clock: nat, charge: nat, env: Service.Env) returns (r: State)
    requires Service.Ok(live, env) && Service.Early(live, clock) && Service.Early(live, time) &&
        Describes(rows, Service.View(live))
    requires Visited(rows) && Service.Doubles(live) && Rdb.Sound(codec) && time < Rdb.U64 && cp.offset < Rdb.U64
    ensures var loaded := Rdb.Load(Rdb.Save(rows, time, cp, codec), codec);
      && loaded.Snapshot? && loaded.checkpoint == Rdb.Carried(cp)
      && r == InstallAll(loaded.rows, clock, charge, env)
    ensures Service.View(r) == Service.View(live) && Service.Ok(r, env) && Service.Early(r, clock)
  {
    var loaded := Rdb.Load(Rdb.Save(rows, time, cp, codec), codec);
    VisitedIsGood(rows, live);
    SnapshotRoundTrip(rows, Service.View(live), time, clock, cp, codec);
    NothingExpired(Service.View(live), Later(time, clock));
    Service.ViewSize(live);
    InstallAllIs(loaded.rows, clock, charge, env);
    r := InstallAll(loaded.rows, clock, charge, env);
    Service.SameNeed(live, r, env);
  }

  /** Replaying the records before and after a checkpoint is replaying the two runs. */
  lemma WholeLog(a: seq<Record>, token: Rdb.Token, b: seq<Record>, r: State, clock: nat, charge: nat, env: Service.Env)
    requires Service.ReplayAll(r, a, clock, charge, env).Some?
    ensures Service.ReplayAll(r, a + [CheckpointRecord(token)] + b, clock, charge, env)
            == Service.ReplayAll(Service.ReplayAll(r, a, clock, charge, env).value, b, clock, charge, env)
  {
    var mid := Service.ReplayAll(r, a, clock, charge, env).value;
    var p := [CheckpointRecord(token)];
    Service.ReplayThen(r, a, p, clock, charge, env);
    Service.ReplayOne(mid, CheckpointRecord(token), clock, charge, env);
    CheckpointReplays(mid, token, clock, charge, env);
    Service.ReplayThen(r, a + p, b, clock, charge, env);
  }

  /** What is in a log with a checkpoint: the whole of it, the part after it, and the checkpoint's own record. */
  lemma LogWithCheckpoint(a: seq<Record>, token: Rdb.Token, b: seq<Record>)
    requires forall i :: 0 <= i < |b| ==> AofReplay.Encodable(b[i])
    requires forall i :: 0 <= i < |a| ==> AofReplay.Encodable(a[i])
    requires AofReplay.Encodable(CheckpointRecord(token))
    ensures var all, file, offset := a + [CheckpointRecord(token)] + b,
        AofReplay.Log(a + [CheckpointRecord(token)] + b),
                                     |AofReplay.Log(a + [CheckpointRecord(token)])|;
      && offset <= |file| && AofReplay.Replay(file, 0) == AofReplay.Replayed(all, |file|)
      && AofReplay.Replay(file, offset) == AofReplay.Replayed(b, |file|)
      && CheckpointValid(file, Rdb.Checkpoint(true, offset, token))
  {
    var p := [CheckpointRecord(token)];
    var all := a + p + b;
    AofReplay.ReplayFromBoundary([], all);
    assert [] + all == all;
    AofReplay.ReplayFromBoundary(a + p, b);
    AofReplay.LogAppend(a, p);
    assert AofReplay.Log(p) == Encode(p[0]) by { assert p[1..] == []; }
    CheckpointPlace(AofReplay.Log(a), Encode(p[0]), AofReplay.Log(b));
  }

  lemma CheckpointPlace(a: Bytes, p: Bytes, b: Bytes)
    ensures (a + p + b)[|a + p| - |p|..|a + p|] == p
  {
  }

  /**
    Snapshot plus tail: under the conditions of `Service.ReplayEqualsLive`,
    loading the snapshot that was taken at a checkpoint and replaying the log
    from its offset gives the same contents as replaying the whole log, namely
    those of the live cache.
   */
  lemma SnapshotPlusTail(before: seq<Service.Event>, after: seq<Service.Event>, token: Rdb.Token, rows: seq<Rdb.Row>,
                         time: nat, codec: Rdb.Codec, clock: nat, charge: nat, env: Service.Env)
    requires env.maxMemory == 0 && Service.ReadsDoubles(env) && Service.Fits(charge, env) && Rdb.Sound(codec)
    requires time <= clock <= SIZE_MAX && Service.Timely(Service.EmptyState(), before, clock, env)
    requires var mid := Service.Run(Service.EmptyState(), before, env).state;
      Service.Timely(mid, after, clock, env) && Describes(rows, Service.View(mid))
    requires Visited(rows) && Encodable(before, after, token, env)
    requires |AofReplay.Log(Service.Run(Service.EmptyState(), before,
        env).records + [CheckpointRecord(token)])| < Rdb.U64
    ensures var run := Service.Run(Service.EmptyState(), before, env);
      var tail := Service.Run(run.state, after, env);
      var file := AofReplay.Log(run.records + [CheckpointRecord(token)] + tail.records);
      var cp := Rdb.Checkpoint(true, |AofReplay.Log(run.records + [CheckpointRecord(token)])|, token);
      var loaded := Rdb.Load(Rdb.Save(rows, time, cp, codec), codec);
      && loaded.Snapshot? && CheckpointValid(file, loaded.checkpoint) && loaded.checkpoint.offset <= |file|
      && var whole, rest := AofReplay.Replay(file, 0), AofReplay.Replay(file, loaded.checkpoint.offset);
         && whole.Replayed? && rest.Replayed?
         && Gives(Service.EmptyState(), whole.records, tail.state, clock, charge, env)
         && Gives(InstallAll(loaded.rows, clock, charge, env), rest.records, tail.state, clock, charge, env)
  {
    var s0 := Service.EmptyState();
    var run := Service.Run(s0, before, env);
    var tail := Service.Run(run.state, after, env);
    var cp := Rdb.Checkpoint(true, |AofReplay.Log(run.records + [CheckpointRecord(token)])|, token);
    var r0 := Replayed(s0, before, s0, clock, charge, env);
    Service.RunDoubles(s0, before, env);
    var r := LoadedState(run.state, rows, time, cp, codec, clock, charge, env);
    var r1 := Replayed(run.state, after, r0, clock, charge, env);
    var r2 := Replayed(run.state, after, r, clock, charge, env);
    WholeLog(run.records, token, tail.records, s0, clock, charge, env);
    LogWithCheckpoint(run.records, token, tail.records);
  }

  /** What the replay of a run leaves. */
  lemma Replayed(s: State, events: seq<Service.Event>, r: State, clock: nat, charge: nat, env: Service.Env)
      returns (r': State)
    requires Service.Ok(s, env) && Service.Ok(r, env) && Service.Early(r, clock) && Service.View(s) == Service.View(r)
    requires Service.Fits(charge, env) && clock <= SIZE_MAX && Service.Timely(s, events, clock, env)
    ensures var run := Service.Run(s, events, env);
      && Service.ReplayAll(r, run.records, clock, charge, env) == Some(r') &&
          Service.View(r') == Service.View(run.state)
      && Service.Ok(run.state, env) && Service.Ok(r', env) && Service.Early(r', clock) &&
          Service.Early(run.state, clock)
  {
    Service.ReplayEqualsLive(s, events, r, clock, charge, env);
    r' := Service.ReplayAll(r, Service.Run(s, events, env).records, clock, charge, env).value;
  }

  /** Replaying the records gives the contents of the live state. */
  ghost predicate Gives(r: State, records: seq<Record>, live: State, clock: nat, charge: nat, env: Service.Env) {
    var o := Service.ReplayAll(r, records, clock, charge, env);
    o.Some? && Service.View(o.value) == Service.View(live)
  }

  /** The log accepted every record of the runs. */
  ghost predicate Encodable(before: seq<Service.Event>, after: seq<Service.Event>, token: Rdb.Token, env: Service.Env) {
    var run := Service.Run(Service.EmptyState(), before, env);
    var tail := Service.Run(run.state, after, env);
    && AofReplay.Encodable(CheckpointRecord(token))
    && (forall i :: 0 <= i < |run.records| ==> AofReplay.Encodable(run.records[i]))
    && forall i :: 0 <= i < |tail.records| ==> AofReplay.Encodable(tail.records[i])
  }
}
