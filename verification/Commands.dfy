/**
  The service object: commands executed on the cache in place, their records
  collected in the transaction of the command, and the transaction committed with
  its marker.  Every method is one function of `Service` or `Outbox`.
 */
module Commands {
  import opened Bytes
  import opened Records
  import opened MarkerLog
  import opened Resp
  import C = Cache
  import Outbox
  import Service

  type Value = Service.Value

  /** Kinds match values, a string has no items, and every charge was accepted. */
  ghost predicate TypedEntry(e: C.Entry<Value>, limits: C.Limits) {
    e.kind == Service.EntryOf(e.value, 0).kind && (e.value.Str? ==> e.items == 0) && C.Accepts(limits, e.charge)
  }

  ghost predicate Typed(index: C.Index<Value>, limits: C.Limits) {
    forall k :: k in index ==> TypedEntry(index[k], limits)
  }

  /** A changed collection stays one of its kind. */
  lemma WriteKeepsKind(v: Value, args: Record, env: Service.Env)
    requires Service.Pairs(args) || Service.Names(args)
    ensures var effect := Service.Mutate(Some(v), args, env);
      effect.Write? ==> Service.EntryOf(effect.value, 0).kind == Service.EntryOf(v, 0).kind && !v.Str?
  {
  }

  lemma {:induction false} EvictedTyped(s: Service.State, k: Bytes, j: nat, limits: C.Limits)
    requires Typed(s.index, limits)
    ensures Typed(C.Evicted(s, k, j).index, limits)
    decreases j
  {
    if j > 0 { EvictedTyped(s, k, j - 1, limits); }
  }

  lemma {:induction false} RemovedTyped(s: Service.State, keys: seq<Bytes>, limits: C.Limits)
    requires Typed(s.index, limits)
    ensures Typed(C.RemoveAll(s, keys).index, limits)
    decreases |keys|
  {
    if keys != [] { RemovedTyped(s, keys[..|keys| - 1], limits); }
  }

  /** A store is the store of the specification: its evictions are the only shortest run. */
  lemma StoredIs(s: Service.State, s': Service.State, k: Bytes, v: Value, deadline: nat, charge: nat, j: nat, now: nat,
                 own: Record, env: Service.Env)
    requires C.Stored(s, s', k, Service.EntryOf(v, charge), deadline, j, Service.LimitsOf(env))
    ensures var t := C.Put(s, k, Service.EntryOf(v, charge), deadline, Service.Lru(env));
      Service.StoreValue(s, k, v, deadline, charge, now, own, env)
      == Service.Result(s', DelRecords(C.Reported(t, k, j, now)) + [own])
  {
    C.FewestIs(C.Put(s, k, Service.EntryOf(v, charge), deadline, Service.Lru(env)), k, j, Service.LimitsOf(env));
  }

  lemma StoredTyped(s: Service.State, s': Service.State, k: Bytes, e: C.Entry<Value>, deadline: nat, j: nat,
      limits: C.Limits)
    requires C.Stored(s, s', k, e, deadline, j, limits) && Typed(s.index, limits) && TypedEntry(e, limits)
    ensures Typed(s'.index, limits)
  {
    EvictedTyped(C.Put(s, k, e, deadline, C.LruOn(limits)), k, j, limits);
  }

  /** A string updated in the room of the old one keeps the old charge and evicts nothing. */
  lemma InRoomIs(s: Service.State, s': Service.State, k: Bytes, v: Bytes, deadline: nat, now: nat, own: Record,
      env: Service.Env)
    requires k in s.index && TypedEntry(s.index[k], Service.LimitsOf(env)) && s.index[k].kind.StringKind?
    requires s' == C.Put(s, k, s.index[k].(value := Service.Str(v)), deadline, Service.Lru(env))
    requires C.Within(s', Service.LimitsOf(env))
    ensures Service.StoreValue(s, k, Service.Str(v), deadline, s.index[k].charge, now, own, env) ==
        Service.Result(s', [own])
  {
    assert s.index[k].(value := Service.Str(v)) == Service.EntryOf(Service.Str(v), s.index[k].charge);
    assert C.Evicted(s', k, 0) == s' && C.Reported(s', k, 0, now) == [] && [] + [own] == [own];
    assert Service.Room(s', k, env) == 0;
  }

  /** What the cache promises of a store that it accepts. */
  ghost predicate StoredObject(s: Service.State, s': Service.State, k: Bytes, e: C.Entry<Value>, d: nat, inRoom: bool,
                               reported: seq<Bytes>, j: nat, now: nat, limits: C.Limits) {
    if k in s.index && inRoom && s.index[k].kind.StringKind? && e.kind.StringKind?
    then s' == C.Put(s, k, s.index[k].(value := e.value), d, C.LruOn(limits)) && reported == []
    else C.Stored(s, s', k, e, d, j, limits) && reported == C.Reported(C.Put(s, k, e, d, C.LruOn(limits)), k, j, now)
  }

  /** The charge on record after a store: the new one, or that of the string whose room is used again. */
  ghost predicate Charged(used: nat, charge: nat, s: Service.State, k: Bytes, inRoom: bool) {
    used == charge || (inRoom && k in s.index && used == s.index[k].charge)
  }

  /** Such a store is the store of the specification, for the charge that is then on record. */
  lemma StoredObjectIs(s: Service.State, s': Service.State, k: Bytes, v: Value, charge: nat, d: nat, inRoom: bool,
                       reported: seq<Bytes>, j: nat, now: nat, own: Record, env: Service.Env) returns (used: nat)
    requires StoredObject(s, s', k, Service.EntryOf(v, charge), d, inRoom, reported, j, now, Service.LimitsOf(env))
    requires Typed(s.index, Service.LimitsOf(env)) && Service.Fits(charge, env) && C.Within(s', Service.LimitsOf(env))
    ensures Service.Fits(used, env) && Typed(s'.index, Service.LimitsOf(env)) && Charged(used, charge, s, k, inRoom)
    ensures Service.StoreValue(s, k, v, d, used, now, own, env) == Service.Result(s', DelRecords(reported) + [own])
  {
    var e := Service.EntryOf(v, charge);
    if k in s.index && inRoom && s.index[k].kind.StringKind? && e.kind.StringKind? {
      used := s.index[k].charge;
      InRoomIs(s, s', k, v.text, d, now, own, env);
      assert DelRecords(reported) + [own] == [own];
    } else {
      used := charge;
      StoredIs(s, s', k, v, d, charge, j, now, own, env);
      StoredTyped(s, s', k, e, d, j, Service.LimitsOf(env));
    }
  }

  /** A change in a copy is a store that keeps the deadline. */
  lemma CopyIs(s: Service.State, k: Bytes, v: Value, charge: nat, now: nat, args: Record, env: Service.Env)
    requires !C.Expired(s, k, now) && !Service.InPlace(s, k, args, env) && (k in s.d ==> k in s.index)
    ensures var looked := C.Looked(s, k, now);
      var d := if k in looked.index then C.DeadlineOf(looked, k) else 0;
      Service.Apply(s, k, Service.Write(v), now, charge, args, env)
      == if Service.Fits(charge, env) then Service.StoreValue(looked, k, v, d, charge, now, args, env)
         else Service.Result(s, [])
  {
  }

  /** What the cache promises of a deletion is what the command does. */
  lemma DeleteIs(s: Service.State, s': Service.State, k: Bytes, now: nat, deleted: bool, env: Service.Env)
    requires C.Joint(s, Service.Lru(env)) && Typed(s.index, Service.LimitsOf(env))
    requires deleted == C.Found(s, k, now).Some? && s' == if k in s.index then C.RemoveKey(s, k) else s
    ensures Typed(s'.index, Service.LimitsOf(env))
    ensures Service.Result(s', if deleted then [[DEL, k]] else []) == Service.Execute(s, Service.Del(k), now, 0, env)
  {
  }

  /** So it is for a deadline that is taken away. */
  lemma PersistIs(s: Service.State, s': Service.State, k: Bytes, now: nat, done: bool, env: Service.Env)
    requires C.Joint(s, Service.Lru(env)) && Typed(s.index, Service.LimitsOf(env))
    requires done == (C.Found(s, k, now).Some? && k in s.d)
    requires var looked := C.Looked(s, k, now); s' == if done then looked.(d := looked.d - {k}) else looked
    ensures Typed(s'.index, Service.LimitsOf(env))
    ensures Service.Result(s', if done then [[PERSIST, k]] else [])
            == Service.Execute(s, Service.Persist(k), now, 0, env)
  {
  }

  /** What the cache promises of a new deadline is what the command does. */
  lemma ExpireIs(s: Service.State, s': Service.State, k: Bytes, ttl: nat, now: nat, done: bool, env: Service.Env)
    requires done == C.Found(s, k, now).Some? && Typed(s.index, Service.LimitsOf(env)) &&
        !(ttl > 0 && now + ttl > SIZE_MAX)
    requires ttl != 0 ==> var l := C.Looked(s, k, now); s' == if done then l.(d := l.d[k := now + ttl]) else l
    requires ttl == 0 ==> s' == if k in s.index then C.RemoveKey(s, k) else s
    ensures Typed(s'.index, Service.LimitsOf(env))
    ensures Service.Result(s', if done then [Service.Own(Service.Expire(k, ttl), now)] else [])
            == Service.Execute(s, Service.Expire(k, ttl), now, 0, env)
  {
  }

  lemma LookedTyped(s: Service.State, k: Bytes, now: nat, limits: C.Limits)
    requires Typed(s.index, limits)
    ensures Typed(C.Looked(s, k, now).index, limits)
  {
  }

  class Server {
    const env: Service.Env
    const uuid: Uuid
    const cache: C.Store<Value>
    var log: seq<Record>
    var next: nat
    var transaction: seq<Record>
    var captured: Option<Record>
    ghost var submitted: seq<(nat, Record)>

    ghost predicate Valid()
      reads cache, cache.lru, cache.heap, cache.table
    {
      cache.Valid() && cache.limits == Service.LimitsOf(env) && Typed(cache.index, cache.limits)
    }

    ghost function View(): Outbox.State
      reads this`log, this`next, this`submitted, cache, cache.lru, cache.heap
    {
      Outbox.State(uuid, log, next, cache.View(), submitted)
    }

    /** The state of the cache and the records of the transaction so far. */
    ghost function Done(): Service.Result
      reads this`transaction, cache, cache.lru, cache.heap
    {
      Service.Result(cache.View(), transaction)
    }

    constructor (env: Service.Env, uuid: Uuid, code: Bytes -> nat)
      ensures Valid() && View() == Outbox.State(uuid, [], 0, Service.EmptyState(), []) && this.env == env
      ensures fresh(cache) && fresh(cache.lru) && fresh(cache.heap) && fresh(cache.table)
    {
      this.env, this.uuid := env, uuid;
      cache := new C.Store<Value>(Service.LimitsOf(env), code);
      log, next, transaction, captured, submitted := [], 0, [], None, [];
    }

    /** A record joins the transaction and is captured; a later one takes its place. */
    method Append(r: Record)
      modifies this`transaction, this`captured
      ensures transaction == old(transaction) + [r] && captured == Some(r)
    {
      transaction, captured := transaction + [r], Some(r);
    }

    /** Every eviction is recorded as a deletion. */
    method RecordEvictions(keys: seq<Bytes>)
      modifies this`transaction, this`captured
      ensures transaction == old(transaction) + DelRecords(keys)
    {
      var i := 0;
      assert keys[0..] == keys;
      while i < |keys|
        invariant 0 <= i <= |keys| && transaction + DelRecords(keys[i..]) == old(transaction) + DelRecords(keys)
      {
        assert keys[i..][1..] == keys[i + 1..];
        NextDel(transaction, keys[i], keys[i + 1..]);
        Append([DEL, keys[i]]);
        i := i + 1;
      }
    }

    /** Evictions first, then the command's own record. */
    method Record(reported: seq<Bytes>, own: Record)
      requires transaction == []
      modifies this`transaction, this`captured
      ensures transaction == DelRecords(reported) + [own] && captured == Some(own) == Captured(transaction)
    {
      RecordEvictions(reported);
      Append(own);
    }

    /** An object is stored in the cache; `reported` is what gave way. */
    method StoreInCache(k: Bytes, v: Value, deadline: nat, preserve: bool, inRoom: bool, charge: nat, now: nat,
        ghost own: Record)
      returns (ok: bool, reported: seq<Bytes>, ghost used: nat)
      requires Valid()
      modifies cache, cache.lru, cache.heap, cache.table
      ensures Valid() && ok == Service.Fits(charge, env)
      ensures !ok ==> cache.View() == old(cache.View()) && used == charge
      ensures Charged(used, charge, old(cache.View()), k, inRoom) && (ok ==> Service.Fits(used, env))
      ensures ok ==>
        var s := C.Looked(old(cache.View()), k, now);
        var d := if preserve && k in s.index then C.DeadlineOf(s, k) else deadline;
        Service.Result(cache.View(), DelRecords(reported) + [own]) ==
            Service.StoreValue(s, k, v, d, used, now, own, env)
    {
      ghost var s := C.Looked(cache.View(), k, now);
      LookedTyped(cache.View(), k, now, cache.limits);
      ghost var j;
      ok, reported, j := cache.StoreObject(k, Service.EntryOf(v, charge), deadline, preserve, inRoom, now);
      used := charge;
      if !ok { return; }
      ghost var d := if preserve && k in s.index then C.DeadlineOf(s, k) else deadline;
      used := StoredObjectIs(s, cache.View(), k, v, charge, d, inRoom, reported, j, now, own, env);
    }

    /** An object is stored, with evictions and then the command's own record in the transaction. */
    method Store(k: Bytes, v: Value, deadline: nat, preserve: bool, inRoom: bool, charge: nat, now: nat, own: Record)
      returns (ok: bool, ghost used: nat)
      requires Valid() && transaction == []
      modifies this`transaction, this`captured, cache, cache.lru, cache.heap, cache.table
      ensures Valid() && ok == Service.Fits(charge, env)
      ensures !ok ==> Done() == old(Done()) && captured == old(captured) && used == charge
      ensures Charged(used, charge, old(cache.View()), k, inRoom)
      ensures ok ==> Service.Fits(used, env) && captured == Some(own) == Captured(transaction)
      ensures ok ==>
        var s := C.Looked(old(cache.View()), k, now);
        var d := if preserve && k in s.index then C.DeadlineOf(s, k) else deadline;
        Done() == Service.StoreValue(s, k, v, d, used, now, own, env)
    {
      var reported;
      ok, reported, used := StoreInCache(k, v, deadline, preserve, inRoom, charge, now, own);
      if !ok { return; }
      Record(reported, own);
    }

    /** SET: a string stored, then recorded with its deadline.  `used` is the charge on record afterwards. */
    method ExecuteSet(k: Bytes, v: Bytes, ttl: nat, now: nat, charge: nat, inRoom: bool) returns (ghost used: nat)
      requires Valid() && transaction == []
      modifies this`transaction, this`captured, cache, cache.lru, cache.heap, cache.table
      ensures Valid() && Done() == Service.Execute(old(cache.View()), Service.Set(k, v, ttl), now, used, env)
      ensures Charged(used, charge, old(cache.View()), k, inRoom)
      ensures captured == if transaction == [] then old(captured) else Captured(transaction)
    {
      used := charge;
      if ttl > 0 && now + ttl > SIZE_MAX { return; }
      var deadline := Service.After(ttl, now);
      var ok;
      ok, used := Store(k, Service.Str(v), deadline, false, inRoom, charge, now, Service.SetRecord(k, v, deadline));
    }

    method ExecuteDel(k: Bytes, now: nat)
      requires Valid() && transaction == []
      modifies this`transaction, this`captured, cache, cache.lru, cache.heap, cache.table
      ensures Valid() && Done() == Service.Execute(old(cache.View()), Service.Del(k), now, 0, env)
      ensures captured == if transaction == [] then old(captured) else Captured(transaction)
    {
      var deleted := DeleteInCache(k, now);
      if deleted { Append([DEL, k]); }
    }

    method DeleteInCache(k: Bytes, now: nat) returns (deleted: bool)
      requires Valid()
      modifies cache, cache.lru, cache.heap, cache.table
      ensures Valid()
      ensures Service.Result(cache.View(), if deleted then [[DEL, k]] else [])
              == Service.Execute(old(cache.View()), Service.Del(k), now, 0, env)
    {
      ghost var s := cache.View();
      deleted := cache.Delete(k, now);
      DeleteIs(s, cache.View(), k, now, deleted, env);
    }

    method ExpireInCache(k: Bytes, ttl: nat, now: nat) returns (done: bool)
      requires Valid() && !(ttl > 0 && now + ttl > SIZE_MAX)
      modifies cache, cache.lru, cache.heap, cache.table
      ensures Valid()
      ensures Service.Result(cache.View(), if done then [Service.Own(Service.Expire(k, ttl), now)] else [])
              == Service.Execute(old(cache.View()), Service.Expire(k, ttl), now, 0, env)
    {
      ghost var s := cache.View();
      done := cache.ExpireAt(k, Service.After(ttl, now), now);
      ExpireIs(s, cache.View(), k, ttl, now, done, env);
    }

    method ExecuteExpire(k: Bytes, ttl: nat, now: nat)
      requires Valid() && transaction == []
      modifies this`transaction, this`captured, cache, cache.lru, cache.heap, cache.table
      ensures Valid() && Done() == Service.Execute(old(cache.View()), Service.Expire(k, ttl), now, 0, env)
      ensures captured == if transaction == [] then old(captured) else Captured(transaction)
    {
      if ttl > 0 && now + ttl > SIZE_MAX { return; }
      var done := ExpireInCache(k, ttl, now);
      if done { Append(Service.Own(Service.Expire(k, ttl), now)); }
    }

    method ExecutePersist(k: Bytes, now: nat)
      requires Valid() && transaction == []
      modifies this`transaction, this`captured, cache, cache.lru, cache.heap, cache.table
      ensures Valid() && Done() == Service.Execute(old(cache.View()), Service.Persist(k), now, 0, env)
      ensures captured == if transaction == [] then old(captured) else Captured(transaction)
    {
      var done := PersistInCache(k, now);
      if done { Append([PERSIST, k]); }
    }

    method PersistInCache(k: Bytes, now: nat) returns (done: bool)
      requires Valid()
      modifies cache, cache.lru, cache.heap, cache.table
      ensures Valid()
      ensures Service.Result(cache.View(), if done then [[PERSIST, k]] else [])
              == Service.Execute(old(cache.View()), Service.Persist(k), now, 0, env)
    {
      ghost var s := cache.View();
      done := cache.Persist(k, now);
      PersistIs(s, cache.View(), k, now, done, env);
    }

    method ExecuteRead(k: Bytes, now: nat)
      requires Valid() && transaction == []
      modifies cache, cache.lru, cache.heap, cache.table
      ensures Valid() && Done() == Service.Execute(old(cache.View()), Service.Read(k), now, 0, env)
    {
      LookedTyped(cache.View(), k, now, cache.limits);
      var _ := cache.Get(k, now);
    }

    /** The cache side of a change in place: the object is another one, and charged anew. */
    method RechargeInCache(k: Bytes, v: Value, charge: nat, now: nat, ghost args: Record)
        returns (ok: bool, reported: seq<Bytes>)
      requires Valid() && k in cache.index && !C.Expired(cache.View(), k, now)
      requires Service.EntryOf(v, 0).kind == cache.index[k].kind && !v.Str?
      requires Service.InPlace(cache.View(), k, args, env)
      modifies cache, cache.lru, cache.heap, cache.table
      ensures Valid() && ok == Service.Fits(charge, env)
      ensures Service.Result(cache.View(), if ok then DelRecords(reported) + [args] else [])
              == Service.Apply(old(cache.View()), k, Service.Write(v), now, charge, args, env)
    {
      ghost var s := cache.View();
      OverwrittenTyped(s, k, v, cache.limits);
      cache.Overwrite(k, v);
      ghost var e, d := cache.index[k].(charge := charge, items := Service.EntryOf(v, 0).items), C.DeadlineOf(s, k);
      RecordedEntry(cache.index[k], v, charge);
      ghost var j;
      ok, reported, j := cache.Recharge(k, charge, Service.EntryOf(v, 0).items, now);
      if !ok { return; }
      RechargedIs(s, cache.View(), k, v, e, d, charge, reported, j, now, if d != 0 then now else 0, args, env);
    }

    /** A collection changed where it is, and charged anew. */
    method ChangeInPlace(k: Bytes, v: Value, charge: nat, now: nat, args: Record)
      requires Valid() && transaction == [] && k in cache.index && !C.Expired(cache.View(), k, now)
      requires Service.EntryOf(v, 0).kind == cache.index[k].kind && !v.Str?
      requires Service.InPlace(cache.View(), k, args, env)
      modifies this`transaction, this`captured, cache, cache.lru, cache.heap, cache.table
      ensures Valid() && Done() == Service.Apply(old(cache.View()), k, Service.Write(v), now, charge, args, env)
      ensures captured == if transaction == [] then old(captured) else Captured(transaction)
    {
      var ok, reported := RechargeInCache(k, v, charge, now, args);
      if !ok { return; }
      Record(reported, args);
    }

    /** A collection written, in place or in a copy. */
    method WriteObject(k: Bytes, there: bool, v: Value, charge: nat, now: nat, args: Record)
      requires there == (k in cache.index)
      requires Valid() && transaction == [] && !C.Expired(cache.View(), k, now) && !v.Str?
      requires k in cache.index ==> Service.EntryOf(v, 0).kind == cache.index[k].kind
      modifies this`transaction, this`captured, cache, cache.lru, cache.heap, cache.table
      ensures Valid() && Done() == Service.Apply(old(cache.View()), k, Service.Write(v), now, charge, args, env)
      ensures captured == if transaction == [] then old(captured) else Captured(transaction)
    {
      if there && (!Service.Pairs(args) || (Service.PairCount(args) == 1 && env.maxMemory == 0)) {
        ChangeInPlace(k, v, charge, now, args);
      } else {
        WriteCopy(k, v, charge, now, args);
      }
    }

    /** A collection written in a copy that takes the place of the old one, if there is one. */
    method WriteCopy(k: Bytes, v: Value, charge: nat, now: nat, args: Record)
      requires Valid() && transaction == [] && !C.Expired(cache.View(), k, now)
      requires !Service.InPlace(cache.View(), k, args, env)
      modifies this`transaction, this`captured, cache, cache.lru, cache.heap, cache.table
      ensures Valid() && Done() == Service.Apply(old(cache.View()), k, Service.Write(v), now, charge, args, env)
      ensures captured == if transaction == [] then old(captured) else Captured(transaction)
    {
      CopyIs(cache.View(), k, v, charge, now, args, env);
      var ok;
      ghost var used;
      ok, used := Store(k, v, 0, true, false, charge, now, args);
    }

    /** The object for a change, looked up and used. */
    method Lookup(k: Bytes, now: nat) returns (found: Option<Value>)
      requires Valid()
      modifies cache, cache.lru, cache.heap, cache.table
      ensures Valid() && cache.View() == C.Used(C.Looked(old(cache.View()), k, now), k, Service.Lru(env))
      ensures found == Service.ValueAt(cache.View(), k) && !C.Expired(cache.View(), k, now)
    {
      LookedTyped(cache.View(), k, now, cache.limits);
      found := cache.Get(k, now);
    }

    method EraseObject(k: Bytes, now: nat, args: Record)
      requires Valid() && k in cache.index && transaction == []
      modifies this`transaction, this`captured, cache, cache.lru, cache.heap, cache.table
      ensures Valid() && Done() == Service.Result(C.RemoveKey(old(cache.View()), k), [args])
      ensures captured == Some(args)
    {
      var _ := cache.Delete(k, now);
      Append(args);
    }

    method ApplyEffect(k: Bytes, there: bool, effect: Service.Effect, args: Record, now: nat, charge: nat)
      requires there == (k in cache.index)
      requires Valid() && transaction == [] && !C.Expired(cache.View(), k, now)
      requires effect.Erase? ==> k in cache.index
      requires effect.Write? ==> !effect.value.Str?
      requires effect.Write? && k in cache.index ==> Service.EntryOf(effect.value, 0).kind == cache.index[k].kind
      modifies this`transaction, this`captured, cache, cache.lru, cache.heap, cache.table
      ensures Valid() && Done() == Service.Apply(old(cache.View()), k, effect, now, charge, args, env)
      ensures captured == if transaction == [] then old(captured) else Captured(transaction)
    {
      if effect.Erase? {
        EraseObject(k, now, args);
        return;
      }
      if effect.Write? { WriteObject(k, there, effect.value, charge, now, args); }
    }

    method ExecuteChange(args: Record, now: nat, charge: nat)
      requires Valid() && transaction == [] && (Service.Pairs(args) || Service.Names(args))
      modifies this`transaction, this`captured, cache, cache.lru, cache.heap, cache.table
      ensures Valid() && Done() == Service.ExecuteChange(old(cache.View()), args, now, charge, env)
      ensures captured == if transaction == [] then old(captured) else Captured(transaction)
    {
      if Service.UnreadableScores(args, env) { return; }
      var found := Lookup(args[1], now);
      var effect := Service.Mutate(found, args, env);
      EffectFits(cache.View(), args[1], cache.limits, args, env);
      ApplyEffect(args[1], found.Some?, effect, args, now, charge);
    }

    /** Commands that a client may send. */
    method Execute(c: Service.Command, now: nat, charge: nat, inRoom: bool) returns (ghost used: nat)
      requires Valid() && transaction == [] && !c.Tick?
      modifies this`transaction, this`captured, cache, cache.lru, cache.heap, cache.table
      ensures Valid() && Done() == Service.Execute(old(cache.View()), c, now, used, env)
      ensures if c.Set? then Charged(used, charge, old(cache.View()), c.key, inRoom) else used == charge
      ensures captured == if transaction == [] then old(captured) else Captured(transaction)
    {
      used := charge;
      match c
      case Set(k, v, ttl) => used := ExecuteSet(k, v, ttl, now, charge, inRoom);
      case Del(k) => ExecuteDel(k, now);
      case Expire(k, ttl) => ExecuteExpire(k, ttl, now);
      case Persist(k) => ExecutePersist(k, now);
      case Read(k) => ExecuteRead(k, now);
      case Change(args) =>
        if Service.Pairs(args) || Service.Names(args) { ExecuteChange(args, now, charge); }
    }

    /** The transaction and its marker are logged, and what was captured is submitted. */
    method Commit()
      requires captured.Some?
      modifies this`log, this`next, this`submitted
      ensures View() == Outbox.Committed(old(View()), Done(), captured.value)
    {
      log, next := log + transaction + [Marker(uuid, next + 1)], next + 1;
      submitted := submitted + [(next, captured.value)];
    }

    /**
      A command as a transaction: refused, or executed with its records
      collected, then committed with a marker and submitted.
     */
    method ExecuteWithBarrier(c: Service.Command, now: nat, charge: nat, inRoom: bool, admitted: bool, committed: bool)
      returns (ghost used: nat)
      requires Valid() && !c.Tick?
      modifies this, cache, cache.lru, cache.heap, cache.table
      ensures Valid()
      ensures View() == Outbox.CommandStep(old(View()),
          Outbox.Command(Service.Event(c, now, used), admitted, committed), env)
      ensures if c.Set? then Charged(used, charge, old(cache.View()), c.key, inRoom) else used == charge
    {
      used := charge;
      if Outbox.Writes(c) && (!admitted || next >= SIZE_MAX) { return; }
      ghost var result;
      used, result := Transact(c, now, charge, inRoom, committed);
      StepIs(old(View()), Outbox.Command(Service.Event(c, now, used), admitted, committed), result, env);
    }

    /** Executes a command with a transaction of its own. */
    method Begin(c: Service.Command, now: nat, charge: nat, inRoom: bool)
      returns (ghost used: nat, ghost result: Service.Result)
      requires Valid() && !c.Tick?
      modifies this`transaction, this`captured, cache, cache.lru, cache.heap, cache.table
      ensures Valid() && result == Service.Execute(old(cache.View()), c, now, used, env)
      ensures if c.Set? then Charged(used, charge, old(cache.View()), c.key, inRoom) else used == charge
      ensures result == Done() && captured == Captured(result.records)
      ensures View() == old(View()).(cache := result.state)
    {
      transaction, captured := [], None;
      used := Execute(c, now, charge, inRoom);
      result := Done();
    }

    /** Executes a command, and commits its records if there are any. */
    method Transact(c: Service.Command, now: nat, charge: nat, inRoom: bool, committed: bool)
      returns (ghost used: nat, ghost result: Service.Result)
      requires Valid() && !c.Tick?
      modifies this, cache, cache.lru, cache.heap, cache.table
      ensures Valid() && result == Service.Execute(old(cache.View()), c, now, used, env)
      ensures if c.Set? then Charged(used, charge, old(cache.View()), c.key, inRoom) else used == charge
      ensures View() == if Captured(result.records).Some? && committed
                        then Outbox.Committed(old(View()), result, Captured(result.records).value)
                        else old(View()).(cache := result.state)
    {
      used, result := Begin(c, now, charge, inRoom);
      if captured.None? || !committed { return; }
      CommitsLater(old(View()), View(), result, captured.value);
      Commit();
    }

    /** Active expiry leaves no record. */
    method Maintain(budget: nat, rehashBudget: nat, now: nat) returns (ghost removed: seq<Bytes>)
      requires Valid()
      modifies cache, cache.lru, cache.heap, cache.table
      ensures Valid() && |removed| <= budget && Service.OnlyExpired(old(cache.View()), Service.Tick(removed), now)
      ensures cache.View() == Service.Execute(old(cache.View()), Service.Tick(removed), now, 0, env).state
    {
      ghost var s := cache.View();
      var gone := cache.Maintain(budget, rehashBudget, now);
      removed := gone;
      RemovedTyped(s, removed, cache.limits);
    }
  }

  lemma CommitsLater(before: Outbox.State, after: Outbox.State, result: Service.Result, own: Record)
    requires after == before.(cache := result.state)
    ensures Outbox.Committed(after, result, own) == Outbox.Committed(before, result, own)
  {
  }

  lemma RecordedEntry(e: C.Entry<Value>, v: Value, charge: nat)
    requires e.value == v && e.kind == Service.EntryOf(v, 0).kind
    ensures e.(charge := charge, items := Service.EntryOf(v, 0).items) == Service.EntryOf(v, charge)
  {
  }

  lemma OverwrittenPut(s: Service.State, k: Bytes, v: Value, e: C.Entry<Value>, d: nat, lru: bool)
    requires k in s.index
    ensures C.Put(Overwritten(s, k, v), k, e, d, lru) == C.Put(s, k, e, d, lru)
  {
  }

  lemma OverwrittenStored(s: Service.State, s': Service.State, k: Bytes, v: Value, e: C.Entry<Value>, d: nat, j: nat,
      limits: C.Limits)
    requires k in s.index && C.Stored(Overwritten(s, k, v), s', k, e, d, j, limits)
    ensures C.Stored(s, s', k, e, d, j, limits)
  {
    OverwrittenPut(s, k, v, e, d, C.LruOn(limits));
  }

  /** The object of a key is another one; what is recorded about it stays. */
  function Overwritten(s: Service.State, k: Bytes, v: Value): Service.State
    requires k in s.index
  {
    s.(index := s.index[k := s.index[k].(value := v)])
  }

  lemma OverwrittenTyped(s: Service.State, k: Bytes, v: Value, limits: C.Limits)
    requires k in s.index && Typed(s.index, limits) && Service.EntryOf(v, 0).kind == s.index[k].kind && !v.Str?
    ensures Typed(Overwritten(s, k, v).index, limits)
  {
  }

  /** An object changed in place and charged anew is stored as the specification stores it. */
  lemma RechargedIs(s: Service.State, s': Service.State, k: Bytes, v: Value, e: C.Entry<Value>, d: nat, charge: nat,
                    reported: seq<Bytes>, j: nat, now: nat, time: nat, args: Record, env: Service.Env)
    requires k in s.index && Typed(s.index, Service.LimitsOf(env)) && Service.Fits(charge, env)
    requires Service.InPlace(s, k, args, env) && time == Service.StoreTime(s, k, args, now, env)
    requires e == Service.EntryOf(v, charge) && d == C.DeadlineOf(s, k)
    requires C.Stored(Overwritten(s, k, v), s', k, e, d, j, Service.LimitsOf(env))
    requires reported == C.Reported(C.Put(Overwritten(s, k, v), k, e, d, Service.Lru(env)), k, j, time)
    ensures Typed(s'.index, Service.LimitsOf(env))
    ensures Service.Apply(s, k, Service.Write(v), now, charge, args, env) ==
        Service.Result(s', DelRecords(reported) + [args])
  {
    OverwrittenPut(s, k, v, e, d, Service.Lru(env));
    OverwrittenStored(s, s', k, v, e, d, j, Service.LimitsOf(env));
    StoredIs(s, s', k, v, d, charge, j, time, args, env);
    StoredTyped(s, s', k, e, d, j, Service.LimitsOf(env));
  }

  /** What a change does to an object suits the entry that holds it. */
  lemma EffectFits(s: Service.State, k: Bytes, limits: C.Limits, args: Record, env: Service.Env)
    requires (Service.Pairs(args) || Service.Names(args)) && Typed(s.index, limits)
    ensures var effect := Service.Mutate(Service.ValueAt(s, k), args, env);
      && (effect.Erase? ==> k in s.index) && (effect.Write? ==> !effect.value.Str?)
      && (effect.Write? && k in s.index ==> Service.EntryOf(effect.value, 0).kind == s.index[k].kind)
  {
    if k in s.index {
      WriteKeepsKind(s.index[k].value, args, env);
      assert TypedEntry(s.index[k], limits);
    } else {
      WriteMakesCollection(args, env);
    }
  }

  lemma WriteMakesCollection(args: Record, env: Service.Env)
    requires Service.Pairs(args) || Service.Names(args)
    ensures var effect := Service.Mutate(None, args, env); !effect.Erase? && (effect.Write? ==> !effect.value.Str?)
  {
  }

  /** A command that is not refused, given its result. */
  lemma StepIs(s: Outbox.State, step: Outbox.Step, result: Service.Result, env: Service.Env)
    requires step.Command? && !Outbox.Refused(s, step) && Outbox.Executed(s, step.event, env) == result
    ensures Outbox.CommandStep(s, step, env)
            == if Captured(result.records).Some? && step.committed
               then Outbox.Committed(s, result, Captured(result.records).value) else s.(cache := result.state)
  {
  }

  lemma NextDel(done: seq<Record>, k: Bytes, rest: seq<Bytes>)
    ensures (done + [[DEL, k]]) + DelRecords(rest) == done + DelRecords([k] + rest)
  {
    assert ([k] + rest)[1..] == rest;
  }
}
