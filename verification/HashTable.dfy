/**
  The chained hash table with incremental rehash that indexes the cache, hash
  objects and ordered sets.  The hash of a key is an arbitrary function; the
  number of slots is a power of two, so that masking a code is taking it modulo
  the slots.
 */
module HashTable {
  import opened Bytes

  datatype Node<V> = Node(key: Bytes, code: nat, payload: V)

  /** A bucket array: one chain per slot. */
  type Table<V> = seq<seq<Node<V>>>

  const INITIAL_SLOTS: nat := 16

  // ----------------------------------------------------------- nodes of a table

  ghost function Bag<V>(t: Table<V>): multiset<Node<V>> {
    if t == [] then multiset{} else multiset(t[0]) + Bag(t[1..])
  }

  lemma {:induction false} BagUpdate<V>(t: Table<V>, b: nat, chain: seq<Node<V>>)
    requires b < |t|
    ensures Bag(t[b := chain]) == Bag(t) - multiset(t[b]) + multiset(chain) && multiset(t[b]) <= Bag(t)
  {
    if b == 0 {
      assert t[0 := chain][1..] == t[1..];
    } else {
      assert t[b := chain][1..] == t[1..][b - 1 := chain];
      BagUpdate(t[1..], b - 1, chain);
    }
  }

  lemma {:induction false} InBag<V>(t: Table<V>, b: nat, i: nat)
    requires b < |t| && i < |t[b]|
    ensures t[b][i] in Bag(t)
  {
    if b > 0 { InBag(t[1..], b - 1, i); }
  }

  lemma {:induction false} FromBag<V>(t: Table<V>, n: Node<V>) returns (b: nat, i: nat)
    requires n in Bag(t)
    ensures b < |t| && i < |t[b]| && t[b][i] == n
  {
    if n in multiset(t[0]) {
      b := 0;
      i :| 0 <= i < |t[0]| && t[0][i] == n;
    } else {
      b, i := FromBag(t[1..], n);
      b := b + 1;
    }
  }

  function Empty<V>(slots: nat): (t: Table<V>)
    ensures |t| == slots && forall b :: 0 <= b < slots ==> t[b] == []
  {
    seq(slots, _ => [])
  }

  lemma {:induction false} EmptyBag<V>(t: Table<V>)
    requires forall b :: 0 <= b < |t| ==> t[b] == []
    ensures Bag(t) == multiset{}
  {
    if t != [] { EmptyBag(t[1..]); }
  }

  /** Every node lies in the slot that its code selects. */
  ghost predicate Placed<V>(t: Table<V>, code: Bytes -> nat) {
    forall b, i :: 0 <= b < |t| && 0 <= i < |t[b]| ==> t[b][i].code == code(t[b][i].key) && t[b][i].code % |t| == b
  }

  /** The nodes are entries of a map, each once. */
  ghost predicate Embeds<V>(bag: multiset<Node<V>>, m: map<Bytes, V>) {
    && (forall n :: n in bag ==> bag[n] == 1 && n.key in m && m[n.key] == n.payload)
    && (forall n, n' :: n in bag && n' in bag && n.key == n'.key ==> n == n')
  }

  /** The nodes are exactly the entries of a map, each once. */
  ghost predicate Represents<V>(bag: multiset<Node<V>>, m: map<Bytes, V>) { Embeds(bag, m) && |bag| == |m| }

  ghost predicate HasKey<V>(bag: multiset<Node<V>>, k: Bytes) { exists n :: n in bag && n.key == k }

  ghost predicate Counted<V>(bag: multiset<Node<V>>, count: nat, m: map<Bytes, V>) {
    count == |bag| && Represents(bag, m)
  }

  lemma CountedAdd<V>(bag: multiset<Node<V>>, count: nat, m: map<Bytes, V>, n: Node<V>)
    requires Counted(bag, count, m) && n.key !in m
    ensures Counted(bag + multiset{n}, count + 1, m[n.key := n.payload])
  {
    RepresentsAdd(bag, m, n);
  }

  lemma CountedRemove<V>(bag: multiset<Node<V>>, count: nat, m: map<Bytes, V>, n: Node<V>)
    requires Counted(bag, count, m) && n in bag
    ensures count > 0 && Counted(bag - multiset{n}, count - 1, m - {n.key}) && n.key in m && m[n.key] == n.payload
  {
    RepresentsRemove(bag, m, n);
  }

  lemma EmbedsRemove<V>(bag: multiset<Node<V>>, m: map<Bytes, V>, n: Node<V>)
    requires Embeds(bag, m) && n in bag
    ensures Embeds(bag - multiset{n}, m - {n.key})
  {
    assert n !in bag - multiset{n};
  }

  lemma {:induction false} EmbedsSize<V>(bag: multiset<Node<V>>, m: map<Bytes, V>)
    requires Embeds(bag, m)
    ensures |bag| <= |m|
    decreases |bag|
  {
    if n :| n in bag {
      EmbedsRemove(bag, m, n);
      OneKeyLess(m, n.key);
      EmbedsSize(bag - multiset{n}, m - {n.key});
    }
  }

  /** As many nodes as keys: every key has its node. */
  lemma RepresentsCovers<V>(bag: multiset<Node<V>>, m: map<Bytes, V>, k: Bytes)
    requires Represents(bag, m) && k in m
    ensures HasKey(bag, k)
  {
    OneKeyLess(m, k);
    if forall n :: n in bag ==> n.key != k {
      EmbedsSize(bag, m - {k});
    }
  }

  lemma AbsentKey<V>(bag: multiset<Node<V>>, count: nat, m: map<Bytes, V>, key: Bytes)
    requires Counted(bag, count, m) && !HasKey(bag, key)
    ensures key !in m && m - {key} == m
  {
    if key in m { RepresentsCovers(bag, m, key); }
  }

  lemma RepresentsAdd<V>(bag: multiset<Node<V>>, m: map<Bytes, V>, n: Node<V>)
    requires Represents(bag, m) && n.key !in m
    ensures Represents(bag + multiset{n}, m[n.key := n.payload])
  {
    var bag', m' := bag + multiset{n}, m[n.key := n.payload];
    assert n !in bag;
    forall x | x in bag' ensures bag'[x] == 1 && x.key in m' && m'[x.key] == x.payload {
      assert x == n || x in bag;
    }
    OneKeyLess(m', n.key);
    assert m' - {n.key} == m;
  }

  lemma RepresentsRemove<V>(bag: multiset<Node<V>>, m: map<Bytes, V>, n: Node<V>)
    requires Represents(bag, m) && n in bag
    ensures Represents(bag - multiset{n}, m - {n.key})
  {
    EmbedsRemove(bag, m, n);
    OneKeyLess(m, n.key);
  }

  /** Slot counts: doublings of the initial one. */
  predicate Doubled(slots: nat) {
    slots == INITIAL_SLOTS || (slots > INITIAL_SLOTS && slots % 2 == 0 && Doubled(slots / 2))
  }

  /** A node pushed onto the chain of its slot. */
  function Push<V>(t: Table<V>, n: Node<V>): Table<V>
    requires t != []
  {
    var b := n.code % |t|;
    t[b := [n] + t[b]]
  }

  lemma PushKeeps<V>(t: Table<V>, n: Node<V>, code: Bytes -> nat)
    requires t != [] && Placed(t, code) && n.code == code(n.key)
    ensures Placed(Push(t, n), code) && Bag(Push(t, n)) == Bag(t) + multiset{n} && |Push(t, n)| == |t|
  {
    var b := n.code % |t|;
    BagUpdate(t, b, [n] + t[b]);
    assert multiset([n] + t[b]) == multiset{n} + multiset(t[b]);
    PushPlaces(t, n, code);
  }

  lemma PushPlaces<V>(t: Table<V>, n: Node<V>, code: Bytes -> nat)
    requires t != [] && Placed(t, code) && n.code == code(n.key)
    ensures Placed(Push(t, n), code)
  {
    var b := n.code % |t|;
    var t': Table<V> := Push(t, n);
    forall c, i | 0 <= c < |t'| && 0 <= i < |t'[c]|
        ensures t'[c][i].code == code(t'[c][i].key) && t'[c][i].code % |t'| == c {
      if c == b && i > 0 { assert t'[c][i] == t[c][i - 1]; }
    }
  }

  /** The chain of a slot without its i-th node. */
  function Unlink<V>(t: Table<V>, b: nat, i: nat): Table<V>
    requires b < |t| && i < |t[b]|
  {
    t[b := t[b][..i] + t[b][i + 1..]]
  }

  /** One table is another one without a certain node. */
  ghost predicate Unlinked<V>(t: Table<V>, t': Table<V>, n: Node<V>) {
    exists b, i :: 0 <= b < |t| && 0 <= i < |t[b]| && t[b][i] == n && t' == Unlink(t, b, i)
  }

  lemma UnlinkPlaced<V>(t: Table<V>, b: nat, i: nat, code: Bytes -> nat)
    requires b < |t| && i < |t[b]| && Placed(t, code)
    ensures Placed(Unlink(t, b, i), code)
  {
    var t': Table<V> := Unlink(t, b, i);
    forall c, j | 0 <= c < |t'| && 0 <= j < |t'[c]|
        ensures t'[c][j].code == code(t'[c][j].key) && t'[c][j].code % |t'| == c {
      if c == b { assert t'[c][j] == t[c][if j < i then j else j + 1]; }
    }
  }

  lemma ChainWithout<V>(chain: seq<Node<V>>, i: nat)
    requires i < |chain|
    ensures multiset(chain) == multiset(chain[..i] + chain[i + 1..]) + multiset{chain[i]}
  {
    assert chain == chain[..i] + [chain[i]] + chain[i + 1..];
  }

  lemma UnlinkBag<V>(t: Table<V>, b: nat, i: nat)
    requires b < |t| && i < |t[b]|
    ensures t[b][i] in Bag(t) && Bag(Unlink(t, b, i)) == Bag(t) - multiset{t[b][i]}
  {
    InBag(t, b, i);
    BagUpdate(t, b, t[b][..i] + t[b][i + 1..]);
    ChainWithout(t[b], i);
  }

  /** A key that is nowhere in its own chain is nowhere in the table. */
  lemma NotInChain<V>(t: Table<V>, key: Bytes, code: Bytes -> nat)
    requires Placed(t, code)
    requires t != [] ==> var b := code(key) % |t|; forall i :: 0 <= i < |t[b]| ==> t[b][i].key != key
    ensures !HasKey(Bag(t), key)
  {
    if HasKey(Bag(t), key) {
      var n :| n in Bag(t) && n.key == key;
      var b, i := FromBag(t, n);
    }
  }

  /** Exactly one of two tables has lost a node, the other is as it was. */
  ghost predicate OneUnlinked<V>(t0: Table<V>, t1: Table<V>, t0': Table<V>, t1': Table<V>, n: Node<V>) {
    (Unlinked(t0, t0', n) && t1' == t1) || (t0' == t0 && Unlinked(t1, t1', n))
  }

  lemma HasKeyEither<V>(a: multiset<Node<V>>, b: multiset<Node<V>>, k: Bytes)
    requires HasKey(a + b, k)
    ensures HasKey(a, k) || HasKey(b, k)
  {
    var x :| x in a + b && x.key == k;
    assert x in a || x in b;
  }

  /** One node has given way to another one. */
  ghost predicate Swapped<V>(bag: multiset<Node<V>>, bag': multiset<Node<V>>, n: Node<V>, n': Node<V>) {
    n in bag && bag' == bag - multiset{n} + multiset{n'}
  }

  function SetAt<V>(t: Table<V>, b: nat, i: nat, n: Node<V>): Table<V>
    requires b < |t| && i < |t[b]|
  {
    t[b := t[b][i := n]]
  }

  lemma SetAtPlaces<V>(t: Table<V>, b: nat, i: nat, n: Node<V>, code: Bytes -> nat)
    requires b < |t| && i < |t[b]| && Placed(t, code) && n.key == t[b][i].key && n.code == t[b][i].code
    ensures Placed(SetAt(t, b, i, n), code)
  {
  }

  lemma SetAtBag<V>(t: Table<V>, b: nat, i: nat, n: Node<V>)
    requires b < |t| && i < |t[b]|
    ensures Swapped(Bag(t), Bag(SetAt(t, b, i, n)), t[b][i], n)
  {
    InBag(t, b, i);
    BagUpdate(t, b, t[b][i := n]);
    SwapInside(Bag(t), multiset(t[b]), multiset(t[b][i := n]), t[b][i], n);
  }

  lemma SwapInside<V>(bag: multiset<Node<V>>, chain: multiset<Node<V>>, chain': multiset<Node<V>>, n: Node<V>,
      n': Node<V>)
    requires chain <= bag && n in chain && chain' == chain - multiset{n} + multiset{n'}
    ensures bag - chain + chain' == bag - multiset{n} + multiset{n'}
  {
  }

  /** The swap in one table is one in both together. */
  lemma SwappedEither<V>(a: multiset<Node<V>>, a': multiset<Node<V>>, b: multiset<Node<V>>, n: Node<V>, n': Node<V>)
    requires Swapped(a, a', n, n')
    ensures Swapped(a + b, a' + b, n, n') && Swapped(b + a, b + a', n, n')
  {
    assert a' + b == (a + b) - multiset{n} + multiset{n'};
  }

  /** Nodes with one payload changed are the entries of the map with that key changed. */
  lemma CountedChange<V>(bag: multiset<Node<V>>, bag': multiset<Node<V>>, count: nat, m: map<Bytes, V>, n: Node<V>,
      n': Node<V>)
    requires Counted(bag, count, m) && Swapped(bag, bag', n, n') && n'.key == n.key
    ensures Counted(bag', count, m[n.key := n'.payload])
  {
    CountedRemove(bag, count, m, n);
    CountedAdd(bag - multiset{n}, count - 1, m - {n.key}, n');
    assert (m - {n.key})[n.key := n'.payload] == m[n.key := n'.payload];
  }

  class HashTable<V> {
    const code: Bytes -> nat
    var t0: Table<V>
    var t1: Table<V>
    var count: nat
    var rehash: Option<nat>
    ghost var m: map<Bytes, V>

    ghost function Nodes(): multiset<Node<V>>
      reads this`t0, this`t1
    {
      Bag(t0) + Bag(t1)
    }

    /** Both tables, and how far the rehash has come: all buckets behind it are empty. */
    ghost predicate Shape()
      reads this`t0, this`t1, this`rehash
    {
      && Doubled(|t0|) && Placed(t0, code) && Placed(t1, code)
      && (rehash.None? ==> t1 == [])
      && (rehash.Some? ==>
            |t1| == 2 * |t0| && rehash.value <= |t0| && forall b :: 0 <= b < rehash.value ==> t0[b] == [])
    }

    ghost predicate Valid()
      reads this
    {
      Shape() && (rehash.Some? ==> rehash.value < |t0|) && Counted(Nodes(), count, m)
    }

    constructor (code: Bytes -> nat)
      ensures Valid() && m == map[] && this.code == code
    {
      this.code := code;
      t0, t1, count, rehash, m := Empty(INITIAL_SLOTS), [], 0, None, map[];
      new;
      EmptyBag(t0);
    }

    /** The node of a key in one table. */
    method FindInTable(t: Table<V>, key: Bytes, hash: nat) returns (found: Option<Node<V>>)
      requires Placed(t, code) && hash == code(key)
      ensures found.Some? ==> found.value in Bag(t) && found.value.key == key
      ensures found.None? ==> !HasKey(Bag(t), key)
    {
      if |t| == 0 {
        NotInChain(t, key, code);
        return None;
      }
      var b := hash % |t|;
      var i := 0;
      while i < |t[b]|
        invariant 0 <= i <= |t[b]| && forall j :: 0 <= j < i ==> t[b][j].key != key
      {
        if t[b][i].code == hash && t[b][i].key == key {
          InBag(t, b, i);
          return Some(t[b][i]);
        }
        i := i + 1;
      }
      NotInChain(t, key, code);
      return None;
    }

    /** Looks in the first table, and while rehashing in the second one too. */
    method Find(key: Bytes) returns (found: Option<V>)
      requires Valid()
      ensures found == if key in m then Some(m[key]) else None
    {
      var n := FindInTable(t0, key, code(key));
      if n.None? && rehash.Some? {
        n := FindInTable(t1, key, code(key));
      }
      if n.None? {
        found := None;
        if key in m {
          RepresentsCovers(Nodes(), m, key);
          HasKeyEither(Bag(t0), Bag(t1), key);
        }
      } else {
        assert n.value in Nodes();
        found := Some(n.value.payload);
      }
    }

    /** Starts a rehash into twice the slots once three quarters would be exceeded. */
    method MaybeExpand()
      requires Valid()
      modifies this`t1, this`rehash
      ensures Valid() && t0 == old(t0) && Nodes() == old(Nodes())
      ensures rehash.Some? <==> old(rehash).Some? || count + 1 > |t0| - |t0| / 4
    {
      if rehash.Some? { return; }
      var threshold := |t0| - |t0| / 4;
      if count + 1 <= threshold { return; }
      t1 := Empty(2 * |t0|);
      EmptyBag(t1);
      rehash := Some(0);
    }

    /** A new node at the head of its chain, in the second table while rehashing. */
    method Link(n: Node<V>)
      requires Shape() && n.code == code(n.key)
      modifies this`t0, this`t1
      ensures Shape() && |t0| == |old(t0)| && Nodes() == old(Nodes()) + multiset{n}
    {
      if rehash.Some? {
        PushKeeps(t1, n, code);
        t1 := Push(t1, n);
      } else {
        PushKeeps(t0, n, code);
        t0 := Push(t0, n);
      }
    }

    method Insert(key: Bytes, payload: V) returns (ok: bool)
      requires Valid()
      modifies this`t0, this`t1, this`count, this`rehash, this`m
      ensures Valid() && ok == (key !in old(m)) && m == if ok then old(m)[key := payload] else old(m)
    {
      var found := Find(key);
      ok := found.None?;
      if !ok { return; }
      MaybeExpand();
      Add(Node(key, code(key), payload));
    }

    /** A node for a new key. */
    method Add(n: Node<V>)
      requires Valid() && n.code == code(n.key) && n.key !in m
      modifies this`t0, this`t1, this`count, this`m
      ensures Valid() && m == old(m)[n.key := n.payload]
    {
      CountedAdd(Nodes(), count, m, n);
      Link(n);
      count, m := count + 1, m[n.key := n.payload];
    }

    /** The number of nodes is the number of keys. */
    lemma Size()
      requires Valid()
      ensures count == |m|
    {
    }

    /** Gives the node of a key another payload, where it is. */
    method SetPayload(key: Bytes, payload: V)
      requires Valid() && key in m
      modifies this`t0, this`t1, this`m
      ensures Valid() && rehash == old(rehash) && m == old(m)[key := payload]
    {
      ghost var n := SetInEither(key, payload);
      CountedChange(old(Nodes()), Nodes(), count, m, n, n.(payload := payload));
      m := m[key := payload];
    }

    method SetInEither(key: Bytes, payload: V) returns (ghost n: Node<V>)
      requires Valid() && key in m
      modifies this`t0, this`t1
      ensures Shape() && |t0| == |old(t0)| && n.key == key
      ensures Swapped(old(Nodes()), Nodes(), n, n.(payload := payload))
    {
      var t, done;
      t, done, n := SetIn(t0, key, payload);
      if done {
        SwappedEither(Bag(t0), Bag(t), Bag(t1), n, n.(payload := payload));
        t0 := t;
        return;
      }
      RepresentsCovers(Nodes(), m, key);
      HasKeyEither(Bag(t0), Bag(t1), key);
      n := SetInSecond(key, payload);
    }

    method SetInSecond(key: Bytes, payload: V) returns (ghost n: Node<V>)
      requires Shape() && HasKey(Bag(t1), key)
      modifies this`t1
      ensures Shape() && n.key == key && Swapped(old(Nodes()), Nodes(), n, n.(payload := payload))
    {
      var t, done;
      t, done, n := SetIn(t1, key, payload);
      SwappedEither(Bag(t1), Bag(t), Bag(t0), n, n.(payload := payload));
      t1 := t;
    }

    /** The same in one table. */
    method SetIn(t: Table<V>, key: Bytes, payload: V) returns (t': Table<V>, done: bool, ghost n: Node<V>)
      requires Placed(t, code)
      ensures |t'| == |t| && Placed(t', code) && forall b :: 0 <= b < |t| && t[b] == [] ==> t'[b] == []
      ensures !done ==> t' == t && !HasKey(Bag(t), key)
      ensures done ==> n.key == key && Swapped(Bag(t), Bag(t'), n, n.(payload := payload))
    {
      t', done, n := t, false, Node(key, 0, payload);
      if |t| == 0 {
        NotInChain(t, key, code);
        return;
      }
      var b := code(key) % |t|;
      var i := 0;
      while i < |t[b]| && t[b][i].key != key
        invariant 0 <= i <= |t[b]| && forall j :: 0 <= j < i ==> t[b][j].key != key
      {
        i := i + 1;
      }
      if i == |t[b]| {
        NotInChain(t, key, code);
        return;
      }
      n := t[b][i];
      SetAtPlaces(t, b, i, n.(payload := payload), code);
      SetAtBag(t, b, i, n.(payload := payload));
      t', done := SetAt(t, b, i, t[b][i].(payload := payload)), true;
    }

    /** Takes a key's node out of one table. */
    method UnlinkFrom(t: Table<V>, key: Bytes) returns (t': Table<V>, target: Option<Node<V>>)
      requires Placed(t, code)
      ensures |t'| == |t| && Placed(t', code) && forall b :: 0 <= b < |t| && t[b] == [] ==> t'[b] == []
      ensures target.None? ==> t' == t && !HasKey(Bag(t), key)
      ensures target.Some? ==>
        target.value in Bag(t) && target.value.key == key && Bag(t') == Bag(t) - multiset{target.value} &&
        Unlinked(t, t', target.value)
    {
      t' := t;
      if |t| == 0 {
        NotInChain(t, key, code);
        return t, None;
      }
      var b := code(key) % |t|;
      var i := 0;
      while i < |t[b]| && t[b][i].key != key
        invariant 0 <= i <= |t[b]| && forall j :: 0 <= j < i ==> t[b][j].key != key
      {
        i := i + 1;
      }
      if i < |t[b]| {
        UnlinkPlaced(t, b, i, code);
        UnlinkBag(t, b, i);
        return Unlink(t, b, i), Some(t[b][i]);
      }
      NotInChain(t, key, code);
      return t, None;
    }

    /** Takes a key's node out of whichever table holds it. */
    method Detach(key: Bytes) returns (target: Option<Node<V>>)
      requires Shape()
      modifies this`t0, this`t1
      ensures Shape() && |t0| == |old(t0)|
      ensures target.None? ==> Nodes() == old(Nodes()) && !HasKey(Nodes(), key)
      ensures target.Some? ==>
        target.value in old(Nodes()) && target.value.key == key && Nodes() == old(Nodes()) - multiset{target.value}
      ensures target.Some? ==> OneUnlinked(old(t0), old(t1), t0, t1, target.value)
    {
      var t;
      t, target := UnlinkFrom(t0, key);
      if target.Some? {
        TakenFromEither(Bag(t0), Bag(t1), target.value);
        t0 := t;
        return;
      }
      t, target := UnlinkFrom(t1, key);
      if target.None? {
        if HasKey(Nodes(), key) { HasKeyEither(Bag(t0), Bag(t1), key); }
        return;
      }
      TakenFromEither(Bag(t0), Bag(t1), target.value);
      t1 := t;
    }

    /** Removes a key; `gone` is the node that held it. */
    method Remove(key: Bytes) returns (removed: Option<V>, ghost gone: Option<Node<V>>)
      requires Valid()
      modifies this`t0, this`t1, this`count, this`m
      ensures Valid() && rehash == old(rehash) && m == old(m) - {key}
      ensures removed == if key in old(m) then Some(old(m)[key]) else None
      ensures gone.None? <==> key !in old(m)
      ensures gone.Some? ==> gone.value in old(Nodes()) && gone.value.key == key
      ensures gone.Some? ==> Nodes() == old(Nodes()) - multiset{gone.value}
      ensures gone.Some? ==> OneUnlinked(old(t0), old(t1), t0, t1, gone.value)
    {
      ghost var was := Nodes();
      var target := Detach(key);
      gone := target;
      if target.None? {
        AbsentKey(was, count, m, key);
        return None, None;
      }
      removed := Some(target.value.payload);
      Forget(target.value, was);
    }

    method Forget(n: Node<V>, ghost was: multiset<Node<V>>)
      requires Shape() && (rehash.Some? ==> rehash.value < |t0|)
      requires Counted(was, count, m) && n in was && Nodes() == was - multiset{n}
      modifies this`count, this`m
      ensures Valid() && n.key in old(m) && old(m)[n.key] == n.payload && m == old(m) - {n.key}
    {
      CountedRemove(was, count, m, n);
      count, m := count - 1, m - {n.key};
    }

    /** Pushes the nodes of a chain one by one, each onto the chain of its slot. */
    method PushAll(t: Table<V>, chain: seq<Node<V>>) returns (t': Table<V>)
      requires t != [] && Placed(t, code) && forall i :: 0 <= i < |chain| ==> chain[i].code == code(chain[i].key)
      ensures |t'| == |t| && Placed(t', code) && Bag(t') == Bag(t) + multiset(chain)
    {
      t' := t;
      var i := 0;
      while i < |chain|
        invariant 0 <= i <= |chain| && |t'| == |t| && Placed(t', code)
        invariant Bag(t') == Bag(t) + multiset(chain[..i])
      {
        PushKeeps(t', chain[i], code);
        assert chain[..i + 1] == chain[..i] + [chain[i]];
        t' := Push(t', chain[i]);
        i := i + 1;
      }
      assert chain[..|chain|] == chain;
    }

    /** Moves one bucket of the first table into the second one. */
    method MoveBucket(b: nat)
      requires Shape() && rehash == Some(b) && b < |t0|
      modifies this`t0, this`t1, this`rehash
      ensures Shape() && rehash == Some(b + 1) && |t0| == |old(t0)| && Nodes() == old(Nodes())
    {
      var chain := t0[b];
      BagUpdate(t0, b, []);
      UnplacedBucket(t0, b, code);
      MovedBag(Bag(t0), multiset(chain), Bag(t1));
      var t := PushAll(t1, chain);
      t0, t1, rehash := t0[b := []], t, Some(b + 1);
    }

    /** When the first table is used up, the second one takes its place. */
    method Finish()
      requires Shape() && rehash == Some(|t0|)
      modifies this`t0, this`t1, this`rehash
      ensures Shape() && rehash == None && Nodes() == old(Nodes()) && |t0| == |old(t1)|
    {
      EmptyBag(t0);
      DoubledOnce(|t0|);
      t0, t1, rehash := t1, [], None;
      assert Nodes() == Bag(t0) + multiset{};
    }

    /** Passes buckets until the budget for used ones is spent. */
    method PassBuckets(budget: nat) returns (moved: nat, ghost visited: nat)
      requires Shape() && rehash.Some?
      modifies this`t0, this`t1, this`rehash
      ensures Shape() && rehash.Some? && |t0| == |old(t0)| && Nodes() == old(Nodes())
      ensures moved <= budget && visited <= 11 * budget && rehash.value == old(rehash).value + visited
      ensures budget > 0 && old(rehash).value < |t0| ==> visited > 0
    {
      moved, visited := 0, 0;
      var empty: nat := if budget > SIZE_MAX / 10 then SIZE_MAX else budget * 10;
      var left := budget;
      ghost var first := empty;
      while left > 0 && rehash.value < |t0|
        invariant Shape() && rehash.Some? && |t0| == |old(t0)| && Nodes() == old(Nodes())
        invariant 0 <= left <= budget && empty <= first && moved == budget - left
        invariant visited == (budget - left) + (first - empty) && rehash.value == old(rehash).value + visited
        decreases |t0| - rehash.value
      {
        var b := rehash.value;
        visited := visited + 1;
        if t0[b] == [] && empty > 0 {
          rehash := Some(b + 1);
          empty := empty - 1;
        } else {
          MoveBucket(b);
          left, moved := left - 1, moved + 1;
        }
      }
    }

    /** At most `budget` buckets in use and ten times as many empty ones are passed. */
    method RehashStep(budget: nat) returns (moved: nat, ghost visited: nat)
      requires Valid()
      modifies this`t0, this`t1, this`rehash
      ensures Valid()
      ensures old(rehash).None? ==> t0 == old(t0) && rehash == None && visited == 0
      ensures moved <= budget && visited <= 11 * budget
      ensures old(rehash).Some? && rehash.Some? ==>
        |t0| == |old(t0)| && rehash.value == old(rehash).value + visited && (budget > 0 ==> visited > 0)
      ensures old(rehash).Some? && rehash.None? ==> |t0| == 2 * |old(t0)|
    {
      moved, visited := 0, 0;
      if rehash.None? { return; }
      ghost var was := Nodes();
      moved, visited := PassBuckets(budget);
      if rehash.value < |t0| {
        assert Nodes() == was;
        return;
      }
      Finish();
      assert Nodes() == was;
    }

    /** As many calls as the table has buckets finish any rehash. */
    method RehashFully(calls: nat)
      requires Valid() && calls >= |t0|
      modifies this`t0, this`t1, this`rehash
      ensures Valid() && m == old(m) && rehash.None?
    {
      var i := 0;
      while i < calls
        invariant 0 <= i <= calls && Valid() && m == old(m)
        invariant rehash.Some? ==> |t0| == |old(t0)| && rehash.value >= i
      {
        var _, _ := RehashStep(1);
        i := i + 1;
      }
    }

    function Tab(i: nat): Table<V>
      reads this`t0, this`t1
    {
      if i == 0 then t0 else t1
    }

    /** What a cursor has still to visit. */
    ghost function Rest(c: Cursor<V>): multiset<Node<V>>
      reads this`t0, this`t1
    {
      RestOf(t0, t1, c)
    }

    /** The next node: the rest of a chain first, then the buckets, then the second table. */
    method Next(c: Cursor<V>) returns (c': Cursor<V>, node: Option<Node<V>>)
      requires InTable(t0, t1, c)
      ensures node.None? ==> Rest(c) == multiset{}
      ensures node.Some? ==> Rest(c) == multiset{node.value} + Rest(c') && JustVisited(t0, t1, c', node.value)
    {
      if c.next != [] {
        NextOfChain(t0, t1, c);
        return Cursor(c.table, c.bucket, c.next[1..]), Some(c.next[0]);
      }
      c' := c;
      while c'.table < 2
        invariant c'.next == [] && c'.table <= 2 && Rest(c') == Rest(c)
        invariant c'.table < 2 ==> c'.bucket <= |Tab(c'.table)|
        decreases 2 - c'.table
      {
        c', node := NextInTable(c');
        if node.Some? { return; }
        NextTable(t0, t1, c');
        c' := Cursor(c'.table + 1, 0, []);
      }
      node := None;
    }

    /** The first node of the next bucket in use, or the end of the table. */
    method NextInTable(c: Cursor<V>) returns (c': Cursor<V>, node: Option<Node<V>>)
      requires c.next == [] && c.table < 2 && c.bucket <= |Tab(c.table)|
      ensures node.None? ==> c' == Cursor(c.table, |Tab(c.table)|, []) && Rest(c') == Rest(c)
      ensures node.Some? ==> Rest(c) == multiset{node.value} + Rest(c') && JustVisited(t0, t1, c', node.value)
    {
      var t := Tab(c.table);
      c' := c;
      while c'.bucket < |t|
        invariant c'.next == [] && c'.table == c.table && c'.bucket <= |t| && Rest(c') == Rest(c)
        decreases |t| - c'.bucket
      {
        NextBucket(t0, t1, c');
        if t[c'.bucket] != [] {
          NextOfBucket(t0, t1, c');
          return Cursor(c'.table, c'.bucket + 1, t[c'.bucket][1..]), Some(t[c'.bucket][0]);
        }
        c' := Cursor(c'.table, c'.bucket + 1, []);
      }
      node := None;
    }

    /** One visit, after which the visited node may be removed. */
    method VisitOne(c: Cursor<V>, doomed: Node<V> -> bool) returns (c': Cursor<V>, node: Option<Node<V>>)
      requires Valid() && InTable(t0, t1, c) && Rest(c) <= Nodes()
      modifies this`t0, this`t1, this`count, this`m
      ensures Valid() && rehash == old(rehash)
      ensures node.None? ==> old(Rest(c)) == multiset{} && m == old(m)
      ensures node.Some? ==> old(Rest(c)) == multiset{node.value} + Rest(c')
      ensures node.Some? ==> InTable(t0, t1, c') && Rest(c') <= Nodes()
      ensures node.Some? ==> m == if doomed(node.value) then old(m) - {node.value.key} else old(m)
    {
      c', node := Next(c);
      if node.None? { return; }
      var n := node.value;
      VisitedIsIn(t0, t1, c', n);
      InRest(Rest(c), Rest(c'), Nodes(), n);
      if doomed(n) {
        ghost var a, b := t0, t1;
        ghost var bag, rest := Nodes(), Rest(c');
        OnlyNode(bag, m, n);
        var _, gone := Remove(n.key);
        assert gone == Some(n);
        VisitedUnlinked(a, b, t0, t1, c', n);
        LeftOver(bag, rest, n);
      }
    }

    /** What has been visited and what is left make up the nodes of the start. */
    ghost predicate Sweeping(c: Cursor<V>, visited: seq<Node<V>>, was: multiset<Node<V>>, m0: map<Bytes, V>,
        doomed: Node<V> -> bool)
      reads this
    {
      && Valid() && InTable(t0, t1, c) && Rest(c) <= Nodes()
      && multiset(visited) + Rest(c) == was && m == m0 - Doomed(visited, doomed)
    }

    method SweepOne(c: Cursor<V>, visited: seq<Node<V>>, doomed: Node<V> -> bool,
                    ghost was: multiset<Node<V>>, ghost m0: map<Bytes, V>)
      returns (c': Cursor<V>, visited': seq<Node<V>>, done: bool)
      requires Sweeping(c, visited, was, m0, doomed)
      modifies this`t0, this`t1, this`count, this`m
      ensures done ==> Valid() && multiset(visited') == was && m == m0 - Doomed(visited', doomed)
      ensures !done ==> Sweeping(c', visited', was, m0, doomed) && |Rest(c')| < |old(Rest(c))|
    {
      var node;
      c', node := VisitOne(c, doomed);
      visited', done := visited, node.None?;
      if !done {
        DoomedNext(visited, node.value, doomed, m0);
        SweepBag(visited, node.value, Rest(c'));
        visited' := visited + [node.value];
      }
    }

    /** Visits every node once, also when visited nodes are removed on the way. */
    method Sweep(doomed: Node<V> -> bool) returns (visited: seq<Node<V>>)
      requires Valid()
      modifies this`t0, this`t1, this`count, this`m
      ensures Valid() && multiset(visited) == old(Nodes())
      ensures m == old(m) - Doomed(visited, doomed)
    {
      var c, done := Cursor(0, 0, []), false;
      visited := [];
      WholeRest(t0, t1);
      assert old(m) - {} == old(m);
      ghost var was, m0 := Nodes(), m;
      while true
        invariant Sweeping(c, visited, was, m0, doomed)
        decreases |Rest(c)|
      {
        c, visited, done := SweepOne(c, visited, doomed, was, m0);
        if done { return; }
      }
    }
  }

  /** The keys that a sweep removes. */
  ghost function Doomed<V>(visited: seq<Node<V>>, doomed: Node<V> -> bool): set<Bytes> {
    if visited == [] then {}
    else
      var last := visited[|visited| - 1];
      Doomed(visited[..|visited| - 1], doomed) + if doomed(last) then {last.key} else {}
  }

  lemma DoomedNext<V>(visited: seq<Node<V>>, n: Node<V>, doomed: Node<V> -> bool, m: map<Bytes, V>)
    ensures m - Doomed(visited + [n], doomed) ==
      if doomed(n) then (m - Doomed(visited, doomed)) - {n.key} else m - Doomed(visited, doomed)
  {
    assert (visited + [n])[..|visited|] == visited;
  }

  // ---------------------------------------------------------------- iteration

  /** Where an iteration is: a table, the next bucket, and what is left of the chain it is in. */
  datatype Cursor<V> = Cursor(table: nat, bucket: nat, next: seq<Node<V>>)

  ghost function RestOf<V>(t0: Table<V>, t1: Table<V>, c: Cursor<V>): multiset<Node<V>> {
    multiset(c.next) +
    (if c.table == 0 then (if c.bucket <= |t0| then Bag(t0[c.bucket..]) else multiset{}) + Bag(t1)
     else if c.table == 1 && c.bucket <= |t1| then Bag(t1[c.bucket..]) else multiset{})
  }

  /** These nodes are the end of the live chain of the bucket just before. */
  ghost predicate EndOf<V>(t: Table<V>, bucket: nat, next: seq<Node<V>>) {
    && 0 < bucket <= |t|
    && var chain := t[bucket - 1]; |next| <= |chain| && next == chain[|chain| - |next|..]
  }

  ghost predicate InTable<V>(t0: Table<V>, t1: Table<V>, c: Cursor<V>) {
    && c.table <= 2 && (c.table == 0 ==> c.bucket <= |t0|) && (c.table == 1 ==> c.bucket <= |t1|)
    && (c.next != [] ==> c.table < 2 && if c.table == 0 then EndOf(t0, c.bucket, c.next)
        else EndOf(t1, c.bucket, c.next))
  }

  /** The node sits in the live chain right before these. */
  ghost predicate Precedes<V>(t: Table<V>, bucket: nat, next: seq<Node<V>>, n: Node<V>) {
    EndOf(t, bucket, next) && var chain := t[bucket - 1]; |next| < |chain| && chain[|chain| - |next| - 1] == n
  }

  ghost predicate JustVisited<V>(t0: Table<V>, t1: Table<V>, c: Cursor<V>, n: Node<V>) {
    c.table < 2 && if c.table == 0 then Precedes(t0, c.bucket, c.next, n) else Precedes(t1, c.bucket, c.next, n)
  }

  lemma ChainHead<V>(chain: seq<Node<V>>)
    requires chain != []
    ensures multiset(chain) == multiset{chain[0]} + multiset(chain[1..])
  {
    assert chain == [chain[0]] + chain[1..];
  }

  lemma ShorterEnd<V>(chain: seq<Node<V>>, next: seq<Node<V>>)
    requires next != [] && |next| <= |chain| && next == chain[|chain| - |next|..]
    ensures next[1..] == chain[|chain| - |next[1..]|..] && chain[|chain| - |next[1..]| - 1] == next[0]
  {
  }

  lemma RestOfChain<V>(t0: Table<V>, t1: Table<V>, c: Cursor<V>)
    requires c.next != []
    ensures RestOf(t0, t1, c) == multiset{c.next[0]} + RestOf(t0, t1, Cursor(c.table, c.bucket, c.next[1..]))
  {
    ChainHead(c.next);
  }

  lemma NextOfChain<V>(t0: Table<V>, t1: Table<V>, c: Cursor<V>)
    requires InTable(t0, t1, c) && c.next != []
    ensures var c' := Cursor(c.table, c.bucket, c.next[1..]);
      RestOf(t0, t1, c) == multiset{c.next[0]} + RestOf(t0, t1, c') && JustVisited(t0, t1, c', c.next[0])
  {
    RestOfChain(t0, t1, c);
    ShorterEnd((if c.table == 0 then t0 else t1)[c.bucket - 1], c.next);
  }

  lemma NextBucket<V>(t0: Table<V>, t1: Table<V>, c: Cursor<V>)
    requires c.table < 2 && c.next == [] && c.bucket < |if c.table == 0 then t0 else t1|
    ensures var t := if c.table == 0 then t0 else t1;
      RestOf(t0, t1, c) == multiset(t[c.bucket]) + RestOf(t0, t1, Cursor(c.table, c.bucket + 1, []))
  {
    var t := if c.table == 0 then t0 else t1;
    assert t[c.bucket..][1..] == t[c.bucket + 1..];
  }

  lemma NextOfBucket<V>(t0: Table<V>, t1: Table<V>, c: Cursor<V>)
    requires c.table < 2 && c.next == [] && c.bucket < |if c.table == 0 then t0 else t1|
    requires (if c.table == 0 then t0 else t1)[c.bucket] != []
    ensures var chain := (if c.table == 0 then t0 else t1)[c.bucket];
      var c' := Cursor(c.table, c.bucket + 1, chain[1..]);
      RestOf(t0, t1, c) == multiset{chain[0]} + RestOf(t0, t1, c') && JustVisited(t0, t1, c', chain[0])
  {
    var t := if c.table == 0 then t0 else t1;
    NextBucket(t0, t1, c);
    ChainHead(t[c.bucket]);
    RestInside(t0, t1, c.table, c.bucket + 1, t[c.bucket][1..]);
    FirstVisited(t0, t1, c.table, c.bucket, t);
  }

  lemma FirstVisited<V>(t0: Table<V>, t1: Table<V>, table: nat, b: nat, t: Table<V>)
    requires table < 2 && t == (if table == 0 then t0 else t1) && b < |t| && t[b] != []
    ensures JustVisited(t0, t1, Cursor(table, b + 1, t[b][1..]), t[b][0])
  {
  }

  /** What is left of a chain, then the buckets from the next one on. */
  lemma RestInside<V>(t0: Table<V>, t1: Table<V>, table: nat, bucket: nat, next: seq<Node<V>>)
    requires table < 2 && bucket <= |if table == 0 then t0 else t1|
    ensures RestOf(t0, t1, Cursor(table, bucket, next)) == multiset(next) + RestOf(t0, t1, Cursor(table, bucket, []))
  {
  }

  lemma NextTable<V>(t0: Table<V>, t1: Table<V>, c: Cursor<V>)
    requires c.table < 2 && c.next == [] && c.bucket == |if c.table == 0 then t0 else t1|
    ensures RestOf(t0, t1, c) == RestOf(t0, t1, Cursor(c.table + 1, 0, []))
  {
    assert t1[0..] == t1;
  }

  lemma WholeRest<V>(t0: Table<V>, t1: Table<V>)
    ensures RestOf(t0, t1, Cursor(0, 0, [])) == Bag(t0) + Bag(t1)
  {
    assert t0[0..] == t0;
  }

  lemma VisitedIsIn<V>(t0: Table<V>, t1: Table<V>, c: Cursor<V>, n: Node<V>)
    requires JustVisited(t0, t1, c, n)
    ensures InTable(t0, t1, c)
  {
  }

  lemma InRest<V>(before: multiset<Node<V>>, after: multiset<Node<V>>, bag: multiset<Node<V>>, n: Node<V>)
    requires before == multiset{n} + after && before <= bag
    ensures n in bag && after <= bag
  {
  }

  lemma LeftOver<V>(bag: multiset<Node<V>>, rest: multiset<Node<V>>, n: Node<V>)
    requires multiset{n} + rest <= bag
    ensures rest <= bag - multiset{n}
  {
  }

  /** A key has one node only, and once. */
  lemma OnlyNode<V>(bag: multiset<Node<V>>, m: map<Bytes, V>, n: Node<V>)
    requires Represents(bag, m) && n in bag
    ensures bag[n] == 1 && n.key in m && forall x :: x in bag && x.key == n.key ==> x == n
  {
  }

  /** A node that occurs once is in one place only. */
  lemma {:induction false} OnePlace<V>(t: Table<V>, b: nat, i: nat, c: nat, j: nat)
    requires b < |t| && i < |t[b]| && c < |t| && j < |t[c]| && t[b][i] == t[c][j] && Bag(t)[t[b][i]] <= 1
    ensures b == c && i == j
    decreases |t|
  {
    var n := t[b][i];
    if b == 0 && c == 0 {
      if i != j {
        assert t[0][j] in t[0][..i] + t[0][i + 1..] by {
          assert (t[0][..i] + t[0][i + 1..])[if j < i then j else j - 1] == t[0][j];
        }
        ChainWithout(t[0], i);
      }
    } else if b == 0 {
      InBag(t[1..], c - 1, j);
    } else if c == 0 {
      InBag(t[1..], b - 1, i);
    } else {
      OnePlace(t[1..], b - 1, i, c - 1, j);
    }
  }

  lemma VisitedUnlinkedIn<V>(t: Table<V>, t': Table<V>, bucket: nat, next: seq<Node<V>>, n: Node<V>)
    requires Precedes(t, bucket, next, n) && Bag(t)[n] <= 1 && Unlinked(t, t', n)
    ensures |t'| == |t| && t'[bucket..] == t[bucket..] && EndOf(t', bucket, next)
  {
    var b, i :| 0 <= b < |t| && 0 <= i < |t[b]| && t[b][i] == n && t' == Unlink(t, b, i);
    VisitedUnlinkedAt(t, b, i, bucket, next, n);
  }

  lemma VisitedUnlinkedAt<V>(t: Table<V>, b: nat, i: nat, bucket: nat, next: seq<Node<V>>, n: Node<V>)
    requires Precedes(t, bucket, next, n) && Bag(t)[n] <= 1 && b < |t| && i < |t[b]| && t[b][i] == n
    ensures var t' := Unlink(t, b, i); |t'| == |t| && t'[bucket..] == t[bucket..] && EndOf(t', bucket, next)
  {
    OnePlace(t, b, i, bucket - 1, |t[bucket - 1]| - |next| - 1);
    UnlinkBehind(t, b, i, next);
  }

  /** What follows the node that is unlinked stays where it is. */
  lemma UnlinkBehind<V>(t: Table<V>, b: nat, i: nat, next: seq<Node<V>>)
    requires b < |t| && i + 1 + |next| == |t[b]| && next == t[b][i + 1..]
    ensures var t' := Unlink(t, b, i); |t'| == |t| && t'[b + 1..] == t[b + 1..] && EndOf(t', b + 1, next)
  {
    var chain := t[b][..i] + next;
    assert Unlink(t, b, i)[b] == chain && chain[|chain| - |next|..] == next;
  }

  lemma UnlinkedIsIn<V>(t: Table<V>, t': Table<V>, n: Node<V>)
    requires Unlinked(t, t', n)
    ensures n in Bag(t)
  {
    var b, i :| 0 <= b < |t| && 0 <= i < |t[b]| && t[b][i] == n && t' == Unlink(t, b, i);
    InBag(t, b, i);
  }

  lemma RestSame<V>(t0: Table<V>, t1: Table<V>, t0': Table<V>, t1': Table<V>, c: Cursor<V>)
    requires |t0'| == |t0| && |t1'| == |t1| && c.table < 2
    requires if c.table == 0 then c.bucket <= |t0| && t0'[c.bucket..] == t0[c.bucket..] && t1' == t1
             else c.bucket <= |t1| && t1'[c.bucket..] == t1[c.bucket..]
    ensures RestOf(t0', t1', c) == RestOf(t0, t1, c)
  {
  }

  /** With one occurrence in all, a node of one table is not in the other one. */
  lemma UnlinkedFirst<V>(t0: Table<V>, t1: Table<V>, t0': Table<V>, t1': Table<V>, n: Node<V>)
    requires (Bag(t0) + Bag(t1))[n] == 1 && OneUnlinked(t0, t1, t0', t1', n) && n in Bag(t0)
    ensures Unlinked(t0, t0', n) && t1' == t1 && Bag(t0)[n] <= 1
  {
    if Unlinked(t1, t1', n) { UnlinkedIsIn(t1, t1', n); }
  }

  lemma UnlinkedSecond<V>(t0: Table<V>, t1: Table<V>, t0': Table<V>, t1': Table<V>, n: Node<V>)
    requires (Bag(t0) + Bag(t1))[n] == 1 && OneUnlinked(t0, t1, t0', t1', n) && n in Bag(t1)
    ensures Unlinked(t1, t1', n) && t0' == t0 && Bag(t1)[n] <= 1
  {
    if Unlinked(t0, t0', n) { UnlinkedIsIn(t0, t0', n); }
  }

  lemma VisitedInBag<V>(t: Table<V>, bucket: nat, next: seq<Node<V>>, n: Node<V>)
    requires Precedes(t, bucket, next, n)
    ensures n in Bag(t)
  {
    InBag(t, bucket - 1, |t[bucket - 1]| - |next| - 1);
  }

  /** Removing the node just visited leaves the rest of the chain and the later buckets alone. */
  lemma VisitedPlace<V>(t0: Table<V>, t1: Table<V>, t0': Table<V>, t1': Table<V>, c: Cursor<V>, n: Node<V>)
    requires JustVisited(t0, t1, c, n) && (Bag(t0) + Bag(t1))[n] == 1 && OneUnlinked(t0, t1, t0', t1', n)
    ensures |t0'| == |t0| && |t1'| == |t1| && InTable(t0', t1', c)
    ensures if c.table == 0 then t0'[c.bucket..] == t0[c.bucket..] && t1' == t1
            else t1'[c.bucket..] == t1[c.bucket..] && t0' == t0
  {
    if c.table == 0 {
      VisitedInBag(t0, c.bucket, c.next, n);
      UnlinkedFirst(t0, t1, t0', t1', n);
      VisitedUnlinkedIn(t0, t0', c.bucket, c.next, n);
    } else {
      VisitedInBag(t1, c.bucket, c.next, n);
      UnlinkedSecond(t0, t1, t0', t1', n);
      VisitedUnlinkedIn(t1, t1', c.bucket, c.next, n);
    }
  }

  /** Removing the node just visited does not disturb the iteration. */
  lemma VisitedUnlinked<V>(t0: Table<V>, t1: Table<V>, t0': Table<V>, t1': Table<V>, c: Cursor<V>, n: Node<V>)
    requires JustVisited(t0, t1, c, n) && (Bag(t0) + Bag(t1))[n] == 1 && OneUnlinked(t0, t1, t0', t1', n)
    ensures RestOf(t0', t1', c) == RestOf(t0, t1, c) && InTable(t0', t1', c)
  {
    VisitedPlace(t0, t1, t0', t1', c, n);
    RestSame(t0, t1, t0', t1', c);
  }

  /** Nodes that make up the entries of a map have different keys. */
  lemma EachKeyOnce<V>(visited: seq<Node<V>>, m: map<Bytes, V>, i: nat, j: nat)
    requires Represents(multiset(visited), m) && i < j < |visited|
    ensures visited[i].key != visited[j].key
  {
    var a, b := visited[..j], visited[j..];
    assert visited == a + b && a[i] == visited[i] && b[0] == visited[j];
    assert multiset(visited)[visited[i]] == multiset(a)[visited[i]] + multiset(b)[visited[i]];
    assert visited[i] in multiset(visited) && visited[j] in multiset(visited);
  }

  lemma SweepBag<V>(visited: seq<Node<V>>, n: Node<V>, rest: multiset<Node<V>>)
    ensures multiset(visited + [n]) + rest == multiset(visited) + (multiset{n} + rest)
  {
  }

  lemma MovedBag<V>(a: multiset<Node<V>>, chain: multiset<Node<V>>, b: multiset<Node<V>>)
    requires chain <= a
    ensures (a - chain) + multiset{} + (b + chain) == a + b
  {
  }

  lemma DoubledOnce(slots: nat)
    requires Doubled(slots)
    ensures Doubled(2 * slots) && slots > 0
  {
  }

  lemma UnplacedBucket<V>(t: Table<V>, b: nat, code: Bytes -> nat)
    requires b < |t| && Placed(t, code)
    ensures Placed(t[b := []], code) && forall i :: 0 <= i < |t[b]| ==> t[b][i].code == code(t[b][i].key)
  {
  }

  lemma TakenFromEither<V>(a: multiset<Node<V>>, b: multiset<Node<V>>, n: Node<V>)
    ensures n in a ==> (a - multiset{n}) + b == (a + b) - multiset{n}
    ensures n in b ==> a + (b - multiset{n}) == (a + b) - multiset{n}
  {
  }
}
