/**
  The recency list of the cache: doubly linked, most recently used first.
  Entries are named by their keys; each link field is a table indexed by entry.
 */
module LruList {
  import opened Bytes

  type Links = map<Bytes, Option<Bytes>>

  predicate PreviousAt(order: seq<Bytes>, previous: Links, i: nat)
    requires i < |order|
  {
    order[i] in previous && previous[order[i]] == if i == 0 then None else Some(order[i - 1])
  }

  predicate NextAt(order: seq<Bytes>, next: Links, i: nat)
    requires i < |order|
  {
    order[i] in next && next[order[i]] == if i == |order| - 1 then None else Some(order[i + 1])
  }

  ghost predicate Distinct(order: seq<Bytes>) {
    forall i, j :: 0 <= i < j < |order| ==> order[i] != order[j]
  }

  ghost predicate Linked(order: seq<Bytes>, previous: Links, next: Links, head: Option<Bytes>, tail: Option<Bytes>) {
    && Distinct(order)
    && (forall i :: 0 <= i < |order| ==> PreviousAt(order, previous, i))
    && (forall i :: 0 <= i < |order| ==> NextAt(order, next, i))
    && head == (if order == [] then None else Some(order[0]))
    && tail == (if order == [] then None else Some(order[|order| - 1]))
  }

  /** The list without one of its keys. */
  function Without(s: seq<Bytes>, k: Bytes): seq<Bytes> {
    if s == [] then [] else if s[0] == k then s[1..] else [s[0]] + Without(s[1..], k)
  }

  lemma {:induction false} WithoutAt(s: seq<Bytes>, i: nat)
    requires Distinct(s) && i < |s|
    ensures Without(s, s[i]) == s[..i] + s[i + 1..]
    decreases |s|
  {
    if i > 0 {
      WithoutAt(s[1..], i - 1);
      assert s[1..][i - 1] == s[i] && s[..i] == [s[0]] + s[1..][..i - 1] && s[1..][i..] == s[i + 1..];
    }
  }

  lemma WithoutKeys(s: seq<Bytes>, k: Bytes)
    requires Distinct(s) && k in s
    ensures Distinct(Without(s, k)) && k !in Without(s, k) && |Without(s, k)| == |s| - 1
    ensures forall x :: x in Without(s, k) <==> x in s && x != k
  {
    var i :| 0 <= i < |s| && s[i] == k;
    WithoutAt(s, i);
    var r := s[..i] + s[i + 1..];
    forall x | x in s && x != k ensures x in r {
      var j :| 0 <= j < |s| && s[j] == x;
      assert r[if j < i then j else j - 1] == x;
    }
  }

  class List {
    var previous: Links
    var next: Links
    var head: Option<Bytes>
    var tail: Option<Bytes>
    ghost var order: seq<Bytes>

    ghost predicate Valid()
      reads this
    {
      Linked(order, previous, next, head, tail)
    }

    constructor ()
      ensures Valid() && order == []
    {
      previous, next, head, tail, order := map[], map[], None, None, [];
    }

    /** The pointer updates around an entry. */
    method Relink(k: Bytes, ghost i: nat)
      requires Valid() && i < |order| && order[i] == k
      modifies this`previous, this`next, this`head, this`tail
      ensures Linked(order[..i] + order[i + 1..], previous, next, head, tail)
    {
      assert PreviousAt(order, previous, i) && NextAt(order, next, i);
      ghost var p0, n0 := previous, next;
      var p, n := previous[k], next[k];
      if p.Some? { next := next[p.value := n]; } else { head := n; }
      if n.Some? { previous := previous[n.value := p]; } else { tail := p; }
      previous, next := previous[k := None], next[k := None];
      UnlinkedAt(order, p0, n0, order[..i] + order[i + 1..], previous, next, i);
    }

    method Unlink(k: Bytes)
      requires Valid() && k in order
      modifies this
      ensures Valid() && order == Without(old(order), k)
    {
      ghost var i: nat :| i < |order| && order[i] == k;
      WithoutAt(order, i);
      Relink(k, i);
      order := order[..i] + order[i + 1..];
    }

    method LinkHead(k: Bytes)
      requires Valid() && k !in order
      modifies this
      ensures Valid() && order == [k] + old(order)
    {
      ghost var was, p0, n0 := order, previous, next;
      previous, next := previous[k := None], next[k := head];
      if head.Some? { previous := previous[head.value := Some(k)]; } else { tail := Some(k); }
      head := Some(k);
      order := [k] + order;
      LinkedHead(was, p0, n0, k, previous, next);
    }

    /** The entry becomes the most recently used one. */
    method Touch(k: Bytes)
      requires Valid() && k in order
      modifies this
      ensures Valid() && order == [k] + Without(old(order), k)
    {
      if head == Some(k) {
        assert order == [k] + Without(order, k);
        return;
      }
      WithoutKeys(order, k);
      Unlink(k);
      LinkHead(k);
    }
  }

  lemma UnlinkedAt(was: seq<Bytes>, p0: Links, n0: Links, now: seq<Bytes>, p: Links, n: Links, i: nat)
    requires Distinct(was) && i < |was| && now == was[..i] + was[i + 1..]
    requires (forall j :: 0 <= j < |was| ==> PreviousAt(was, p0, j)) &&
        (forall j :: 0 <= j < |was| ==> NextAt(was, n0, j))
    requires was[i] in n0 && was[i] in p0
    requires var n1 := if i > 0 then n0[was[i - 1] := n0[was[i]]] else n0; n == n1[was[i] := None]
    requires var p1 := if i < |was| - 1 then p0[was[i + 1] := p0[was[i]]] else p0; p == p1[was[i] := None]
    ensures Distinct(now)
    ensures (forall j :: 0 <= j < |now| ==> PreviousAt(now, p, j)) && (forall j :: 0 <= j < |now| ==> NextAt(now, n, j))
  {
    assert PreviousAt(was, p0, i) && NextAt(was, n0, i);
    forall j | 0 <= j < |now| ensures PreviousAt(now, p, j) && NextAt(now, n, j) {
      var a := if j < i then j else j + 1;
      assert now[j] == was[a] && PreviousAt(was, p0, a) && NextAt(was, n0, a);
    }
  }

  lemma LinkedHead(was: seq<Bytes>, p0: Links, n0: Links, k: Bytes, p: Links, n: Links)
    requires Distinct(was) && k !in was
    requires (forall j :: 0 <= j < |was| ==> PreviousAt(was, p0, j)) &&
        (forall j :: 0 <= j < |was| ==> NextAt(was, n0, j))
    requires n == n0[k := if was == [] then None else Some(was[0])]
    requires p == if was == [] then p0[k := None] else p0[k := None][was[0] := Some(k)]
    ensures var now := [k] + was;
      && Distinct(now)
      && (forall j :: 0 <= j < |now| ==> PreviousAt(now, p, j)) && (forall j :: 0 <= j < |now| ==> NextAt(now, n, j))
  {
    var now := [k] + was;
    forall j | 0 <= j < |now| ensures PreviousAt(now, p, j) && NextAt(now, n, j) {
      if j > 0 { assert now[j] == was[j - 1] && PreviousAt(was, p0, j - 1) && NextAt(was, n0, j - 1); }
    }
  }
}
