/**
  Ordered sets: a member dictionary beside an ordered index, which is either a
  skip list or a red-black tree.  The specification is a map from member to
  score and the one sorted listing of it.
 */
module OrderedSet {
  import opened Bytes
  import opened Order
  import RbShape
  import RbMemory
  import RbTree
  import SkipList

  type Scores = map<Bytes, Score>

  // ------------------------------------------------------------ specification

  /** s lists exactly the pairs of m, in order. */
  ghost predicate Lists(s: seq<Item>, m: Scores) {
    && Sorted(s)
    && (forall i :: 0 <= i < |s| ==> s[i].member in m && m[s[i].member] == s[i].score)
    && forall k :: k in m ==> Item(m[k], k) in s
  }

  function InsertSorted(s: seq<Item>, x: Item): seq<Item> {
    if s == [] then [x]
    else if Less(x, s[0]) then [x] + s
    else [s[0]] + InsertSorted(s[1..], x)
  }

  /** The sorted listing of a map. */
  ghost function Listing(m: Scores): seq<Item>
    decreases |m|
  {
    if m == map[] then []
    else
      var k :| k in m;
      assert |m - {k}| < |m| by { OneKeyLess(m, k); }
      InsertSorted(Listing(m - {k}), Item(m[k], k))
  }

  lemma {:induction false} InsertSortedKeeps(s: seq<Item>, x: Item)
    requires Sorted(s) && x !in s
    ensures Sorted(InsertSorted(s, x)) && forall y :: y in InsertSorted(s, x) <==> y in s || y == x
    decreases |s|
  {
    if s == [] {
    } else if Less(x, s[0]) {
      var r := [x] + s;
      forall i, j | 0 <= i < j < |r| ensures Less(r[i], r[j]) {
        if i == 0 && j > 1 { LessTransitive(x, s[0], r[j]); }
      }
    } else {
      LessTotal(x, s[0]);
      var rest := InsertSorted(s[1..], x);
      InsertSortedKeeps(s[1..], x);
      var r := [s[0]] + rest;
      forall i, j | 0 <= i < j < |r| ensures Less(r[i], r[j]) {
        if i == 0 { assert r[j] in rest && (r[j] == x || r[j] in s[1..]); }
      }
      assert s == [s[0]] + s[1..];
    }
  }

  lemma InsertLists(s: seq<Item>, m: Scores, k: Bytes)
    requires k in m && Lists(s, m - {k})
    ensures Lists(InsertSorted(s, Item(m[k], k)), m)
  {
    var x := Item(m[k], k);
    assert x !in s;
    InsertSortedKeeps(s, x);
    var r := InsertSorted(s, x);
    forall i | 0 <= i < |r| ensures r[i].member in m && m[r[i].member] == r[i].score {
      assert r[i] in r;
    }
    forall j | j in m ensures Item(m[j], j) in r {
      assert j != k ==> j in m - {k};
    }
  }

  lemma {:induction false} ListingLists(m: Scores)
    ensures Lists(Listing(m), m)
    decreases |m|
  {
    if m != map[] {
      var k :| k in m && Listing(m) == InsertSorted(Listing(m - {k}), Item(m[k], k));
      OneKeyLess(m, k);
      ListingLists(m - {k});
      InsertLists(Listing(m - {k}), m, k);
    }
  }

  /** There is only one listing. */
  lemma {:induction false} ListsUnique(s: seq<Item>, t: seq<Item>, m: Scores)
    requires Lists(s, m) && Lists(t, m)
    ensures s == t
    decreases |s|
  {
    SameElements(s, t, m);
    SameElements(t, s, m);
    if t != [] { NonEmpty(s, t); }
    if s != [] {
      NonEmpty(t, s);
      var x := s[0];
      FirstIsLeast(s, t);
      var k := x.member;
      TailLists(s, m);
      TailLists(t, m);
      ListsUnique(s[1..], t[1..], m - {k});
      assert s == [s[0]] + s[1..] && t == [t[0]] + t[1..];
    }
  }

  lemma SameElements(s: seq<Item>, t: seq<Item>, m: Scores)
    requires Lists(s, m) && Lists(t, m)
    ensures forall x :: x in s ==> x in t
  {
    forall x | x in s ensures x in t {
      assert x == Item(m[x.member], x.member);
    }
  }

  lemma NonEmpty(s: seq<Item>, t: seq<Item>)
    requires t != [] && forall x :: x in t ==> x in s
    ensures s != []
  {
    assert t[0] in s;
  }

  lemma FirstIsLeast(s: seq<Item>, t: seq<Item>)
    requires Sorted(s) && Sorted(t) && s != [] && t != [] && s[0] in t && t[0] in s
    ensures s[0] == t[0]
  {
    LessTotal(s[0], t[0]);
  }

  lemma TailLists(s: seq<Item>, m: Scores)
    requires Lists(s, m) && s != []
    ensures Lists(s[1..], m - {s[0].member})
  {
    var k := s[0].member;
    forall i | 0 < i < |s| ensures s[i].member != k {
      LessTotal(s[0], s[i]);
    }
    forall j | j in m - {k} ensures Item(m[j], j) in s[1..] {
      assert Item(m[j], j) in s;
    }
  }

  lemma {:induction false} ListsLength(s: seq<Item>, m: Scores)
    requires Lists(s, m)
    ensures |s| == |m|
    decreases |s|
  {
    if s == [] {
      assert m.Keys == {};
      assert |m.Keys| == |m|;
    } else {
      OneKeyLess(m, s[0].member);
      TailLists(s, m);
      ListsLength(s[1..], m - {s[0].member});
    }
  }

  /** A signed bound counts from the end when it is negative. */
  function Bound(b: int, length: nat): int { if b < 0 then b + length else b }

  /** An index that lies between the bounds, both included. */
  predicate Wanted(i: int, start: int, stop: int, length: nat) {
    0 <= i < length && Bound(start, length) <= i <= Bound(stop, length)
  }

  /** The first index of a range and how many elements it has. */
  function Normalised(start: int, stop: int, length: nat): (r: (nat, nat))
    ensures r.1 == 0 || r.0 + r.1 <= length
    ensures forall i :: Wanted(i, start, stop, length) <==> r.0 <= i < r.0 + r.1
  {
    var first := if Bound(start, length) < 0 then 0 else Bound(start, length);
    var last := if Bound(stop, length) >= length then length - 1 else Bound(stop, length);
    if length == 0 || Bound(stop, length) < 0 || first >= length || first > Bound(stop, length) then (0, 0)
    else (first, last - first + 1)
  }

  /** What a range visits. */
  function Slice(s: seq<Item>, start: int, stop: int): seq<Item> {
    var (first, count) := Normalised(start, stop, |s|);
    if count == 0 then [] else s[first..first + count]
  }

  // ------------------------------------------------------------- ordered index

  datatype Kind = Skip | Tree

  /** The index behind one interface; the kind decides which engine answers. */
  class Index {
    const kind: Kind
    const list: SkipList.List
    const tree: RbTree.Engine

    /** The nodes in order. */
    ghost function Nodes(): seq<nat>
      reads list, tree
    {
      if kind.Skip? then list.order else RbShape.Inorder(tree.shape)
    }

    /** What every allocated node holds. */
    ghost function Contents(): map<nat, Item>
      reads list, tree
    {
      if kind.Skip? then list.items else TreeItems(tree.h)
    }

    ghost predicate Valid()
      reads list, tree
    {
      if kind.Skip? then list.Valid() else tree.Valid()
    }

    constructor (kind: Kind)
      ensures this.kind == kind && fresh(list) && fresh(tree) && Valid() && Nodes() == []
    {
      this.kind := kind;
      list := new SkipList.List();
      tree := new RbTree.Engine();
    }

    /** The index is strictly sorted. */
    lemma SortedNodes()
      requires Valid()
      ensures forall i :: 0 <= i < |Nodes()| ==> Nodes()[i] in Contents()
      ensures forall i, j :: 0 <= i < j < |Nodes()| ==> Less(Contents()[Nodes()[i]], Contents()[Nodes()[j]])
    {
    }

    /** Puts a new node in at its place; the height matters to a skip list only. */
    method InsertNew(n: nat, x: Item, height: nat)
      requires Valid() && n > SkipList.HEAD && n !in Nodes() && 1 <= height <= SkipList.MAX_LEVEL
      requires forall m :: m in Nodes() && m in Contents() ==> Contents()[m] != x
      modifies list, tree
      ensures Valid() && InsertedInto(old(Nodes()), n, Nodes()) && Contents() == old(Contents())[n := x]
    {
      SortedNodes();
      if kind.Skip? {
        list.Prepare(n, x, height);
        list.InsertNode(n);
      } else {
        InsertInTree(n, x);
      }
    }

    method InsertInTree(n: nat, x: Item)
      requires Valid() && kind.Tree? && n > SkipList.HEAD && n !in Nodes()
      requires forall m :: m in Nodes() ==> m in Contents() && Contents()[m] != x
      modifies tree
      ensures Valid() && InsertedInto(old(Nodes()), n, Nodes()) && Contents() == old(Contents())[n := x]
    {
      ghost var before := tree.h;
      tree.Prepare(n, x);
      ghost var ready := tree.h;
      PreparedItems(before, ready, n, x);
      tree.InsertNode(n);
      SameTreeItems(ready, tree.h);
    }

    method Detach(n: nat)
      requires Valid() && n in Nodes()
      modifies list, tree
      ensures Valid() && RemovedFrom(old(Nodes()), n, Nodes()) && Contents() == old(Contents())
    {
      if kind.Skip? {
        list.DetachNode(n);
      } else {
        tree.DetachNode(n);
      }
    }

    /** Takes a node out, and leaves the others. */
    method Take(n: nat)
      requires Valid() && n in Nodes()
      modifies list, tree
      ensures Valid() && Contents() == old(Contents()) && Without(old(Nodes()), n, Nodes())
    {
      ghost var nodes, contents := Nodes(), Contents();
      SortedNodes();
      Detach(n);
      DetachedIsOut(nodes, n, Nodes(), contents);
    }

    method ByRank(rank: nat) returns (n: nat)
      requires Valid()
      ensures n == if rank < |Nodes()| then Nodes()[rank] else 0
    {
      if kind.Skip? { n := list.ByRank(rank); } else { n := tree.ByRank(rank); }
    }

    method Next(n: nat, ghost k: nat) returns (next: nat)
      requires Valid() && k < |Nodes()| && n == Nodes()[k]
      ensures next == if k + 1 < |Nodes()| then Nodes()[k + 1] else 0
    {
      if kind.Skip? { next := list.Next(n, k); } else { next := tree.Successor(n, k); }
    }

    /** What the index holds, in order. */
    ghost function Held(): seq<Item>
      requires Valid()
      reads list, tree
    {
      SortedNodes();
      ItemsOf(Nodes(), Contents())
    }

    method Walk(first: nat, last: nat) returns (visited: seq<Item>)
      requires Valid() && first <= last < |Nodes()|
      ensures visited == Held()[first..last + 1]
    {
      if kind.Skip? { visited := WalkList(list, first, last); } else { visited := WalkTree(tree, first, last); }
    }

    /** Visits the normalised slice. */
    method Range(length: nat, start: int, stop: int) returns (visited: seq<Item>)
      requires Valid() && length == |Nodes()|
      ensures visited == Slice(Held(), start, stop)
    {
      var bounds := CutRange(length, start, stop);
      ghost var held := Held();
      if bounds.None? { return []; }
      visited := Walk(bounds.value.0, bounds.value.1);
      assert visited == held[bounds.value.0..bounds.value.1 + 1];
    }

    /** A node of the index gets a new score: out, changed, and in again at its new place. */
    method Move(n: nat, x: Item)
      requires Valid() && n in Nodes() && n > SkipList.HEAD
      requires forall m :: m in Nodes() && m in Contents() && m != n ==> Contents()[m] != x
      modifies list, tree
      ensures Valid() && Contents() == old(Contents())[n := x]
      ensures forall m :: m in Nodes() <==> m in old(Nodes())
    {
      var height := 1;
      if kind.Skip? { height := list.heights[n]; }
      ghost var was := Nodes();
      SortedNodes();
      Detach(n);
      ghost var without := Nodes();
      DetachedIsOut(was, n, without, Contents());
      InsertNew(n, x, height);
      ReinsertedIsIn(was, n, without, Nodes());
    }
  }

  /** Along level 0 of a skip list, from one rank to another. */
  method WalkList(list: SkipList.List, first: nat, last: nat) returns (visited: seq<Item>)
    requires list.Valid() && first <= last < |list.order|
    ensures |visited| == last - first + 1
    ensures forall i :: 0 <= i < |visited| ==>
        list.order[first + i] in list.items && visited[i] == list.items[list.order[first + i]]
  {
    visited := [];
    var count: nat := 0;
    var n := list.ByRank(first);
    while n != SkipList.NULL && first + count <= last
      invariant first + count <= last + 1 && |visited| == count
      invariant n == if first + count < |list.order| then list.order[first + count] else SkipList.NULL
      invariant first + count <= last ==> n != SkipList.NULL
      invariant forall i :: 0 <= i < count ==>
        list.order[first + i] in list.items && visited[i] == list.items[list.order[first + i]]
      decreases last + 1 - (first + count)
    {
      visited := visited + [list.items[n]];
      n := list.Next(n, first + count);
      count := count + 1;
      if first + count <= last { SkipList.DistinctOrder(list.order); }
    }
  }

  /** From one rank of a tree to another, by successors. */
  method WalkTree(tree: RbTree.Engine, first: nat, last: nat) returns (visited: seq<Item>)
    requires tree.Valid() && first <= last < |RbShape.Inorder(tree.shape)|
    ensures |visited| == last - first + 1
    ensures forall i :: 0 <= i < |visited| ==>
      RbShape.Inorder(tree.shape)[first + i] in tree.h &&
          visited[i] == tree.h[RbShape.Inorder(tree.shape)[first + i]].item
  {
    visited := [];
    ghost var order := RbShape.Inorder(tree.shape);
    RbMemory.NilNotIn(tree.h, tree.shape, RbShape.NIL);
    RbMemory.PtrsAreInorder(tree.shape);
    assert RbShape.NIL !in order;
    var count: nat := 0;
    var n := tree.ByRank(first);
    while n != RbShape.NIL && first + count <= last
      invariant first + count <= last + 1 && |visited| == count
      invariant n == if first + count < |order| then order[first + count] else RbShape.NIL
      invariant first + count <= last ==> n != RbShape.NIL
      invariant forall i :: 0 <= i < count ==> order[first + i] in tree.h && visited[i] == tree.h[order[first + i]].item
      decreases last + 1 - (first + count)
    {
      visited := visited + [tree.h[n].item];
      n := tree.Successor(n, first + count);
      count := count + 1;
    }
  }

  /** A strictly sorted index holds each node once, so that a detached one is gone. */
  lemma DetachedIsOut(was: seq<nat>, n: nat, now: seq<nat>, contents: map<nat, Item>)
    requires RemovedFrom(was, n, now) && forall i :: 0 <= i < |was| ==> was[i] in contents
    requires forall i, j :: 0 <= i < j < |was| ==> Less(contents[was[i]], contents[was[j]])
    ensures n !in now && n in was && forall m :: m in now <==> m in was && m != n
  {
    var k :| 0 <= k < |was| && was[k] == n && now == was[..k] + was[k + 1..];
    forall i | 0 <= i < |was| && i != k ensures was[i] != n {
      LessTotal(contents[was[i]], contents[was[k]]);
    }
    forall m | m in was && m != n ensures m in now {
      var i :| 0 <= i < |was| && was[i] == m;
      assert now[if i < k then i else i - 1] == m;
    }
  }

  lemma InsertedIsIn(was: seq<nat>, n: nat, now: seq<nat>)
    requires InsertedInto(was, n, now)
    ensures forall m :: m in now <==> m in was || m == n
  {
    var k :| 0 <= k <= |was| && now == was[..k] + [n] + was[k..];
    assert now[k] == n;
    forall m | m in was ensures m in now {
      var i :| 0 <= i < |was| && was[i] == m;
      assert now[if i < k then i else i + 1] == m;
    }
  }

  lemma ReinsertedIsIn(was: seq<nat>, n: nat, without: seq<nat>, now: seq<nat>)
    requires n in was && (forall m :: m in without <==> m in was && m != n) && InsertedInto(without, n, now)
    ensures forall m :: m in now <==> m in was
  {
    InsertedIsIn(without, n, now);
  }

  // ---------------------------------------------------------------- the set

  /** What the dictionary keeps for a member. */
  datatype Entry = Entry(node: nat, score: Score)

  /** Dictionary and index hold the same members with the same scores. */
  ghost predicate Agree(dict: map<Bytes, Entry>, nodes: seq<nat>, contents: map<nat, Item>) {
    && (forall k :: k in dict ==>
          dict[k].node in nodes && dict[k].node in contents && contents[dict[k].node] == Item(dict[k].score, k))
    && forall n :: n in nodes ==> n in contents && contents[n].member in dict && dict[contents[n].member].node == n
  }

  function ScoresOf(dict: map<Bytes, Entry>): Scores { map k | k in dict :: dict[k].score }

  ghost function ItemsOf(nodes: seq<nat>, contents: map<nat, Item>): seq<Item>
    requires forall i :: 0 <= i < |nodes| ==> nodes[i] in contents
  {
    seq(|nodes|, i requires 0 <= i < |nodes| => contents[nodes[i]])
  }

  /** A sorted index that agrees with the dictionary is the listing of its scores. */
  lemma IndexIsListing(dict: map<Bytes, Entry>, nodes: seq<nat>, contents: map<nat, Item>)
    requires Agree(dict, nodes, contents) && forall i :: 0 <= i < |nodes| ==> nodes[i] in contents
    requires forall i, j :: 0 <= i < j < |nodes| ==> Less(contents[nodes[i]], contents[nodes[j]])
    ensures ItemsOf(nodes, contents) == Listing(ScoresOf(dict)) && |nodes| == |dict|
  {
    var s, m := ItemsOf(nodes, contents), ScoresOf(dict);
    forall k | k in m ensures Item(m[k], k) in s {
      var i :| 0 <= i < |nodes| && nodes[i] == dict[k].node;
      assert s[i] == Item(m[k], k);
    }
    forall i | 0 <= i < |s| ensures s[i].member in m && m[s[i].member] == s[i].score {
      assert nodes[i] in nodes;
    }
    assert Lists(s, m);
    ListingLists(m);
    ListsUnique(s, Listing(m), m);
    ListsLength(s, m);
    assert m.Keys == dict.Keys;
    assert |m| == |m.Keys| && |dict| == |dict.Keys|;
  }

  ghost predicate Without(nodes: seq<nat>, n: nat, now: seq<nat>) { forall m :: m in now <==> m in nodes && m != n }

  lemma AddAgrees(dict: map<Bytes, Entry>, nodes: seq<nat>, contents: map<nat, Item>, now: seq<nat>, n: nat, x: Item)
    requires Agree(dict, nodes, contents) && x.member !in dict && n !in nodes && InsertedInto(nodes, n, now)
    ensures Agree(dict[x.member := Entry(n, x.score)], now, contents[n := x])
  {
    InsertedIsIn(nodes, n, now);
  }

  lemma MoveAgrees(dict: map<Bytes, Entry>, nodes: seq<nat>, contents: map<nat, Item>, now: seq<nat>, x: Item)
    requires Agree(dict, nodes, contents) && x.member in dict && forall m :: m in now <==> m in nodes
    ensures var n := dict[x.member].node; Agree(dict[x.member := Entry(n, x.score)], now, contents[n := x])
  {
  }

  lemma RemoveAgrees(dict: map<Bytes, Entry>, nodes: seq<nat>, contents: map<nat, Item>, k: Bytes)
    requires Agree(dict, nodes, contents) && k in dict
    ensures forall now: seq<nat> :: Without(nodes, dict[k].node, now) ==> Agree(dict - {k}, now, contents)
  {
  }

  lemma ScoresPut(dict: map<Bytes, Entry>, k: Bytes, e: Entry)
    ensures ScoresOf(dict[k := e]) == ScoresOf(dict)[k := e.score]
  {
  }

  lemma ScoresCut(dict: map<Bytes, Entry>, k: Bytes)
    ensures ScoresOf(dict - {k}) == ScoresOf(dict) - {k} && (k !in dict ==> dict - {k} == dict)
  {
  }

  class ZSet {
    const index: Index
    var dict: map<Bytes, Entry>
    var next: nat

    ghost predicate Valid()
      reads this, index.list, index.tree
    {
      && index.Valid() && next > SkipList.HEAD && Agree(dict, index.Nodes(), index.Contents())
      && forall n :: n in index.Nodes() ==> SkipList.HEAD < n < next
    }

    ghost function View(): Scores
      reads this
    {
      ScoresOf(dict)
    }

    constructor (kind: Kind)
      ensures Valid() && View() == map[] && index.kind == kind && fresh(index.list) && fresh(index.tree)
    {
      index := new Index(kind);
      dict, next := map[], SkipList.HEAD + 1;
    }

    method AddNew(score: Score, member: Bytes, height: nat)
      requires Valid() && 1 <= height <= SkipList.MAX_LEVEL && member !in dict
      modifies this`dict, this`next, index.list, index.tree
      ensures Valid() && View() == old(View())[member := score]
    {
      ghost var nodes, contents := index.Nodes(), index.Contents();
      var n := next;
      index.InsertNew(n, Item(score, member), height);
      AddAgrees(dict, nodes, contents, index.Nodes(), n, Item(score, member));
      InsertedIsIn(nodes, n, index.Nodes());
      next := next + 1;
      ScoresPut(dict, member, Entry(n, score));
      dict := dict[member := Entry(n, score)];
    }

    method Rescore(score: Score, member: Bytes)
      requires Valid() && member in dict
      modifies this`dict, index.list, index.tree
      ensures Valid() && View() == old(View())[member := score]
    {
      ghost var nodes, contents := index.Nodes(), index.Contents();
      var n := dict[member].node;
      index.Move(n, Item(score, member));
      MoveAgrees(dict, nodes, contents, index.Nodes(), Item(score, member));
      ScoresPut(dict, member, Entry(n, score));
      dict := dict[member := Entry(n, score)];
    }

    /** Adds a member or changes its score; `height` is the random height of a new skip list node. */
    method Add(score: Score, member: Bytes, height: nat) returns (added: bool, changed: bool)
      requires Valid() && 1 <= height <= SkipList.MAX_LEVEL
      modifies this`dict, this`next, index.list, index.tree
      ensures Valid() && View() == old(View())[member := score]
      ensures added == (member !in old(View()))
      ensures changed == (member !in old(View()) || old(View())[member] != score)
    {
      added, changed := member !in dict, member !in dict || dict[member].score != score;
      if added {
        AddNew(score, member, height);
      } else if changed {
        Rescore(score, member);
      }
    }

    method Remove(member: Bytes) returns (removed: bool)
      requires Valid()
      modifies this`dict, index.list, index.tree
      ensures Valid() && View() == old(View()) - {member} && removed == (member in old(View()))
    {
      removed := member in dict;
      ScoresCut(dict, member);
      if removed { RemoveMember(member); }
    }

    method RemoveMember(member: Bytes)
      requires Valid() && member in dict
      modifies this`dict, index.list, index.tree
      ensures Valid() && dict == old(dict) - {member}
    {
      RemoveAgrees(dict, index.Nodes(), index.Contents(), member);
      index.Take(dict[member].node);
      dict := dict - {member};
    }

    method Score(member: Bytes) returns (score: Option<Score>)
      requires Valid()
      ensures score == if member in View() then Some(View()[member]) else None
    {
      score := if member in dict then Some(dict[member].score) else None;
    }

    /** The index is the listing of the set. */
    lemma Listed()
      requires Valid()
      ensures forall i :: 0 <= i < |index.Nodes()| ==> index.Nodes()[i] in index.Contents()
      ensures ItemsOf(index.Nodes(), index.Contents()) == Listing(View()) &&
          |index.Nodes()| == |dict| == |Listing(View())|
    {
      index.SortedNodes();
      IndexIsListing(dict, index.Nodes(), index.Contents());
    }

    /** The elements from `start` to `stop`, both counted from the end when negative. */
    method Range(start: int, stop: int) returns (visited: seq<Item>)
      requires Valid()
      ensures visited == Slice(Listing(View()), start, stop)
    {
      Listed();
      visited := index.Range(|dict|, start, stop);
    }

    method AddNext(all: seq<Item>, i: nat, height: nat)
      requires Valid() && i < |all| && View() == Folded(all[..i]) && 1 <= height <= SkipList.MAX_LEVEL
      modifies this`dict, this`next, index.list, index.tree
      ensures Valid() && View() == Folded(all[..i + 1])
    {
      FoldedNext(all, i);
      var _, _ := Add(all[i].score, all[i].member, height);
    }

    /** Adds items one by one to an empty set. */
    method AddAll(all: seq<Item>, heights: seq<nat>)
      requires Valid() && View() == map[]
      requires |heights| >= |all| && forall i :: 0 <= i < |heights| ==> 1 <= heights[i] <= SkipList.MAX_LEVEL
      modifies this`dict, this`next, index.list, index.tree
      ensures Valid() && View() == Folded(all)
    {
      var i := 0;
      while i < |all|
        invariant 0 <= i <= |all| && Valid() && View() == Folded(all[..i])
      {
        AddNext(all, i, heights[i]);
        i := i + 1;
      }
      assert all[..|all|] == all;
    }

    /** A second set with the same engine and the same contents. */
    method Clone(heights: seq<nat>) returns (copy: ZSet)
      requires Valid() && |heights| >= |dict| && forall i :: 0 <= i < |heights| ==>
          1 <= heights[i] <= SkipList.MAX_LEVEL
      ensures fresh(copy) && fresh(copy.index.list) && fresh(copy.index.tree)
      ensures copy.Valid() && copy.View() == View() && copy.index.kind == index.kind
    {
      var all := Range(0, -1);
      Listed();
      WholeSlice(Listing(View()));
      FoldedListing(View());
      copy := new ZSet(index.kind);
      copy.AddAll(all, heights);
    }
  }

  lemma WholeSlice(s: seq<Item>)
    ensures Slice(s, 0, -1) == s
  {
  }

  lemma FoldedNext(all: seq<Item>, i: nat)
    requires i < |all|
    ensures Folded(all[..i + 1]) == Folded(all[..i])[all[i].member := all[i].score]
  {
    assert all[..i + 1][..i] == all[..i];
  }

  /** The scores after adding the items one by one. */
  function Folded(s: seq<Item>): Scores
    decreases |s|
  {
    if s == [] then map[] else Folded(s[..|s| - 1])[s[|s| - 1].member := s[|s| - 1].score]
  }

  lemma {:induction false} FoldedKeys(s: seq<Item>, m: Scores)
    requires forall i :: 0 <= i < |s| ==> s[i].member in m && m[s[i].member] == s[i].score
    ensures forall k :: k in Folded(s) ==> k in m && Folded(s)[k] == m[k]
    ensures forall x :: x in s ==> x.member in Folded(s)
    decreases |s|
  {
    if s != [] {
      FoldedKeys(s[..|s| - 1], m);
      assert s == s[..|s| - 1] + [s[|s| - 1]];
    }
  }

  /** Adding a set's own listing to an empty set gives the set back. */
  lemma FoldedListing(m: Scores)
    ensures Folded(Listing(m)) == m
  {
    var s := Listing(m);
    ListingLists(m);
    FoldedKeys(s, m);
    forall k | k in m ensures k in Folded(s) {
      assert Item(m[k], k) in s;
    }
  }

  /** Ranks counted from the end when negative and cut to the length; none for an empty slice. */
  method CutRange(length: nat, start: int, stop: int) returns (bounds: Option<(nat, nat)>)
    ensures bounds.Some? ==> bounds.value.0 <= bounds.value.1 < length
    ensures forall s: seq<Item> :: |s| == length ==>
      Slice(s, start, stop) == if bounds.None? then [] else s[bounds.value.0..bounds.value.1 + 1]
  {
    if length == 0 { return None; }
    var first, last := start, stop;
    if first < 0 { first := first + length; }
    if last < 0 { last := last + length; }
    if first < 0 { first := 0; }
    if last < 0 || first >= length || first > last { return None; }
    if last >= length { last := length - 1; }
    bounds := Some((first, last));
  }

  /** What the cells of a tree's memory hold. */
  ghost function TreeItems(h: RbMemory.Heap): map<nat, Item> { map n | n in h :: h[n].item }

  lemma SameTreeItems(h: RbMemory.Heap, h': RbMemory.Heap)
    requires RbMemory.SameItems(h, h')
    ensures TreeItems(h') == TreeItems(h)
  {
  }

  lemma PreparedItems(h: RbMemory.Heap, h': RbMemory.Heap, n: nat, x: Item)
    requires n in h' && h' == h[n := h'[n]] && h'[n].item == x
    ensures TreeItems(h') == TreeItems(h)[n := x]
    ensures forall p :: p in h && p != n ==> p in h' && h'[p].item == TreeItems(h)[p]
  {
  }

  // ------------------------------------------------------- both engines agree

  datatype Op =
    | AddOp(score: Score, member: Bytes)
    | RemoveOp(member: Bytes)
    | ScoreOp(member: Bytes)
    | RangeOp(start: int, stop: int)
    | CloneOp

  datatype Answer =
    | Added(added: bool, changed: bool)
    | Removed(removed: bool)
    | Scored(score: Option<Score>)
    | Visited(items: seq<Item>)
    | Cloned

  /** An operation on the specification: a map and its listing. */
  ghost function Step(m: Scores, op: Op): (Scores, Answer) {
    match op
    case AddOp(s, k) => (m[k := s], Added(k !in m, k !in m || m[k] != s))
    case RemoveOp(k) => (m - {k}, Removed(k in m))
    case ScoreOp(k) => (m, Scored(if k in m then Some(m[k]) else None))
    case RangeOp(start, stop) => (m, Visited(Slice(Listing(m), start, stop)))
    case CloneOp => (m, Cloned)
  }

  ghost function Answers(m: Scores, ops: seq<Op>): seq<Answer>
    decreases |ops|
  {
    if ops == [] then [] else [Step(m, ops[0]).1] + Answers(Step(m, ops[0]).0, ops[1..])
  }

  lemma AnswersStep(done: seq<Answer>, m: Scores, ops: seq<Op>, i: nat)
    requires i < |ops|
    ensures done + Answers(m, ops[i..]) == (done + [Step(m, ops[i]).1]) + Answers(Step(m, ops[i]).0, ops[i + 1..])
  {
    assert ops[i..][1..] == ops[i + 1..];
  }

  /** The heights that one operation draws, one for every node that it makes. */
  type Draws = nat -> nat

  ghost predicate Drawn(height: Draws) { forall i :: 1 <= height(i) <= SkipList.MAX_LEVEL }

  /** One operation on a set; a clone replaces the set from here on. */
  method Perform(z: ZSet, op: Op, height: Draws) returns (z': ZSet, a: Answer)
    requires z.Valid() && Drawn(height)
    modifies z, z.index.list, z.index.tree
    ensures z'.Valid() && z'.index.kind == z.index.kind && (z'.View(), a) == Step(old(z.View()), op)
    ensures z' == z || (fresh(z') && fresh(z'.index.list) && fresh(z'.index.tree))
  {
    z' := z;
    match op
    case AddOp(s, k) => { var added, changed := z.Add(s, k, height(0)); a := Added(added, changed); }
    case RemoveOp(k) => { var removed := z.Remove(k); a := Removed(removed); }
    case ScoreOp(k) => { var score := z.Score(k); a := Scored(score); }
    case RangeOp(start, stop) => { var items := z.Range(start, stop); a := Visited(items); }
    case CloneOp => { z' := z.Clone(seq(|z.dict|, i requires 0 <= i => height(i))); a := Cloned; }
  }

  /** Any sequence of operations, on a set of either kind, is answered as the specification says. */
  method PerformAll(kind: Kind, ops: seq<Op>, heights: seq<Draws>) returns (answers: seq<Answer>)
    requires |heights| >= |ops| && forall i :: 0 <= i < |heights| ==> Drawn(heights[i])
    ensures answers == Answers(map[], ops)
  {
    var z := new ZSet(kind);
    answers := [];
    var i := 0;
    assert ops[0..] == ops;
    while i < |ops|
      invariant 0 <= i <= |ops| && z.Valid() && fresh(z) && fresh(z.index.list) && fresh(z.index.tree)
      invariant answers + Answers(z.View(), ops[i..]) == Answers(map[], ops)
    {
      var a;
      AnswersStep(answers, z.View(), ops, i);
      z, a := Perform(z, ops[i], heights[i]);
      answers := answers + [a];
      i := i + 1;
    }
  }

  /** The two engines answer alike, whatever heights the skip list draws. */
  method EnginesAgree(ops: seq<Op>, heights: seq<Draws>, others: seq<Draws>)
    returns (skip: seq<Answer>, tree: seq<Answer>)
    requires |heights| >= |ops| && forall i :: 0 <= i < |heights| ==> Drawn(heights[i])
    requires |others| >= |ops| && forall i :: 0 <= i < |others| ==> Drawn(others[i])
    ensures skip == tree == Answers(map[], ops)
  {
    skip := PerformAll(Skip, ops, heights);
    tree := PerformAll(Tree, ops, others);
  }
}
