/**
  The skip list engine of an ordered set.

  Each field of a node is a table indexed by node, and `links` is indexed by
  node and level.  A node's position is its place in level 0, the header's is
  0.  A link is exact when its span is the distance to its target, with no node
  of that level in between; a null link spans to the last position.
 */
module SkipList {
  import opened Order

  type Ref = nat
  const NULL: Ref := 0
  const HEAD: Ref := 1
  const MAX_LEVEL: nat := 32

  datatype Link = Link(forward: Ref, span: nat)

  type Links = map<(Ref, nat), Link>
  type Heights = map<Ref, nat>

  predicate Tall(heights: Heights, p: Ref, k: nat) { p in heights && heights[p] > k }

  /** No node strictly between two positions reaches level k. */
  predicate Gap(heights: Heights, P: seq<Ref>, k: nat, from: int, to: int) {
    forall m :: 0 <= m < |P| && from < m < to ==> !Tall(heights, P[m], k)
  }

  predicate LinkExact(heights: Heights, links: Links, P: seq<Ref>, k: nat, i: nat)
    requires i < |P|
  {
    && (P[i], k) in links
    && var l := links[(P[i], k)];
       if l.forward == NULL then i + l.span == |P| - 1 && Gap(heights, P, k, i, |P|)
       else
         && l.span > 0 && i + l.span < |P| && P[i + l.span] == l.forward
         && Tall(heights, l.forward, k) && Gap(heights, P, k, i, i + l.span)
  }

  /** Every link of one level is exact. */
  ghost predicate LevelExact(heights: Heights, links: Links, P: seq<Ref>, k: nat) {
    forall i {:trigger LinkExact(heights, links, P, k, i)} ::
      0 <= i < |P| && Tall(heights, P[i], k) ==> LinkExact(heights, links, P, k, i)
  }

  ghost predicate Distinct(P: seq<Ref>) {
    && NULL !in P
    && forall i, j :: 0 <= i < j < |P| ==> P[i] != P[j]
  }

  /** Two tables agree on the nodes of P at one level. */
  ghost predicate SameLevel(links: Links, links': Links, P: seq<Ref>, k: nat) {
    forall p :: p in P && (p, k) in links ==> (p, k) in links' && links'[(p, k)] == links[(p, k)]
  }

  lemma FrameLevel(heights: Heights, links: Links, links': Links, P: seq<Ref>, k: nat)
    requires LevelExact(heights, links, P, k) && SameLevel(links, links', P, k)
    ensures LevelExact(heights, links', P, k)
  {
    forall i | 0 <= i < |P| && Tall(heights, P[i], k) ensures LinkExact(heights, links', P, k, i) {
      assert LinkExact(heights, links, P, k, i);
    }
  }

  lemma SameHeights(heights: Heights, heights': Heights, links: Links, P: seq<Ref>, k: nat)
    requires LevelExact(heights, links, P, k)
    requires forall i :: 0 <= i < |P| ==> (Tall(heights, P[i], k) <==> Tall(heights', P[i], k))
    ensures LevelExact(heights', links, P, k)
  {
    forall i | 0 <= i < |P| && Tall(heights', P[i], k) ensures LinkExact(heights', links, P, k, i) {
      assert LinkExact(heights, links, P, k, i);
    }
  }

  // ---------------------------------------------------------------- inserting

  /** P with n put in after position r. */
  function Put(P: seq<Ref>, r: nat, n: Ref): seq<Ref>
    requires r < |P|
  {
    P[..r + 1] + [n] + P[r + 1..]
  }

  /** The node of P at position u is the last one of level k up to position r. */
  ghost predicate LastUpTo(heights: Heights, P: seq<Ref>, k: nat, u: nat, r: nat) {
    u <= r < |P| && Tall(heights, P[u], k) && Gap(heights, P, k, u, r + 1)
  }

  /** Positions after an insertion: those up to r stay, later ones move by one. */
  lemma PutAt(P: seq<Ref>, r: nat, n: Ref)
    requires r < |P|
    ensures |Put(P, r, n)| == |P| + 1 && Put(P, r, n)[r + 1] == n
    ensures forall i :: 0 <= i <= r ==> Put(P, r, n)[i] == P[i]
    ensures forall i :: r + 1 < i <= |P| ==> Put(P, r, n)[i] == P[i - 1]
  {
  }

  /** Links before the place are undisturbed, whatever happens at the place. */
  lemma PutBefore(heights: Heights, links: Links, P: seq<Ref>, k: nat, u: nat, r: nat, n: Ref, i: nat)
    requires LevelExact(heights, links, P, k) && LastUpTo(heights, P, k, u, r) && i < u && Tall(heights, P[i], k)
    requires Distinct(P)
    ensures LinkExact(heights, links, Put(P, r, n), k, i)
  {
    PutAt(P, r, n);
    assert LinkExact(heights, links, P, k, i);
  }

  lemma PutAfter(heights: Heights, links: Links, P: seq<Ref>, k: nat, r: nat, n: Ref, i: nat)
    requires LevelExact(heights, links, P, k) && r < i < |P| && Tall(heights, P[i], k)
    ensures LinkExact(heights, links, Put(P, r, n), k, i + 1)
  {
    PutAt(P, r, n);
    assert LinkExact(heights, links, P, k, i);
    var P' := Put(P, r, n);
    assert forall m :: i < m < |P| ==> P'[m + 1] == P[m];
    assert forall m :: i + 1 < m < |P'| ==> P'[m] == P[m - 1];
  }

  /** A level that the new node reaches: the node is spliced in after position u. */
  lemma SpliceExact(heights: Heights, links: Links, links': Links, P: seq<Ref>, k: nat, u: nat, r: nat, n: Ref)
    requires LevelExact(heights, links, P, k) && LastUpTo(heights, P, k, u, r) && Distinct(P) && n !in P && n != NULL
    requires Tall(heights, n, k)
    requires (P[u], k) in links && (P[u], k) in links' && (n, k) in links'
    requires links[(P[u], k)].span >= r - u
    requires links'[(P[u], k)] == Link(n, r - u + 1)
    requires links'[(n, k)] == Link(links[(P[u], k)].forward, links[(P[u], k)].span - (r - u))
    requires forall p :: p in P && p != P[u] && (p, k) in links ==> (p, k) in links' && links'[(p, k)] == links[(p, k)]
    ensures LevelExact(heights, links', Put(P, r, n), k)
  {
    var P' := Put(P, r, n);
    PutAt(P, r, n);
    forall i' | 0 <= i' < |P'| && Tall(heights, P'[i'], k) ensures LinkExact(heights, links', P', k, i') {
      if i' < u {
        PutBefore(heights, links, P, k, u, r, n, i');
        assert P'[i'] in P && P'[i'] != P[u];
      } else if i' == u {
      } else if i' == r + 1 {
        assert LinkExact(heights, links, P, k, u);
        SplicedLink(heights, links, P, k, u, r, n);
      } else if i' > r + 1 {
        PutAfter(heights, links, P, k, r, n, i' - 1);
        assert P'[i'] in P && P'[i'] != P[u];
      }
    }
  }

  /** What the new node takes over from its predecessor. */
  lemma SplicedLink(heights: Heights, links: Links, P: seq<Ref>, k: nat, u: nat, r: nat, n: Ref)
    requires LastUpTo(heights, P, k, u, r) && LinkExact(heights, links, P, k, u)
    ensures var l, P' := links[(P[u], k)], Put(P, r, n);
      && l.span >= r - u
      && var j := r + 1 + (l.span - (r - u));
         if l.forward == NULL then j == |P'| - 1 && Gap(heights, P', k, r + 1, |P'|)
         else r + 1 < j < |P'| && P'[j] == l.forward && Gap(heights, P', k, r + 1, j)
  {
    PutAt(P, r, n);
    var l := links[(P[u], k)];
    if l.forward != NULL {
      assert Tall(heights, P[u + l.span], k);
    }
  }

  /** A level above the new node: the link over the place grows by one. */
  lemma StretchExact(heights: Heights, links: Links, links': Links, P: seq<Ref>, k: nat, u: nat, r: nat, n: Ref)
    requires LevelExact(heights, links, P, k) && LastUpTo(heights, P, k, u, r) && Distinct(P) && n !in P
    requires !Tall(heights, n, k)
    requires (P[u], k) in links && (P[u], k) in links'
    requires links'[(P[u], k)] == Link(links[(P[u], k)].forward, links[(P[u], k)].span + 1)
    requires forall p :: p in P && p != P[u] && (p, k) in links ==> (p, k) in links' && links'[(p, k)] == links[(p, k)]
    ensures LevelExact(heights, links', Put(P, r, n), k)
  {
    var P' := Put(P, r, n);
    PutAt(P, r, n);
    forall i' | 0 <= i' < |P'| && Tall(heights, P'[i'], k) ensures LinkExact(heights, links', P', k, i') {
      if i' < u {
        PutBefore(heights, links, P, k, u, r, n, i');
        assert P'[i'] in P && P'[i'] != P[u];
      } else if i' == u {
        assert LinkExact(heights, links, P, k, u);
        SplicedLink(heights, links, P, k, u, r, n);
      } else if i' > r + 1 {
        PutAfter(heights, links, P, k, r, n, i' - 1);
        assert P'[i'] in P && P'[i'] != P[u];
      }
    }
  }

  // ---------------------------------------------------------------- detaching

  /** P without the node at position t. */
  function Cut(P: seq<Ref>, t: nat): seq<Ref>
    requires t < |P|
  {
    P[..t] + P[t + 1..]
  }

  lemma CutAt(P: seq<Ref>, t: nat)
    requires t < |P|
    ensures |Cut(P, t)| == |P| - 1
    ensures forall i :: 0 <= i < t ==> Cut(P, t)[i] == P[i]
    ensures forall i :: t <= i < |P| - 1 ==> Cut(P, t)[i] == P[i + 1]
  {
  }

  lemma CutBefore(heights: Heights, links: Links, P: seq<Ref>, k: nat, u: nat, t: nat, i: nat)
    requires LevelExact(heights, links, P, k) && u < t < |P| && Tall(heights, P[u], k) && i < u &&
        Tall(heights, P[i], k)
    ensures LinkExact(heights, links, Cut(P, t), k, i)
  {
    CutAt(P, t);
    assert LinkExact(heights, links, P, k, i);
  }

  lemma CutAfter(heights: Heights, links: Links, P: seq<Ref>, k: nat, t: nat, i: nat)
    requires LevelExact(heights, links, P, k) && t < i < |P| && Tall(heights, P[i], k)
    ensures LinkExact(heights, links, Cut(P, t), k, i - 1)
  {
    CutAt(P, t);
    assert LinkExact(heights, links, P, k, i);
    var P' := Cut(P, t);
    assert forall m :: i - 1 < m < |P'| ==> P'[m] == P[m + 1];
  }

  /** Whether the link over position t leads to the node there. */
  lemma LeadsTo(heights: Heights, links: Links, P: seq<Ref>, k: nat, u: nat, t: nat)
    requires u < t < |P| && LinkExact(heights, links, P, k, u) && Distinct(P) && LastUpTo(heights, P, k, u, t - 1)
    ensures var l := links[(P[u], k)];
      && l.span > 0 && (l.forward == P[t] <==> Tall(heights, P[t], k))
      && (Tall(heights, P[t], k) ==> l.span == t - u)
  {
    var l := links[(P[u], k)];
    if l.forward != NULL {
      assert Tall(heights, P[u + l.span], k);
    }
  }

  /** A level that the target reaches: the two links are joined. */
  lemma BridgeExact(heights: Heights, links: Links, links': Links, P: seq<Ref>, k: nat, u: nat, t: nat)
    requires LevelExact(heights, links, P, k) && Distinct(P) && u < t < |P| && LastUpTo(heights, P, k, u, t - 1)
    requires Tall(heights, P[t], k)
    requires (P[u], k) in links && (P[t], k) in links && (P[u], k) in links'
    requires links[(P[u], k)].span > 0
    requires links'[(P[u], k)] == Link(links[(P[t], k)].forward, links[(P[u], k)].span + links[(P[t], k)].span - 1)
    requires forall p :: p in P && p != P[u] && (p, k) in links ==> (p, k) in links' && links'[(p, k)] == links[(p, k)]
    ensures LevelExact(heights, links', Cut(P, t), k)
  {
    var P' := Cut(P, t);
    CutAt(P, t);
    forall i' | 0 <= i' < |P'| && Tall(heights, P'[i'], k) ensures LinkExact(heights, links', P', k, i') {
      if i' < u {
        CutBefore(heights, links, P, k, u, t, i');
        assert P'[i'] in P && P'[i'] != P[u];
      } else if i' == u {
        assert LinkExact(heights, links, P, k, u) && LinkExact(heights, links, P, k, t);
        LeadsTo(heights, links, P, k, u, t);
        assert forall m :: t <= m < |P'| ==> P'[m] == P[m + 1];
      } else if i' >= t {
        CutAfter(heights, links, P, k, t, i' + 1);
        assert P'[i'] in P && P'[i'] != P[u];
      }
    }
  }

  /** A level above the target: the link over it shrinks by one. */
  lemma ShrinkExact(heights: Heights, links: Links, links': Links, P: seq<Ref>, k: nat, u: nat, t: nat)
    requires LevelExact(heights, links, P, k) && Distinct(P) && u < t < |P| && LastUpTo(heights, P, k, u, t - 1)
    requires !Tall(heights, P[t], k)
    requires (P[u], k) in links && (P[u], k) in links' && links[(P[u], k)].span > 0
    requires links'[(P[u], k)] == Link(links[(P[u], k)].forward, links[(P[u], k)].span - 1)
    requires forall p :: p in P && p != P[u] && (p, k) in links ==> (p, k) in links' && links'[(p, k)] == links[(p, k)]
    ensures LevelExact(heights, links', Cut(P, t), k)
  {
    var P' := Cut(P, t);
    CutAt(P, t);
    forall i' | 0 <= i' < |P'| && Tall(heights, P'[i'], k) ensures LinkExact(heights, links', P', k, i') {
      if i' < u {
        CutBefore(heights, links, P, k, u, t, i');
        assert P'[i'] in P && P'[i'] != P[u];
      } else if i' == u {
        assert LinkExact(heights, links, P, k, u);
        assert forall m :: t <= m < |P'| ==> P'[m] == P[m + 1];
        var l := links[(P[u], k)];
        if l.forward != NULL { assert u + l.span > t by { assert Tall(heights, P[u + l.span], k); } }
      } else if i' >= t {
        CutAfter(heights, links, P, k, t, i' + 1);
        assert P'[i'] in P && P'[i'] != P[u];
      }
    }
  }

  // ------------------------------------------------------------- the whole list

  ghost predicate Levels(heights: Heights, links: Links, P: seq<Ref>, lo: nat, hi: nat) {
    forall k {:trigger LevelExact(heights, links, P, k)} :: lo <= k < hi ==> LevelExact(heights, links, P, k)
  }

  /** Nodes are allocated and distinct, and none is higher than the list's level. */
  ghost predicate Nodes(items: map<Ref, Item>, heights: Heights, order: seq<Ref>, level: nat) {
    && Distinct([HEAD] + order) && HEAD in heights && heights[HEAD] == MAX_LEVEL && 1 <= level <= MAX_LEVEL
    && forall i :: 0 <= i < |order| ==> order[i] in items && order[i] in heights && 1 <= heights[order[i]] <= level
  }

  /** Above the list's level the header leads nowhere. */
  ghost predicate Above(links: Links, level: nat) {
    forall k :: level <= k < MAX_LEVEL ==> (HEAD, k) in links && links[(HEAD, k)].forward == NULL
  }

  /** The list's level is in use. */
  ghost predicate Tight(links: Links, level: nat) {
    level > 1 ==> (HEAD, level - 1) in links && links[(HEAD, level - 1)].forward != NULL
  }

  /** Backward links and the tail agree with level 0. */
  ghost predicate Backward(back: map<Ref, Ref>, order: seq<Ref>, tail: Ref) {
    && tail == (if order == [] then NULL else order[|order| - 1])
    && forall i :: 0 <= i < |order| ==> BackAt(back, order, i)
  }

  predicate BackAt(back: map<Ref, Ref>, order: seq<Ref>, i: nat)
    requires i < |order|
  {
    order[i] in back && back[order[i]] == if i == 0 then NULL else order[i - 1]
  }

  ghost predicate InOrder(items: map<Ref, Item>, order: seq<Ref>) {
    && (forall i :: 0 <= i < |order| ==> order[i] in items)
    && forall i, j :: 0 <= i < j < |order| ==> Less(items[order[i]], items[order[j]])
  }

  /** Exactly the first r nodes are before x. */
  ghost predicate Place(items: map<Ref, Item>, order: seq<Ref>, x: Item, r: nat) {
    && r <= |order|
    && forall i :: 0 <= i < |order| ==> order[i] in items && (Less(items[order[i]], x) <==> i < r)
  }

  lemma {:induction false} FindPlace(items: map<Ref, Item>, order: seq<Ref>, x: Item) returns (r: nat)
    requires InOrder(items, order)
    ensures Place(items, order, x, r)
    decreases |order|
  {
    if order == [] {
      r := 0;
    } else {
      var last := |order| - 1;
      r := FindPlace(items, order[..last], x);
      if Less(items[order[last]], x) {
        forall i | 0 <= i < last ensures Less(items[order[i]], x) {
          LessTransitive(items[order[i]], items[order[last]], x);
        }
        r := |order|;
      }
    }
  }

  /** The place of a node of the list is its own position. */
  lemma OwnPlace(items: map<Ref, Item>, order: seq<Ref>, t: nat)
    requires InOrder(items, order) && t < |order|
    ensures Place(items, order, items[order[t]], t)
  {
    forall i | 0 <= i < |order| ensures Less(items[order[i]], items[order[t]]) <==> i < t {
      LessTotal(items[order[i]], items[order[t]]);
    }
  }

  /** What the search finds on each level: the last node before the place. */
  ghost predicate Found(heights: Heights, P: seq<Ref>, update: seq<Ref>, rank: seq<nat>, r: nat, lo: nat, hi: nat) {
    && |update| == |rank| == MAX_LEVEL && hi <= MAX_LEVEL && r < |P|
    && forall k :: lo <= k < hi ==>
         rank[k] <= r && update[k] == P[rank[k]] && LastUpTo(heights, P, k, rank[k], r)
  }

  /** The links of a header that was just allocated. */
  function HeaderLinks(n: nat): (links: Links)
    ensures forall k :: 0 <= k < n ==> (HEAD, k) in links && links[(HEAD, k)] == Link(NULL, 0)
  {
    if n == 0 then map[] else HeaderLinks(n - 1)[(HEAD, n - 1) := Link(NULL, 0)]
  }

  /** A level that only the header reaches. */
  lemma EmptyLevel(heights: Heights, links: Links, P: seq<Ref>, k: nat)
    requires P != [] && P[0] == HEAD && (HEAD, k) in links && links[(HEAD, k)] == Link(NULL, |P| - 1)
    requires forall i :: 0 < i < |P| ==> !Tall(heights, P[i], k)
    ensures LevelExact(heights, links, P, k)
  {
    assert LinkExact(heights, links, P, k, 0);
  }

  /** A write on one level leaves the others as they were. */
  lemma OtherLevels(heights: Heights, links: Links, links': Links, P: seq<Ref>, k: nat, lo: nat, hi: nat)
    requires Levels(heights, links, P, lo, hi) && (k < lo || k >= hi)
    requires forall p, j :: (p, j) in links && j != k ==> (p, j) in links' && links'[(p, j)] == links[(p, j)]
    ensures Levels(heights, links', P, lo, hi)
  {
    forall j | lo <= j < hi ensures LevelExact(heights, links', P, j) {
      FrameLevel(heights, links, links', P, j);
    }
  }

  /** The list with n put in at index r. */
  function PutIn(order: seq<Ref>, r: nat, n: Ref): seq<Ref>
    requires r <= |order|
  {
    order[..r] + [n] + order[r..]
  }

  lemma DistinctOrder(order: seq<Ref>)
    requires Distinct([HEAD] + order)
    ensures HEAD !in order && NULL !in order && forall i, j :: 0 <= i < j < |order| ==> order[i] != order[j]
  {
    var P := [HEAD] + order;
    assert forall i :: 0 <= i < |order| ==> order[i] == P[i + 1];
    assert P[0] == HEAD && forall i :: 0 < i < |P| ==> P[i] != P[0];
  }

  lemma PutPath(order: seq<Ref>, r: nat, n: Ref)
    requires r <= |order|
    ensures [HEAD] + PutIn(order, r, n) == Put([HEAD] + order, r, n)
  {
  }

  lemma PutInOrder(items: map<Ref, Item>, order: seq<Ref>, r: nat, n: Ref)
    requires InOrder(items, order) && n in items && Place(items, order, items[n], r)
    requires forall i :: 0 <= i < |order| ==> items[order[i]] != items[n]
    ensures InOrder(items, PutIn(order, r, n))
  {
    forall i | r <= i < |order| ensures Less(items[n], items[order[i]]) {
      LessTotal(items[n], items[order[i]]);
    }
  }

  lemma PutBackward(back': map<Ref, Ref>, order: seq<Ref>, tail: Ref, tail': Ref, r: nat, n: Ref)
    requires tail == (if order == [] then NULL else order[|order| - 1]) && Distinct([HEAD] + order) && r <= |order| &&
        n !in order
    requires n in back' && back'[n] == if r == 0 then NULL else order[r - 1]
    requires r < |order| ==> order[r] in back' && back'[order[r]] == n
    requires forall i :: 0 <= i < |order| && i != r ==> BackAt(back', order, i)
    requires tail' == if r < |order| then tail else n
    ensures Backward(back', PutIn(order, r, n), tail')
  {
    var now := PutIn(order, r, n);
    assert |now| == |order| + 1 && now[r] == n;
    assert forall i :: 0 <= i < r ==> now[i] == order[i];
    assert forall i :: r < i < |now| ==> now[i] == order[i - 1];
    forall i | 0 <= i < |now| ensures BackAt(back', now, i) {
      if i < r {
        assert BackAt(back', order, i);
      } else if i > r + 1 {
        assert BackAt(back', order, i - 1);
      }
    }
  }

  lemma PutDistinct(P: seq<Ref>, r: nat, n: Ref)
    requires Distinct(P) && r < |P| && n !in P && n != NULL
    ensures Distinct(Put(P, r, n))
  {
    PutAt(P, r, n);
    var P' := Put(P, r, n);
    forall i, j | 0 <= i < j < |P'| ensures P'[i] != P'[j] {
      assert i != r + 1 ==> P'[i] in P;
      assert j != r + 1 ==> P'[j] in P;
    }
  }

  lemma PutNodes(items: map<Ref, Item>, heights: Heights, order: seq<Ref>, level: nat, r: nat, n: Ref)
    requires Nodes(items, heights, order, level) && r <= |order| && n !in order && n != NULL && n != HEAD
    requires n in items && n in heights && 1 <= heights[n] <= level
    ensures Nodes(items, heights, PutIn(order, r, n), level)
  {
    PutPath(order, r, n);
    PutDistinct([HEAD] + order, r, n);
    var now := PutIn(order, r, n);
    forall i | 0 <= i < |now| ensures now[i] == n || now[i] in order {
    }
  }

  /** Level 0 leads from the new node to the one after it. */
  lemma FirstLink(heights: Heights, links: Links, order: seq<Ref>, r: nat, n: Ref)
    requires r <= |order| && Tall(heights, n, 0) && forall i :: 0 <= i < |order| ==> Tall(heights, order[i], 0)
    requires LevelExact(heights, links, Put([HEAD] + order, r, n), 0)
    ensures (n, 0) in links && links[(n, 0)].forward == if r < |order| then order[r] else NULL
  {
    var P' := Put([HEAD] + order, r, n);
    PutAt([HEAD] + order, r, n);
    assert LinkExact(heights, links, P', 0, r + 1);
    if r < |order| { assert P'[r + 2] == order[r]; }
  }

  /** The top level is in use when some node reaches it. */
  lemma TopInUse(heights: Heights, links: Links, order: seq<Ref>, level: nat, i: nat)
    requires level > 0 && i < |order| && Tall(heights, order[i], level - 1) && Tall(heights, HEAD, level - 1)
    requires LevelExact(heights, links, [HEAD] + order, level - 1)
    ensures Tight(links, level)
  {
    var P := [HEAD] + order;
    assert LinkExact(heights, links, P, level - 1, 0);
    assert P[i + 1] == order[i];
  }

  lemma TopUser(heights: Heights, links: Links, order: seq<Ref>, level: nat) returns (i: nat)
    requires level > 1 && Tight(links, level) && Tall(heights, HEAD, level - 1)
    requires LevelExact(heights, links, [HEAD] + order, level - 1)
    ensures i < |order| && Tall(heights, order[i], level - 1)
  {
    assert LinkExact(heights, links, [HEAD] + order, level - 1, 0);
    i := links[(HEAD, level - 1)].span - 1;
  }

  /** Inserting keeps the top level in use, also when the node opens it. */
  lemma PutTight(heights: Heights, links: Links, links': Links, order: seq<Ref>, level: nat, level': nat, r: nat,
      n: Ref)
    requires r <= |order| && n in heights && HEAD in heights && heights[HEAD] >= level' >= level >= 1
    requires level' == if heights[n] > level then heights[n] else level
    requires Tight(links, level) && LevelExact(heights, links, [HEAD] + order, level - 1)
    requires LevelExact(heights, links', [HEAD] + PutIn(order, r, n), level' - 1)
    ensures Tight(links', level')
  {
    var now := PutIn(order, r, n);
    if heights[n] == level' {
      assert now[r] == n;
      TopInUse(heights, links', now, level', r);
    } else if level > 1 {
      var i := TopUser(heights, links, order, level);
      assert now[if i < r then i else i + 1] == order[i];
      TopInUse(heights, links', now, level', if i < r then i else i + 1);
    }
  }

  /** Level 0 leads from each node to the next one. */
  lemma NextOf(heights: Heights, links: Links, order: seq<Ref>, i: nat)
    requires i < |order| && forall a :: 0 <= a < |order| ==> Tall(heights, order[a], 0)
    requires LevelExact(heights, links, [HEAD] + order, 0)
    ensures (order[i], 0) in links && links[(order[i], 0)].forward == if i + 1 < |order| then order[i + 1] else NULL
  {
    var P := [HEAD] + order;
    assert LinkExact(heights, links, P, 0, i + 1);
    if i + 1 < |order| { assert P[i + 2] == order[i + 1]; }
  }

  /** The list without its node at index i. */
  function CutOut(order: seq<Ref>, i: nat): seq<Ref>
    requires i < |order|
  {
    order[..i] + order[i + 1..]
  }

  lemma CutPath(order: seq<Ref>, i: nat)
    requires i < |order|
    ensures [HEAD] + CutOut(order, i) == Cut([HEAD] + order, i + 1) && ([HEAD] + order)[i + 1] == order[i]
  {
  }

  lemma CutKeepsOrder(items: map<Ref, Item>, order: seq<Ref>, i: nat)
    requires InOrder(items, order) && i < |order|
    ensures InOrder(items, CutOut(order, i))
  {
  }

  lemma CutNodes(items: map<Ref, Item>, heights: Heights, order: seq<Ref>, level: nat, i: nat)
    requires Nodes(items, heights, order, level) && i < |order|
    ensures Nodes(items, heights, CutOut(order, i), level)
  {
    var P, now := [HEAD] + order, CutOut(order, i);
    CutPath(order, i);
    CutAt(P, i + 1);
    var P' := Cut(P, i + 1);
    forall a, b | 0 <= a < b < |P'| ensures P'[a] != P'[b] {
      assert P'[a] == P[if a < i + 1 then a else a + 1] && P'[b] == P[if b < i + 1 then b else b + 1];
    }
    forall a | 0 <= a < |now| ensures now[a] in order {
    }
  }

  lemma CutBackward(back': map<Ref, Ref>, order: seq<Ref>, tail: Ref, tail': Ref, i: nat)
    requires i < |order| && tail == order[|order| - 1]
    requires i + 1 < |order| ==> order[i + 1] in back' && back'[order[i + 1]] == if i == 0 then NULL else order[i - 1]
    requires forall a :: 0 <= a < |order| && a != i + 1 ==> BackAt(back', order, a)
    requires tail' == if i + 1 < |order| then tail else if i == 0 then NULL else order[i - 1]
    ensures Backward(back', CutOut(order, i), tail')
  {
    var now := CutOut(order, i);
    forall a | 0 <= a < |now| ensures BackAt(back', now, a) {
      if a < i {
        assert BackAt(back', order, a);
      } else if a > i {
        assert BackAt(back', order, a + 1);
      }
    }
  }

  /** A header link that leads nowhere: no node reaches the level. */
  lemma NoneAtTop(heights: Heights, links: Links, order: seq<Ref>, level: nat)
    requires level > 1 && LinkExact(heights, links, [HEAD] + order, level - 1, 0)
    requires links[(HEAD, level - 1)].forward == NULL
    ensures forall i :: 0 <= i < |order| ==> !Tall(heights, order[i], level - 1)
  {
    var P := [HEAD] + order;
    assert forall i :: 0 <= i < |order| ==> order[i] == P[i + 1];
  }

  class List {
    var items: map<Ref, Item>
    var heights: Heights
    var back: map<Ref, Ref>
    var links: Links
    var level: nat
    var length: nat
    var tail: Ref
    ghost var order: seq<Ref>

    /** All positions, the header first. */
    ghost function Path(): seq<Ref>
      reads this
    {
      [HEAD] + order
    }

    ghost predicate Valid()
      reads this
    {
      && Nodes(items, heights, order, level) && InOrder(items, order) && length == |order|
      && Levels(heights, links, Path(), 0, level) && Above(links, level) && Tight(links, level)
      && Backward(back, order, tail)
    }

    constructor ()
      ensures Valid() && order == []
    {
      items, heights, back := map[], map[HEAD := MAX_LEVEL], map[];
      links := HeaderLinks(MAX_LEVEL);
      level, length, tail, order := 1, 0, NULL, [];
      new;
      assert Path() == [HEAD];
      assert LinkExact(heights, links, Path(), 0, 0);
    }

    /** Walks along one level while the next node is before x. */
    method Advance(x: Item, index: nat, from: Ref, at: nat, ghost r: nat) returns (current: Ref, traversed: nat)
      requires Place(items, order, x, r) && at <= r && from == Path()[at] && Tall(heights, from, index)
      requires LevelExact(heights, links, Path(), index)
      ensures traversed <= r && current == Path()[traversed] && LastUpTo(heights, Path(), index, traversed, r)
    {
      current, traversed := from, at;
      assert LinkExact(heights, links, Path(), index, traversed);
      while links[(current, index)].forward != NULL && Less(items[links[(current, index)].forward], x)
        invariant traversed <= r && current == Path()[traversed] && Tall(heights, current, index)
        invariant LinkExact(heights, links, Path(), index, traversed)
        invariant forall i :: 0 <= i < |order| ==> order[i] in items
        decreases r - traversed
      {
        traversed := traversed + links[(current, index)].span;
        current := links[(current, index)].forward;
        assert LinkExact(heights, links, Path(), index, traversed);
      }
    }

    /** From the top level down: on each level, the last node before x and its position. */
    method Search(x: Item, ghost r: nat) returns (update: seq<Ref>, rank: seq<nat>)
      requires Nodes(items, heights, order, level) && Levels(heights, links, Path(), 0, level)
      requires Place(items, order, x, r)
      ensures Found(heights, Path(), update, rank, r, 0, level) && rank[0] == r
    {
      update, rank := seq(MAX_LEVEL, _ => HEAD), seq(MAX_LEVEL, _ => 0);
      var index, current, traversed: nat := level, HEAD, 0;
      while index > 0
        invariant 0 <= index <= level && traversed <= r && current == Path()[traversed]
        invariant index > 0 ==> Tall(heights, current, index - 1)
        invariant Found(heights, Path(), update, rank, r, index, level)
        invariant index < level ==> rank[index] == traversed
      {
        index := index - 1;
        assert LevelExact(heights, links, Path(), index);
        current, traversed := Advance(x, index, current, traversed, r);
        update, rank := update[index := current], rank[index := traversed];
      }
      assert r > 0 ==> Path()[r] == order[r - 1] && Tall(heights, Path()[r], 0);
    }

    /** A node higher than the list opens new levels, empty but for the header. */
    method Grow(n: Ref, update: seq<Ref>, rank: seq<nat>, ghost r: nat) returns (update': seq<Ref>, rank': seq<nat>)
      requires Nodes(items, heights, order, level) && length == |order|
      requires Levels(heights, links, Path(), 0, level) && Above(links, level)
      requires Found(heights, Path(), update, rank, r, 0, level) && rank[0] == r
      requires n in heights && 1 <= heights[n] <= MAX_LEVEL
      modifies this`links, this`level
      ensures level == if heights[n] > old(level) then heights[n] else old(level)
      ensures Nodes(items, heights, order, level) && Levels(heights, links, Path(), 0, level) && Above(links, level)
      ensures Found(heights, Path(), update', rank', r, 0, level) && rank'[0] == r
      ensures heights[n] <= old(level) ==> links == old(links)
    {
      update', rank' := update, rank;
      if heights[n] > level {
        var index := level;
        while index < heights[n]
          invariant level <= index <= heights[n]
          invariant Levels(heights, links, Path(), 0, index) && Above(links, index)
          invariant Found(heights, Path(), update', rank', r, 0, index) && rank'[0] == r
        {
          ghost var before := links;
          rank', update' := rank'[index := 0], update'[index := HEAD];
          links := links[(HEAD, index) := Link(links[(HEAD, index)].forward, length)];
          OtherLevels(heights, before, links, Path(), index, 0, index);
          EmptyLevel(heights, links, Path(), index);
          index := index + 1;
        }
        level := heights[n];
      }
    }

    /** Splices the node into one level. */
    method Splice(n: Ref, index: nat, at: Ref, before: nat, place: nat)
      requires Distinct(Path()) && n !in Path() && n != NULL && Tall(heights, n, index)
      requires LevelExact(heights, links, Path(), index)
      requires LastUpTo(heights, Path(), index, before, place) && at == Path()[before]
      modifies this`links
      ensures LevelExact(heights, links, Put(Path(), place, n), index)
      ensures forall p, j :: (p, j) in old(links) && j != index ==>
          (p, j) in links && links[(p, j)] == old(links)[(p, j)]
    {
      ghost var was := links;
      assert LinkExact(heights, links, Path(), index, before);
      SplicedLink(heights, links, Path(), index, before, place, n);
      var l := links[(at, index)];
      links := links[(n, index) := Link(l.forward, l.span - (place - before))];
      links := links[(at, index) := Link(n, place - before + 1)];
      SpliceExact(heights, was, links, Path(), index, before, place, n);
    }

    /** The link over the place, one longer. */
    method Stretch(ghost n: Ref, index: nat, at: Ref, ghost before: nat, ghost place: nat)
      requires Distinct(Path()) && n !in Path() && !Tall(heights, n, index)
      requires LevelExact(heights, links, Path(), index)
      requires LastUpTo(heights, Path(), index, before, place) && at == Path()[before]
      modifies this`links
      ensures LevelExact(heights, links, Put(Path(), place, n), index)
      ensures forall p, j :: (p, j) in old(links) && j != index ==>
          (p, j) in links && links[(p, j)] == old(links)[(p, j)]
    {
      ghost var was := links;
      assert LinkExact(heights, links, Path(), index, before);
      links := links[(at, index) := Link(links[(at, index)].forward, links[(at, index)].span + 1)];
      StretchExact(heights, was, links, Path(), index, before, place, n);
    }

    /** Both loops over the levels: those that the node reaches, then those above it. */
    method SpliceAll(n: Ref, update: seq<Ref>, rank: seq<nat>)
      requires Distinct(Path()) && n !in Path() && n != NULL && n in heights && 1 <= heights[n] <= level
      requires Levels(heights, links, Path(), 0, level)
      requires rank != [] && Found(heights, Path(), update, rank, rank[0], 0, level)
      modifies this`links
      ensures Levels(heights, links, Put(Path(), rank[0], n), 0, level)
      ensures forall p, j :: (p, j) in old(links) && j >= level ==>
          (p, j) in links && links[(p, j)] == old(links)[(p, j)]
    {
      ghost var P' := Put(Path(), rank[0], n);
      var index := 0;
      while index < heights[n]
        invariant 0 <= index <= heights[n]
        invariant Levels(heights, links, P', 0, index) && Levels(heights, links, Path(), index, level)
        invariant forall p, j :: (p, j) in old(links) && j >= level ==>
            (p, j) in links && links[(p, j)] == old(links)[(p, j)]
      {
        ghost var was := links;
        assert LevelExact(heights, links, Path(), index);
        Splice(n, index, update[index], rank[index], rank[0]);
        OtherLevels(heights, was, links, P', index, 0, index);
        OtherLevels(heights, was, links, Path(), index, index + 1, level);
        index := index + 1;
      }
      while index < level
        invariant heights[n] <= index <= level
        invariant Levels(heights, links, P', 0, index) && Levels(heights, links, Path(), index, level)
        invariant forall p, j :: (p, j) in old(links) && j >= level ==>
            (p, j) in links && links[(p, j)] == old(links)[(p, j)]
      {
        ghost var was := links;
        assert LevelExact(heights, links, Path(), index);
        Stretch(n, index, update[index], rank[index], rank[0]);
        OtherLevels(heights, was, links, P', index, 0, index);
        OtherLevels(heights, was, links, Path(), index, index + 1, level);
        index := index + 1;
      }
    }

    /** Backward links and tail around the new node. */
    method LinkBack(n: Ref, at: Ref, ghost r: nat)
      requires Distinct(Path()) && n !in Path() && n != NULL && r <= |order| && Backward(back, order, tail) &&
          at == Path()[r]
      requires (n, 0) in links && links[(n, 0)].forward == if r < |order| then order[r] else NULL
      modifies this`back, this`tail
      ensures Backward(back, PutIn(order, r, n), tail)
    {
      ghost var was, end := back, tail;
      back := back[n := if at == HEAD then NULL else at];
      if links[(n, 0)].forward != NULL {
        back := back[links[(n, 0)].forward := n];
      } else {
        tail := n;
      }
      DistinctOrder(order);
      forall a | 0 <= a < |order| && a != r ensures BackAt(back, order, a) {
        assert BackAt(was, order, a);
      }
      PutBackward(back, order, end, tail, r, n);
    }

    /** Inserts a prepared node of any height at its place. */
    method InsertNode(n: Ref)
      requires Valid() && n in items && n in heights && 1 <= heights[n] <= MAX_LEVEL
      requires n !in order && n != NULL && n != HEAD
      requires forall i :: 0 <= i < |order| ==> items[order[i]] != items[n]
      modifies this`links, this`level, this`back, this`tail, this`length, this`order
      ensures Valid() && InsertedInto(old(order), n, order)
    {
      ghost var r := FindPlace(items, order, items[n]);
      PutInOrder(items, order, r, n);
      var at := InsertLinks(n, r);
      LinkBack(n, at, r);
      length := length + 1;
      order := PutIn(order, r, n);
    }

    /** The part of an insertion that works on the levels. */
    method InsertLinks(n: Ref, ghost r: nat) returns (at: Ref)
      requires Nodes(items, heights, order, level) && length == |order| && n in items &&
          Place(items, order, items[n], r)
      requires Levels(heights, links, Path(), 0, level) && Above(links, level) && Tight(links, level)
      requires n in items && n in heights && 1 <= heights[n] <= MAX_LEVEL && n !in order && n != NULL && n != HEAD
      modifies this`links, this`level
      ensures at == Path()[r] && Nodes(items, heights, PutIn(order, r, n), level)
      ensures Levels(heights, links, [HEAD] + PutIn(order, r, n), 0, level) && Above(links, level) &&
          Tight(links, level)
      ensures (n, 0) in links && links[(n, 0)].forward == if r < |order| then order[r] else NULL
    {
      ghost var was, top := links, level;
      assert LevelExact(heights, links, Path(), level - 1);
      var update, rank := Search(items[n], r);
      update, rank := Grow(n, update, rank, r);
      at := update[0];
      SpliceAll(n, update, rank);
      PutPath(order, r, n);
      assert LevelExact(heights, links, Put(Path(), r, n), 0) &&
          LevelExact(heights, links, Put(Path(), r, n), level - 1);
      FirstLink(heights, links, order, r, n);
      PutNodes(items, heights, order, level, r, n);
      PutTight(heights, was, links, order, top, level, r, n);
    }

    /** Takes the target out of one level. */
    method Bridge(target: Ref, index: nat, at: Ref, ghost before: nat, ghost t: nat)
      requires Distinct(Path()) && before < t < |Path()| && target == Path()[t] && at == Path()[before]
      requires LevelExact(heights, links, Path(), index) && LastUpTo(heights, Path(), index, before, t - 1)
      modifies this`links
      ensures LevelExact(heights, links, Cut(Path(), t), index)
      ensures forall p, j :: (p, j) in old(links) && (p == target || j != index) ==>
          (p, j) in links && links[(p, j)] == old(links)[(p, j)]
    {
      ghost var was := links;
      assert LinkExact(heights, links, Path(), index, before);
      LeadsTo(heights, links, Path(), index, before, t);
      var l := links[(at, index)];
      if l.forward == target {
        assert LinkExact(heights, links, Path(), index, t);
        var m := links[(target, index)];
        links := links[(at, index) := Link(m.forward, l.span + m.span - 1)];
        BridgeExact(heights, was, links, Path(), index, before, t);
      } else {
        links := links[(at, index) := Link(l.forward, l.span - 1)];
        ShrinkExact(heights, was, links, Path(), index, before, t);
      }
    }

    /** The loop over the levels of a removal. */
    method BridgeAll(target: Ref, update: seq<Ref>, ghost rank: seq<nat>, ghost t: nat)
      requires Distinct(Path()) && 0 < t < |Path()| && target == Path()[t]
      requires Levels(heights, links, Path(), 0, level) && Found(heights, Path(), update, rank, t - 1, 0, level)
      modifies this`links
      ensures Levels(heights, links, Cut(Path(), t), 0, level)
      ensures forall p, j :: (p, j) in old(links) && (p == target || j >= level) ==>
          (p, j) in links && links[(p, j)] == old(links)[(p, j)]
    {
      ghost var P' := Cut(Path(), t);
      var index := 0;
      while index < level
        invariant 0 <= index <= level
        invariant Levels(heights, links, P', 0, index) && Levels(heights, links, Path(), index, level)
        invariant forall p, j :: (p, j) in old(links) && (p == target || j >= level) ==>
            (p, j) in links && links[(p, j)] == old(links)[(p, j)]
      {
        ghost var was := links;
        assert LevelExact(heights, links, Path(), index);
        Bridge(target, index, update[index], rank[index], t);
        OtherLevels(heights, was, links, P', index, 0, index);
        OtherLevels(heights, was, links, Path(), index, index + 1, level);
        index := index + 1;
      }
    }

    /** Drops levels that only the header reaches. */
    method ShrinkLevel(ghost now: seq<Ref>)
      requires Nodes(items, heights, now, level) && Levels(heights, links, [HEAD] + now, 0, level) &&
          Above(links, level)
      modifies this`level
      ensures level <= old(level)
      ensures Nodes(items, heights, now, level) && Levels(heights, links, [HEAD] + now, 0, level)
      ensures Above(links, level) && Tight(links, level)
    {
      assert LevelExact(heights, links, [HEAD] + now, level - 1);
      assert LinkExact(heights, links, [HEAD] + now, level - 1, 0);
      while level > 1 && links[(HEAD, level - 1)].forward == NULL
        invariant 1 <= level <= old(level)
        invariant Nodes(items, heights, now, level) && Levels(heights, links, [HEAD] + now, 0, level) &&
            Above(links, level)
        invariant LinkExact(heights, links, [HEAD] + now, level - 1, 0)
      {
        NoneAtTop(heights, links, now, level);
        level := level - 1;
        assert LevelExact(heights, links, [HEAD] + now, level - 1);
        assert LinkExact(heights, links, [HEAD] + now, level - 1, 0);
      }
    }

    method UnlinkBack(target: Ref, ghost i: nat)
      requires Distinct(Path()) && i < |order| && order[i] == target && Backward(back, order, tail)
      requires (target, 0) in links && links[(target, 0)].forward == if i + 1 < |order| then order[i + 1] else NULL
      modifies this`back, this`tail
      ensures Backward(back, CutOut(order, i), tail)
    {
      ghost var was, end := back, tail;
      DistinctOrder(order);
      assert BackAt(back, order, i);
      if links[(target, 0)].forward != NULL {
        back := back[links[(target, 0)].forward := back[target]];
      } else {
        tail := back[target];
      }
      forall a | 0 <= a < |order| && a != i + 1 ensures BackAt(back, order, a) {
        assert BackAt(was, order, a);
      }
      CutBackward(back, order, end, tail, i);
    }

    /** Takes a node out of the list; the node itself keeps its contents. */
    method DetachNode(target: Ref)
      requires Valid() && target in order
      modifies this`links, this`level, this`back, this`tail, this`length, this`order
      ensures Valid() && RemovedFrom(old(order), target, order)
    {
      ghost var i: nat :| i < |order| && order[i] == target;
      OwnPlace(items, order, i);
      DetachLinks(target, i);
      UnlinkBack(target, i);
      CutKeepsOrder(items, order, i);
      length := length - 1;
      order := CutOut(order, i);
    }

    method DetachLinks(target: Ref, ghost i: nat)
      requires Nodes(items, heights, order, level) && i < |order| && order[i] == target &&
          Place(items, order, items[target], i)
      requires Levels(heights, links, Path(), 0, level) && Above(links, level)
      modifies this`links, this`level
      ensures Nodes(items, heights, CutOut(order, i), level)
      ensures Levels(heights, links, [HEAD] + CutOut(order, i), 0, level) && Above(links, level) && Tight(links, level)
      ensures (target, 0) in links && links[(target, 0)].forward == if i + 1 < |order| then order[i + 1] else NULL
    {
      var update, rank := Search(items[target], i);
      CutPath(order, i);
      NextOf(heights, links, order, i);
      BridgeAll(target, update, rank, i + 1);
      CutNodes(items, heights, order, level, i);
      ShrinkLevel(CutOut(order, i));
    }

    /** Walks along one level without passing the wanted position. */
    method Skip(index: nat, from: Ref, at: nat, wanted: nat) returns (current: Ref, traversed: nat)
      requires at <= wanted && at < |Path()| && from == Path()[at] && Tall(heights, from, index)
      requires LevelExact(heights, links, Path(), index)
      ensures traversed <= wanted && traversed < |Path()| && current == Path()[traversed]
      ensures LastUpTo(heights, Path(), index, traversed, if wanted < |Path()| then wanted else |Path()| - 1)
    {
      current, traversed := from, at;
      assert LinkExact(heights, links, Path(), index, traversed);
      while links[(current, index)].forward != NULL && traversed + links[(current, index)].span <= wanted
        invariant traversed <= wanted && traversed < |Path()| && current == Path()[traversed] &&
            Tall(heights, current, index)
        invariant LinkExact(heights, links, Path(), index, traversed)
        decreases wanted - traversed
      {
        traversed := traversed + links[(current, index)].span;
        current := links[(current, index)].forward;
        assert LinkExact(heights, links, Path(), index, traversed);
      }
    }

    /** The node at an index of the order, found by adding spans. */
    method ByRank(rank: nat) returns (node: Ref)
      requires Valid()
      ensures node == if rank < |order| then order[rank] else NULL
    {
      var index, current, traversed: nat := level, HEAD, 0;
      var wanted := rank + 1;
      while index > 0
        invariant 0 <= index <= level && traversed < wanted && traversed < |Path()| && current == Path()[traversed]
        invariant index > 0 ==> Tall(heights, current, index - 1)
        invariant index == 0 ==>
            LastUpTo(heights, Path(), 0, traversed, if wanted < |Path()| then wanted else |Path()| - 1)
      {
        index := index - 1;
        assert LevelExact(heights, links, Path(), index);
        current, traversed := Skip(index, current, traversed, wanted);
        if traversed == wanted {
          return current;
        }
      }
      if wanted < |Path()| {
        assert Path()[wanted] == order[rank] && Tall(heights, Path()[wanted], 0);
      }
      node := NULL;
    }

    /** The next node of level 0. */
    method Next(n: Ref, ghost k: nat) returns (next: Ref)
      requires Valid() && k < |order| && n == order[k]
      ensures next == if k + 1 < |order| then order[k + 1] else NULL
    {
      assert LevelExact(heights, links, Path(), 0);
      NextOf(heights, links, order, k);
      next := links[(n, 0)].forward;
    }

    /** A node outside the list, new or just detached, gets its contents and height. */
    method Prepare(n: Ref, x: Item, height: nat)
      requires Valid() && n != NULL && n != HEAD && n !in order && 1 <= height <= MAX_LEVEL
      modifies this`items, this`heights
      ensures Valid() && items == old(items)[n := x] && heights == old(heights)[n := height]
    {
      ghost var was := heights;
      items, heights := items[n := x], heights[n := height];
      forall k | 0 <= k < level ensures LevelExact(heights, links, Path(), k) {
        assert LevelExact(was, links, Path(), k);
        SameHeights(was, heights, links, Path(), k);
      }
    }
  }
}
