/**
  The red-black tree of an ordered set as it lies in memory: nodes with
  left, right and parent links, colour and subtree size, and one sentinel that
  stands for every missing node and whose parent link the deletion borrows.

  Memory is a map from node identity to node contents that the operations
  update step by step, so that sharing and order of updates are those of the
  program.  `Rep` and `Link` relate memory to a shape of `RbShape`.
 */
module RbMemory {
  import opened Order
  import opened RbShape

  datatype Cell = Cell(left: Ptr, right: Ptr, parent: Ptr, red: bool, size: nat, item: Item)

  type Heap = map<Ptr, Cell>

  function Ptrs(t: Tree): set<Ptr> { if t.E? then {} else {t.n} + Ptrs(t.left) + Ptrs(t.right) }

  function PtrsC(c: Ctx): set<Ptr> { if c.Top? then {} else {c.n} + Ptrs(Side(c)) + PtrsC(c.up) }

  /** Memory holds the subtree t, hanging from the node `parent`. */
  predicate Rep(h: Heap, t: Tree, parent: Ptr) {
    t.N? ==>
      && t.n != NIL && t.n in h
      && h[t.n].left == Root(t.left) && h[t.n].right == Root(t.right) && h[t.n].parent == parent
      && h[t.n].red == t.red && h[t.n].size == Size(t)
      && t.n !in Ptrs(t.left) && t.n !in Ptrs(t.right) && Ptrs(t.left) !! Ptrs(t.right)
      && Rep(h, t.left, t.n) && Rep(h, t.right, t.n)
  }

  /** Memory holds the context c around a subtree rooted at r; sizes on the path aside. */
  predicate Link(h: Heap, c: Ctx, r: Ptr) {
    !c.Top? ==>
      && c.n != NIL && c.n in h && c.n !in Ptrs(Side(c)) && c.n !in PtrsC(c.up) && Ptrs(Side(c)) !! PtrsC(c.up)
      && h[c.n].parent == Par(c.up) && h[c.n].red == c.red
      && h[c.n].left == (if c.InLeft? then r else Root(c.left))
      && h[c.n].right == (if c.InLeft? then Root(c.right) else r)
      && Rep(h, Side(c), c.n) && Link(h, c.up, c.n)
  }

  /** The sizes on the path are right for a subtree of the given size. */
  predicate PathSized(h: Heap, c: Ctx, size: nat) {
    !c.Top? ==>
      && c.n in h && h[c.n].size == size + Size(Side(c)) + 1
      && PathSized(h, c.up, size + Size(Side(c)) + 1)
  }

  /** The sentinel: black, of size 0, its own children; its parent link is free. */
  predicate NilOk(h: Heap) {
    NIL in h && !h[NIL].red && h[NIL].size == 0 && h[NIL].left == NIL && h[NIL].right == NIL
  }

  /** Memory holds the whole tree Plug(c, t), with links, colours and (path aside) sizes. */
  predicate Linked(h: Heap, t: Tree, c: Ctx) {
    NilOk(h) && Rep(h, t, Par(c)) && Link(h, c, Root(t)) && Ptrs(t) !! PtrsC(c)
  }

  predicate RepZ(h: Heap, t: Tree, c: Ctx) {
    Linked(h, t, c) && PathSized(h, c, Size(t))
  }

  // ------------------------------------------------------------------ framing

  predicate Same(h: Heap, h': Heap, ps: set<Ptr>) {
    forall p :: p in ps ==> p in h && p in h' && h[p] == h'[p]
  }

  lemma {:induction false} FrameTree(h: Heap, h': Heap, t: Tree, parent: Ptr)
    requires Rep(h, t, parent) && Same(h, h', Ptrs(t))
    ensures Rep(h', t, parent)
  {
    if t.N? {
      FrameTree(h, h', t.left, t.n);
      FrameTree(h, h', t.right, t.n);
    }
  }

  lemma {:induction false} FrameCtx(h: Heap, h': Heap, c: Ctx, r: Ptr, size: nat)
    requires Same(h, h', PtrsC(c))
    ensures Link(h, c, r) ==> Link(h', c, r)
    ensures PathSized(h, c, size) ==> PathSized(h', c, size)
  {
    if !c.Top? && c.n in h {
      FrameCtx(h, h', c.up, c.n, size + Size(Side(c)) + 1);
      if Rep(h, Side(c), c.n) {
        FrameTree(h, h', Side(c), c.n);
      }
    }
  }

  lemma {:induction false} NilNotIn(h: Heap, t: Tree, parent: Ptr)
    requires Rep(h, t, parent)
    ensures NIL !in Ptrs(t) && forall p :: p in Ptrs(t) ==> p in h
  {
    if t.N? {
      NilNotIn(h, t.left, t.n);
      NilNotIn(h, t.right, t.n);
    }
  }

  lemma {:induction false} NilNotInC(h: Heap, c: Ctx, r: Ptr)
    requires Link(h, c, r)
    ensures NIL !in PtrsC(c) && forall p :: p in PtrsC(c) ==> p in h
  {
    if !c.Top? {
      NilNotIn(h, Side(c), c.n);
      NilNotInC(h, c.up, c.n);
    }
  }

  /** The focus may move up and down without touching memory. */
  lemma MoveUp(h: Heap, t: Tree, c: Ctx)
    requires !c.Top?
    ensures RepZ(h, t, c) <==> RepZ(h, Lift(c, t), c.up)
    ensures Plug(c, t) == Plug(c.up, Lift(c, t))
  {
  }

  // ------------------------------------------------------------ single updates

  function SetLeft(h: Heap, n: Ptr, p: Ptr): Heap requires n in h { h[n := h[n].(left := p)] }
  function SetRight(h: Heap, n: Ptr, p: Ptr): Heap requires n in h { h[n := h[n].(right := p)] }
  function SetParent(h: Heap, n: Ptr, p: Ptr): Heap requires n in h { h[n := h[n].(parent := p)] }
  function SetRed(h: Heap, n: Ptr, red: bool): Heap requires n in h { h[n := h[n].(red := red)] }
  function SetSize(h: Heap, n: Ptr, size: nat): Heap requires n in h { h[n := h[n].(size := size)] }

  /** The colour of the node in focus. */
  lemma ColourFocus(h: Heap, t: Tree, c: Ctx, red: bool)
    requires RepZ(h, t, c) && t.N?
    ensures RepZ(SetRed(h, t.n, red), t.(red := red), c)
  {
    var h' := SetRed(h, t.n, red);
    NilNotIn(h, t, Par(c));
    FrameTree(h, h', t.left, t.n);
    FrameTree(h, h', t.right, t.n);
    NilNotInC(h, c, t.n);
    FrameCtx(h, h', c, t.n, Size(t));
  }

  // ---------------------------------------------------------------- rotations

  /** Outside the given nodes memory is as before. */
  predicate Elsewhere(h: Heap, h': Heap, touched: set<Ptr>) {
    h'.Keys == h.Keys && forall p :: p in h && p !in touched ==> h'[p] == h[p]
  }

  /** The link from above now leads to r. */
  predicate Redirected(h: Heap, h': Heap, c: Ctx, r: Ptr) {
    !c.Top? ==>
      && c.n in h && c.n in h'
      && h'[c.n] == if c.InLeft? then h[c.n].(left := r) else h[c.n].(right := r)
  }

  lemma RedirectCtx(h: Heap, h': Heap, c: Ctx, was: Ptr, r: Ptr, size: nat, touched: set<Ptr>)
    requires Link(h, c, was) && Redirected(h, h', c, r)
    requires Elsewhere(h, h', touched + {Par(c)}) && touched !! PtrsC(c)
    ensures Link(h', c, r) && (PathSized(h, c, size) ==> PathSized(h', c, size))
  {
    if !c.Top? {
      NilNotIn(h, Side(c), c.n);
      NilNotInC(h, c.up, c.n);
      FrameTree(h, h', Side(c), c.n);
      FrameCtx(h, h', c.up, c.n, size + Size(Side(c)) + 1);
    }
  }

  /** A subtree whose root was hung from another node. */
  lemma ReparentTree(h: Heap, h': Heap, t: Tree, p: Ptr, q: Ptr, touched: set<Ptr>)
    requires Rep(h, t, p) && h'.Keys == h.Keys && touched !! Ptrs(t)
    requires t.N? ==> h'[t.n] == h[t.n].(parent := q)
    requires Elsewhere(h, h', touched + {Root(t)})
    ensures Rep(h', t, q)
  {
    if t.N? {
      NilNotIn(h, t, p);
      FrameTree(h, h', t.left, t.n);
      FrameTree(h, h', t.right, t.n);
    }
  }

  /** Memory after a rotation that makes y, a child of x, the parent of x. */
  predicate Turned(h: Heap, h': Heap, x: Ptr, y: Ptr, b: Ptr, c: Ctx, left: bool) {
    && {x, y, b, NIL} <= h.Keys
    && Elsewhere(h, h', {x, y, b, Par(c)})
    && h'[NIL] == h[NIL]
    && h'[x] == (if left then h[x].(right := b) else h[x].(left := b)).(parent := y, size := h'[x].size)
    && h'[y] == (if left then h[y].(left := x) else h[y].(right := x)).(parent := Par(c), size := h'[y].size)
    && (b != NIL ==> h'[b] == h[b].(parent := x))
    && Redirected(h, h', c, y)
  }

  lemma LeftTurn(h: Heap, h': Heap, t: Tree, c: Ctx)
    requires RepZ(h, t, c) && t.N? && t.right.N?
    requires Turned(h, h', t.n, t.right.n, Root(t.right.left), c, true)
    requires h'[t.n].size == Size(t.left) + Size(t.right.left) + 1
    requires h'[t.right.n].size == Size(t)
    ensures RepZ(h', N(N(t.left, t.red, t.n, t.right.left), t.right.red, t.right.n, t.right.right), c)
  {
    var x, y, b := t.n, t.right, t.right.left;
    NilNotIn(h, t, Par(c));
    NilNotInC(h, c, x);
    assert Rep(h, y, x);
    FrameTree(h, h', t.left, x);
    FrameTree(h, h', y.right, y.n);
    ReparentTree(h, h', b, y.n, x, {x, y.n, Par(c)});
    RedirectCtx(h, h', c, x, y.n, Size(t), if b.N? then {x, y.n, b.n} else {x, y.n});
  }

  lemma RightTurn(h: Heap, h': Heap, t: Tree, c: Ctx)
    requires RepZ(h, t, c) && t.N? && t.left.N?
    requires Turned(h, h', t.n, t.left.n, Root(t.left.right), c, false)
    requires h'[t.n].size == Size(t.left.right) + Size(t.right) + 1
    requires h'[t.left.n].size == Size(t)
    ensures RepZ(h', N(t.left.left, t.left.red, t.left.n, N(t.left.right, t.red, t.n, t.right)), c)
  {
    var x, y, b := t.n, t.left, t.left.right;
    NilNotIn(h, t, Par(c));
    NilNotInC(h, c, x);
    assert Rep(h, y, x);
    FrameTree(h, h', t.right, x);
    FrameTree(h, h', y.left, y.n);
    ReparentTree(h, h', b, y.n, x, {x, y.n, Par(c)});
    RedirectCtx(h, h', c, x, y.n, Size(t), if b.N? then {x, y.n, b.n} else {x, y.n});
  }

  // ----------------------------------------------------- colours near the focus

  /** The context of the sibling of the focus. */
  function Across(c: Ctx, t: Tree): Ctx
    requires !c.Top?
  {
    if c.InLeft? then InRight(c.up, t, c.red, c.n) else InLeft(c.up, c.red, c.n, t)
  }

  lemma MoveAcross(h: Heap, t: Tree, c: Ctx)
    requires !c.Top?
    ensures RepZ(h, t, c) <==> RepZ(h, Side(c), Across(c, t))
  {
    MoveUp(h, t, c);
    MoveUp(h, Side(c), Across(c, t));
  }

  lemma ColourParent(h: Heap, t: Tree, c: Ctx, red: bool)
    requires RepZ(h, t, c) && !c.Top?
    ensures RepZ(SetRed(h, c.n, red), t, WithRed(c, red))
  {
    MoveUp(h, t, c);
    ColourFocus(h, Lift(c, t), c.up, red);
    MoveUp(SetRed(h, c.n, red), t, WithRed(c, red));
  }

  lemma ColourSide(h: Heap, t: Tree, c: Ctx, red: bool)
    requires RepZ(h, t, c) && !c.Top? && Side(c).N?
    ensures RepZ(SetRed(h, Side(c).n, red), t, WithSide(c, Side(c).(red := red)))
  {
    MoveAcross(h, t, c);
    ColourFocus(h, Side(c), Across(c, t), red);
    MoveAcross(SetRed(h, Side(c).n, red), t, WithSide(c, Side(c).(red := red)));
  }

  // ------------------------------------------------------------- whole trees

  lemma {:induction false} PlugRoot(c: Ctx, t: Tree, t': Tree)
    ensures !c.Top? ==> Root(Plug(c, t)) == Root(Plug(c, t'))
    ensures t.N? || !c.Top? ==> Plug(c, t).N?
    decreases c
  {
    if !c.Top? {
      PlugRoot(c.up, Lift(c, t), Lift(c, t'));
    }
  }

  lemma {:induction false} PlugRep(h: Heap, t: Tree, c: Ctx)
    ensures RepZ(h, t, c) <==> RepZ(h, Plug(c, t), Top)
    decreases c
  {
    if !c.Top? {
      MoveUp(h, t, c);
      PlugRep(h, Lift(c, t), c.up);
    }
  }

  lemma {:induction false} PtrsAreInorder(t: Tree)
    ensures forall p :: p in Ptrs(t) <==> p in Inorder(t)
  {
    if t.N? {
      PtrsAreInorder(t.left);
      PtrsAreInorder(t.right);
    }
  }

  lemma {:induction false} PtrsOfPlug(c: Ctx, t: Tree)
    ensures Ptrs(Plug(c, t)) == PtrsC(c) + Ptrs(t)
    decreases c
  {
    if !c.Top? {
      PtrsOfPlug(c.up, Lift(c, t));
    }
  }

  /** The way to a node of the tree. */
  function Find(t: Tree, c: Ctx, p: Ptr): (r: (Tree, Ctx))
    requires p in Ptrs(t)
    ensures r.0.N? && r.0.n == p && Plug(r.1, r.0) == Plug(c, t)
    decreases t
  {
    if t.n == p then (t, c)
    else if p in Ptrs(t.left) then Find(t.left, InLeft(c, t.red, t.n, t.right), p)
    else Find(t.right, InRight(c, t.left, t.red, t.n), p)
  }

  /** Items and identities stay; only links, colours and sizes may change. */
  predicate SameItems(h: Heap, h': Heap) {
    h'.Keys == h.Keys && forall p :: p in h ==> h'[p].item == h[p].item
  }

  lemma RootSize(h: Heap, t: Tree, parent: Ptr)
    requires NilOk(h) && Rep(h, t, parent)
    ensures Root(t) in h && h[Root(t)].size == Size(t) && h[Root(t)].red == IsRed(t)
  {
  }

  /** What can be read around the focus. */
  lemma FocusLinks(h: Heap, t: Tree, c: Ctx)
    requires RepZ(h, t, c)
    ensures Root(t) in h && h[Root(t)].red == IsRed(t) && (t.N? ==> h[Root(t)].parent == Par(c))
    ensures NIL in h && Par(c) in h && h[Par(c)].red == (!c.Top? && c.red)
    ensures !c.Top? ==>
              && c.n != NIL && h[c.n].parent == Par(c.up) && Root(Side(c)) in h &&
                  h[Root(Side(c))].red == IsRed(Side(c))
              && (if c.InLeft? then h[c.n].left == Root(t) && h[c.n].right == Root(c.right)
                  else h[c.n].left == Root(c.left) && h[c.n].right == Root(t))
              && (t.N? || Side(c).N? ==> Root(t) != Root(Side(c)))
  {
    RootSize(h, t, Par(c));
    if !c.Top? {
      RootSize(h, Side(c), c.n);
    }
  }

  function LeftTurned(t: Tree): Tree
    requires t.N? && t.right.N?
  {
    N(N(t.left, t.red, t.n, t.right.left), t.right.red, t.right.n, t.right.right)
  }

  function RightTurned(t: Tree): Tree
    requires t.N? && t.left.N?
  {
    N(t.left.left, t.left.red, t.left.n, N(t.left.right, t.red, t.n, t.right))
  }

  /** What a rotation relies on: x has the child y with inner subtree b, and c above it. */
  predicate Pivot(h: Heap, root: Ptr, x: Ptr, y: Ptr, b: Ptr, c: Ctx) {
    && {x, y, b, NIL} <= h.Keys && x != y && x != NIL && y != NIL
    && b != x && b != y && h[x].parent == Par(c)
    && {h[x].left, h[x].right, h[y].left, h[y].right} <= h.Keys
    && x != h[x].left && x != h[x].right && y != h[y].left && y != h[y].right
    && h[y].left != x && h[y].right != x && h[x].left != h[x].right
    && (b == NIL || (h[y].left != h[y].right && b != h[x].left && b != h[x].right))
    && (c.Top? ==> root == x)
    && (!c.Top? ==>
          && c.n in h && c.n != NIL && c.n !in {x, y, b}
          && c.n !in {h[x].left, h[x].right, h[y].left, h[y].right}
          && (if c.InLeft? then h[c.n].left == x else h[c.n].right == x && h[c.n].left != x))
  }

  lemma PivotLeft(h: Heap, root: Ptr, t: Tree, c: Ctx)
    requires RepZ(h, t, c) && t.N? && t.right.N? && root == Root(Plug(c, t))
    ensures Pivot(h, root, t.n, t.right.n, Root(t.right.left), c)
    ensures h[t.n].right == t.right.n && h[t.right.n].left == Root(t.right.left) && h[h[t.n].left].size == Size(t.left)
    ensures h[h[t.right.n].left].size == Size(t.right.left) && h[h[t.right.n].right].size == Size(t.right.right)
  {
    NilNotIn(h, t, Par(c));
    NilNotInC(h, c, t.n);
    RootSize(h, t.left, t.n);
    RootSize(h, t.right, t.n);
    RootSize(h, t.right.left, t.right.n);
    RootSize(h, t.right.right, t.right.n);
  }

  lemma PivotRight(h: Heap, root: Ptr, t: Tree, c: Ctx)
    requires RepZ(h, t, c) && t.N? && t.left.N? && root == Root(Plug(c, t))
    ensures Pivot(h, root, t.n, t.left.n, Root(t.left.right), c)
    ensures h[t.n].left == t.left.n && h[t.left.n].right == Root(t.left.right) && h[h[t.n].right].size == Size(t.right)
    ensures h[h[t.left.n].left].size == Size(t.left.left) && h[h[t.left.n].right].size == Size(t.left.right)
  {
    NilNotIn(h, t, Par(c));
    NilNotInC(h, c, t.n);
    RootSize(h, t.left, t.n);
    RootSize(h, t.right, t.n);
    RootSize(h, t.left.left, t.left.n);
    RootSize(h, t.left.right, t.left.n);
  }

  // ------------------------------------------------------- order and contents

  /** The items of the nodes are strictly increasing. */
  predicate SortedPtrs(h: Heap, ps: seq<Ptr>) {
    && (forall i :: 0 <= i < |ps| ==> ps[i] in h)
    && forall i, j :: 0 <= i < j < |ps| ==> Less(h[ps[i]].item, h[ps[j]].item)
  }

  predicate AllBelow(h: Heap, ps: seq<Ptr>, x: Item) {
    forall p :: p in ps ==> p in h && Less(h[p].item, x)
  }

  predicate AllAbove(h: Heap, ps: seq<Ptr>, x: Item) {
    forall p :: p in ps ==> p in h && Less(x, h[p].item)
  }

  /** The place of x is inside the subtree in context c. */
  ghost predicate Place(h: Heap, c: Ctx, x: Item) {
    && AllBelow(h, Before(c), x) && AllAbove(h, After(c), x)
    && (!c.Top? ==> c.n in h && c.InLeft? == Less(x, h[c.n].item))
  }

  lemma SortedSplit(h: Heap, a: seq<Ptr>, l: seq<Ptr>, n: Ptr, r: seq<Ptr>, b: seq<Ptr>)
    requires SortedPtrs(h, a + (l + [n] + r) + b)
    ensures n in h && AllBelow(h, l, h[n].item) && AllAbove(h, r, h[n].item)
  {
    var all, k := a + (l + [n] + r) + b, |a| + |l|;
    assert all[k] == n;
    forall p | p in l ensures p in h && Less(h[p].item, h[n].item) {
      var i :| 0 <= i < |l| && l[i] == p;
      assert all[|a| + i] == p;
    }
    forall p | p in r ensures p in h && Less(h[n].item, h[p].item) {
      var i :| 0 <= i < |r| && r[i] == p;
      assert all[k + 1 + i] == p;
    }
  }

  /** Comparing with the root of a subtree moves the place into one of its children. */
  lemma PlaceDown(h: Heap, t: Tree, c: Ctx, x: Item)
    requires t.N? && SortedPtrs(h, Inorder(Plug(c, t))) && Place(h, c, x)
    requires t.n in h && h[t.n].item != x
    ensures if Less(x, h[t.n].item) then Place(h, InLeft(c, t.red, t.n, t.right), x)
            else Place(h, InRight(c, t.left, t.red, t.n), x)
  {
    PlugInorder(c, t);
    SortedSplit(h, Before(c), Inorder(t.left), t.n, Inorder(t.right), After(c));
    LessTotal(x, h[t.n].item);
    if Less(x, h[t.n].item) {
      forall p | p in Inorder(t.right) ensures Less(x, h[p].item) { LessTransitive(x, h[t.n].item, h[p].item); }
    } else {
      forall p | p in Inorder(t.left) ensures Less(h[p].item, x) { LessTransitive(h[p].item, h[t.n].item, x); }
    }
  }

  lemma PlaceFrame(h: Heap, h': Heap, c: Ctx, x: Item)
    requires Place(h, c, x) && SameItems(h, h')
    ensures Place(h', c, x)
  {
  }

  lemma InsertedSorted(h: Heap, a: seq<Ptr>, n: Ptr, b: seq<Ptr>)
    requires SortedPtrs(h, a + b) && n in h && AllBelow(h, a, h[n].item) && AllAbove(h, b, h[n].item)
    ensures SortedPtrs(h, a + [n] + b)
  {
    var all, was := a + [n] + b, a + b;
    forall i | 0 <= i < |all| ensures all[i] in h {
      assert i < |a| ==> all[i] == was[i];
      assert i > |a| ==> all[i] == was[i - 1];
    }
    forall i, j | 0 <= i < j < |all| ensures Less(h[all[i]].item, h[all[j]].item) {
      assert i < |a| ==> all[i] == was[i] && all[i] in a;
      assert i > |a| ==> all[i] == was[i - 1];
      assert j < |a| ==> all[j] == was[j];
      assert j > |a| ==> all[j] == was[j - 1] && all[j] in b;
    }
  }

  lemma RemovedSorted(h: Heap, a: seq<Ptr>, n: Ptr, b: seq<Ptr>)
    requires SortedPtrs(h, a + [n] + b)
    ensures SortedPtrs(h, a + b)
  {
    var all, now := a + [n] + b, a + b;
    forall i | 0 <= i < |now| ensures now[i] in h {
      assert now[i] == all[if i < |a| then i else i + 1];
    }
    forall i, j | 0 <= i < j < |now| ensures Less(h[now[i]].item, h[now[j]].item) {
      assert now[i] == all[if i < |a| then i else i + 1];
      assert now[j] == all[if j < |a| then j else j + 1];
    }
  }

  lemma SizeFrame(h: Heap, n: Ptr, size: nat)
    requires n in h
    ensures SameItems(h, SetSize(h, n, size)) && Elsewhere(h, SetSize(h, n, size), {n})
  {
  }

  lemma SortedFrame(h: Heap, h': Heap, ps: seq<Ptr>)
    requires SortedPtrs(h, ps) && SameItems(h, h')
    ensures SortedPtrs(h', ps)
  {
  }

  // ------------------------------------------------------------ going down

  /** The path above the focus already counts one more node. */
  predicate Counting(h: Heap, t: Tree, c: Ctx) {
    Linked(h, t, c) && PathSized(h, c, Size(t) + 1)
  }

  lemma CountFrame(h: Heap, t: Tree, c: Ctx)
    requires Counting(h, t, c) && t.N?
    ensures t.n in h && h[t.n].size == Size(t) && t.n != NIL
    ensures h[t.n].left == Root(t.left) && h[t.n].right == Root(t.right)
    ensures var h' := SetSize(h, t.n, Size(t) + 1);
      && Rep(h', t.left, t.n) && Rep(h', t.right, t.n) && Link(h', c, t.n) && PathSized(h', c, Size(t) + 1)
  {
    var h' := SetSize(h, t.n, Size(t) + 1);
    NilNotIn(h, t, Par(c));
    NilNotInC(h, c, t.n);
    FrameTree(h, h', t.left, t.n);
    FrameTree(h, h', t.right, t.n);
    FrameCtx(h, h', c, t.n, Size(t) + 1);
  }

  lemma CountLeft(h: Heap, t: Tree, c: Ctx)
    requires Counting(h, t, c) && t.N?
    ensures t.n in h && Counting(SetSize(h, t.n, Size(t) + 1), t.left, InLeft(c, t.red, t.n, t.right))
  {
    CountFrame(h, t, c);
    assert Ptrs(t.left) !! PtrsC(InLeft(c, t.red, t.n, t.right));
  }

  lemma CountRight(h: Heap, t: Tree, c: Ctx)
    requires Counting(h, t, c) && t.N?
    ensures t.n in h && Counting(SetSize(h, t.n, Size(t) + 1), t.right, InRight(c, t.left, t.red, t.n))
  {
    CountFrame(h, t, c);
    assert Ptrs(t.right) !! PtrsC(InRight(c, t.left, t.red, t.n));
  }

  /** One comparison on the way down to the place of x. */
  lemma GoDown(h: Heap, t: Tree, c: Ctx, x: Item)
    requires Counting(h, t, c) && t.N? && SortedPtrs(h, Inorder(Plug(c, t))) && Place(h, c, x)
    requires t.n in h && h[t.n].item != x
    ensures var h' := SetSize(h, t.n, Size(t) + 1);
      if Less(x, h[t.n].item)
      then Counting(h', t.left, InLeft(c, t.red, t.n, t.right)) && Place(h', InLeft(c, t.red, t.n, t.right), x)
      else Counting(h', t.right, InRight(c, t.left, t.red, t.n)) && Place(h', InRight(c, t.left, t.red, t.n), x)
  {
    var h' := SetSize(h, t.n, Size(t) + 1);
    PlaceDown(h, t, c, x);
    if Less(x, h[t.n].item) {
      CountLeft(h, t, c);
      PlaceFrame(h, h', InLeft(c, t.red, t.n, t.right), x);
    } else {
      CountRight(h, t, c);
      PlaceFrame(h, h', InRight(c, t.left, t.red, t.n), x);
    }
  }

  /** A new red leaf under the path that already counts it. */
  lemma LinkLeaf(h: Heap, h': Heap, c: Ctx, n: Ptr)
    requires Linked(h, E, c) && PathSized(h, c, 1)
    requires n in h && n != NIL && n !in PtrsC(c)
    requires h[n].left == NIL && h[n].right == NIL && h[n].red && h[n].size == 1
    requires Elsewhere(h, h', {n, Par(c)}) && h'[n] == h[n].(parent := Par(c)) && Redirected(h, h', c, n)
    requires h'[NIL] == h[NIL]
    ensures RepZ(h', N(E, true, n, E), c)
  {
    RedirectCtx(h, h', c, NIL, n, 1, {n});
  }

  lemma RootIsIn(t: Tree, c: Ctx)
    requires t.N?
    ensures t.n in Inorder(Plug(c, t))
  {
    PlugInorder(c, t);
  }

  lemma InsertOrder(h: Heap, c: Ctx, n: Ptr, now: seq<Ptr>)
    requires SortedPtrs(h, Before(c) + After(c)) && n in h && Place(h, c, h[n].item)
    requires now == Before(c) + [n] + After(c)
    ensures SortedPtrs(h, now) && InsertedInto(Before(c) + After(c), n, now)
  {
    var a, b := Before(c), After(c);
    InsertedSorted(h, a, n, b);
    assert (a + b)[..|a|] == a && (a + b)[|a|..] == b;
  }

  lemma InsertShape(c: Ctx, n: Ptr)
    requires RedBlack(Plug(c, E))
    ensures var now := InsertFix(N(E, true, n, E), c);
      && RedBlack(now) && Size(now) == Size(Plug(c, E)) + 1 && BlackTop(c)
      && Inorder(now) == Before(c) + [n] + After(c) && Inorder(Plug(c, E)) == Before(c) + After(c)
  {
    var leaf := N(E, true, n, E);
    UnplugRedBlack(c, E);
    InsertFixRedBlack(leaf, c);
    InsertFixInorder(leaf, c);
    PlugInorder(c, leaf);
    PlugInorder(c, E);
    assert Inorder(leaf) == [n];
    SizeIsLength(InsertFix(leaf, c));
  }

  // ------------------------------------------------------------------ deletion

  /** The whole tree seen from the sibling. */
  lemma AcrossSame(t: Tree, c: Ctx)
    requires !c.Top?
    ensures Plug(Across(c, t), Side(c)) == Plug(c, t)
  {
    assert Lift(Across(c, t), Side(c)) == Lift(c, t);
  }

  lemma NephewLinks(h: Heap, t: Tree, c: Ctx)
    requires RepZ(h, t, c) && !c.Top? && Side(c).N?
    ensures Side(c).n in h && h[Side(c).n].left in h && h[Side(c).n].right in h
    ensures h[h[Side(c).n].left].red == IsRed(Side(c).left) && h[h[Side(c).n].right].red == IsRed(Side(c).right)
  {
    RootSize(h, Side(c).left, Side(c).n);
    RootSize(h, Side(c).right, Side(c).n);
  }

  /** The focus is the root exactly when there is nothing above it. */
  lemma RootOnlyAtTop(h: Heap, t: Tree, c: Ctx)
    requires RepZ(h, t, c)
    ensures Root(t) == Root(Plug(c, t)) <==> c.Top?
    ensures Root(t) in h && h[Root(t)].red == IsRed(t)
  {
    RootSize(h, t, Par(c));
    PlugRoot(c, t, t);
    NilNotInC(h, c, Root(t));
    PtrsOfPlug(c, t);
    if !c.Top? {
      TopInCtx(c, t);
    }
  }

  lemma {:induction false} TopInCtx(c: Ctx, t: Tree)
    requires !c.Top?
    ensures Root(Plug(c, t)) in PtrsC(c)
    decreases c
  {
    if !c.up.Top? {
      TopInCtx(c.up, Lift(c, t));
    }
  }

  /** Recalculating the size of the node above the focus lifts the focus. */
  lemma RaiseSize(h: Heap, t: Tree, c: Ctx)
    requires Linked(h, t, c) && !c.Top?
    ensures c.n in h && h[c.n].left in h && h[c.n].right in h && c.n != NIL && h[c.n].parent == Par(c.up)
    ensures h[h[c.n].left].size + h[h[c.n].right].size + 1 == Size(Lift(c, t))
    ensures Linked(SetSize(h, c.n, Size(Lift(c, t))), Lift(c, t), c.up)
  {
    var h' := SetSize(h, c.n, Size(Lift(c, t)));
    NilNotIn(h, t, c.n);
    NilNotInC(h, c, Root(t));
    RootSize(h, t, c.n);
    RootSize(h, Side(c), c.n);
    FrameTree(h, h', t, c.n);
    FrameTree(h, h', Side(c), c.n);
    FrameCtx(h, h', c.up, c.n, 0);
  }

  /** The subtree `sub` takes the place of the one rooted at `was`. */
  lemma Splice(h: Heap, h': Heap, sub: Tree, q: Ptr, c: Ctx, was: Ptr)
    requires NilOk(h) && NilOk(h') && Rep(h, sub, q) && Link(h, c, was) && Ptrs(sub) !! PtrsC(c)
    requires Elsewhere(h, h', {Root(sub), Par(c)}) && Redirected(h, h', c, Root(sub))
    requires Root(sub) in h && h'[Root(sub)] == h[Root(sub)].(parent := Par(c))
    ensures Linked(h', sub, c)
  {
    NilNotIn(h, sub, q);
    NilNotInC(h, c, was);
    ReparentTree(h, h', sub, q, Par(c), {Par(c)});
    RedirectCtx(h, h', c, was, Root(sub), 0, if sub.N? then {sub.n} else {NIL});
  }

  function TopNode(c: Ctx): Ptr
    requires !c.Top?
  {
    if c.up.Top? then c.n else TopNode(c.up)
  }

  lemma {:induction false} PtrsUnder(a: Ctx, b: Ctx)
    ensures PtrsC(Under(a, b)) == PtrsC(a) + PtrsC(b)
    ensures !a.Top? ==> TopNode(a) in PtrsC(a)
  {
    if !a.Top? {
      PtrsUnder(a.up, b);
    }
  }

  /** Memory after the node m has taken the place of a node with left subtree l in context c. */
  predicate Adopted(h: Heap, h': Heap, lc: Ctx, c: Ctx, l: Tree, red: bool, m: Ptr, r: Ptr) {
    && h'.Keys == h.Keys && m in h && m != NIL && l.N? && l.n in h
    && h'[m].left == l.n && h'[m].right == (if lc.Top? then r else TopNode(lc))
    && h'[m].parent == Par(c) && h'[m].red == red
    && h'[l.n] == h[l.n].(parent := m)
    && (!lc.Top? ==> TopNode(lc) in h && h'[TopNode(lc)] == h[TopNode(lc)].(parent := m))
    && Redirected(h, h', c, m)
    && Elsewhere(h, h', if lc.Top? then {m, l.n, Par(c)} else {m, l.n, Par(c), TopNode(lc)})
  }

  lemma AdoptHere(h: Heap, h': Heap, c: Ctx, l: Tree, red: bool, n: Ptr, m: Ptr, r: Ptr, touched: set<Ptr>)
    requires Link(h, c, n) && Rep(h, l, n) && l.N? && Ptrs(l) !! PtrsC(c) && m !in PtrsC(c) && m !in Ptrs(l)
    requires m in h && m != NIL && h'.Keys == h.Keys && h'[m].left == l.n && h'[m].right == r
    requires h'[m].parent == Par(c) && h'[m].red == red && h'[l.n] == h[l.n].(parent := m)
    requires Redirected(h, h', c, m) && m in touched && touched !! PtrsC(c) && touched * Ptrs(l) == {l.n}
    requires Elsewhere(h, h', touched + {Par(c)})
    ensures Link(h', InRight(c, l, red, m), r)
  {
    NilNotIn(h, l, n);
    NilNotInC(h, c, n);
    ReparentTree(h, h', l, n, m, touched + {Par(c)} - {l.n});
    RedirectCtx(h, h', c, n, m, 0, touched);
  }

  /** The innermost node of the context below, and its side, are only rehung. */
  lemma AdoptSide(h: Heap, h': Heap, lc: Ctx, c: Ctx, l: Tree, red: bool, n: Ptr, m: Ptr, r: Ptr)
    requires Link(h, Under(lc, InRight(c, l, red, n)), r) && !lc.Top? && l.N? && l.n in h
    requires m !in PtrsC(Under(lc, InRight(c, l, red, n)))
    requires Adopted(h, h', lc, c, l, red, m, r)
    ensures Rep(h', Side(lc), lc.n)
    ensures lc.n in h && h'[lc.n] == if lc.up.Top? then h[lc.n].(parent := m) else h[lc.n]
  {
    var outer := InRight(c, l, red, n);
    PtrsUnder(lc.up, outer);
    NilNotInC(h, Under(lc, outer), r);
    assert Ptrs(Side(lc)) <= PtrsC(Under(lc, outer));
    assert l.n in PtrsC(Under(lc.up, outer)) && (!c.Top? ==> c.n in PtrsC(Under(lc.up, outer)));
    FrameTree(h, h', Side(lc), lc.n);
  }

  /** The context below the replaced node stays, hung from m. */
  lemma {:induction false} Adopt(h: Heap, h': Heap, lc: Ctx, c: Ctx, l: Tree, red: bool, n: Ptr, m: Ptr, r0: Ptr,
      r: Ptr)
    requires Link(h, Under(lc, InRight(c, l, red, n)), r0) && l.N? && l.n in h
    requires m !in PtrsC(Under(lc, InRight(c, l, red, n)))
    requires Adopted(h, h', lc, c, l, red, m, r) && (lc.Top? || r == r0)
    ensures Link(h', Under(lc, InRight(c, l, red, m)), r)
    decreases lc
  {
    if lc.Top? {
      AdoptHere(h, h', c, l, red, n, m, r, {m, l.n});
    } else {
      AdoptSide(h, h', lc, c, l, red, n, m, r);
      PtrsUnder(lc.up, InRight(c, l, red, n));
      PtrsUnder(lc.up, InRight(c, l, red, m));
      if lc.up.Top? {
        AdoptHere(h, h', c, l, red, n, m, lc.n, {m, l.n, lc.n});
      } else {
        Adopt(h, h', lc.up, c, l, red, n, m, lc.n, lc.n);
      }
    }
  }

  lemma FocusChildren(h: Heap, t: Tree, c: Ctx)
    requires RepZ(h, t, c) && t.N?
    ensures t.n in h && t.n != NIL && h[t.n].left == Root(t.left) && h[t.n].right == Root(t.right)
    ensures Root(t.left) in h && Root(t.right) in h && (Root(t.left) != NIL <==> t.left.N?) &&
        (Root(t.right) != NIL <==> t.right.N?)
    ensures h[Root(t.left)].size == Size(t.left)
  {
    RootSize(h, t.left, t.n);
    RootSize(h, t.right, t.n);
  }

  lemma DirectFacts(h: Heap, t: Tree, c: Ctx)
    requires RepZ(h, t, c) && t.N? && t.left.N? && t.right.N?
    ensures NilOk(h) && {t.n, t.left.n, t.right.n, Root(t.right.right)} <= h.Keys
    ensures h[t.n].left == t.left.n && h[t.n].right == t.right.n && h[t.right.n].right == Root(t.right.right)
    ensures h[t.right.n].parent == t.n && h[t.n].red == t.red
    ensures t.right.n !in {NIL, t.n, t.left.n, Par(c), Root(t.right.right)}
    ensures t.left.n !in {NIL, t.n, Par(c), Root(t.right.right)} && t.n !in {NIL, Par(c), Root(t.right.right)}
    ensures Root(t.right.right) != NIL ==> Root(t.right.right) != Par(c)
    ensures Ptrs(t) !! PtrsC(c) && t.right.n !in Ptrs(t.right.right) && Ptrs(t.left) !! Ptrs(t.right)
  {
    NilNotIn(h, t, Par(c));
    NilNotInC(h, c, t.n);
    assert Rep(h, t.right, t.n);
    RootSize(h, t.right.right, t.right.n);
  }

  lemma DirectFrame(h: Heap, h1: Heap, t: Tree, c: Ctx)
    requires RepZ(h, t, c) && t.N? && t.left.N? && t.right.N? && t.right.left.E?
    requires Root(t.right.right) in h && h1 == SetParent(h, Root(t.right.right), t.right.n)
    ensures NilOk(h1) && Rep(h1, t.right.right, t.right.n) && Rep(h1, t.left, t.n) && Link(h1, c, t.n)
    ensures Link(h1, InRight(c, t.left, t.red, t.n), t.right.n) && SameItems(h, h1)
  {
    MoveUp(h, t.right, InRight(c, t.left, t.red, t.n));
    NilNotIn(h, t, Par(c));
    NilNotInC(h, c, t.n);
    assert Rep(h, t.right, t.n);
    FrameCtx(h, h1, InRight(c, t.left, t.red, t.n), t.right.n, 0);
    ReparentTree(h, h1, t.right.right, t.right.n, t.right.n, {});
  }

  lemma ItemsKept(h: Heap, h': Heap, touched: set<Ptr>)
    requires Elsewhere(h, h', touched) && forall p :: p in touched && p in h ==> h'[p].item == h[p].item
    ensures SameItems(h, h')
  {
  }

  lemma DirectDone(h1: Heap, h: Heap, t: Tree, c: Ctx)
    requires t.N? && t.left.N? && t.right.N? && Ptrs(t) !! PtrsC(c) && Rep(h1, t.right.right, t.right.n)
    requires t.right.n !in Ptrs(t.right.right) && Ptrs(t.left) !! Ptrs(t.right)
    requires Elsewhere(h1, h, {t.right.n, t.left.n, Par(c)}) && NilOk(h)
    requires Root(t.right.right) in h1 && h1[Root(t.right.right)].parent == t.right.n
    requires Link(h, InRight(c, t.left, t.red, t.right.n), Root(t.right.right))
    requires Root(t.right.right) !in {t.right.n, t.left.n}
    requires t.right.right.E? ==> h[NIL] == h1[NIL]
    ensures Linked(h, t.right.right, InRight(c, t.left, t.red, t.right.n))
    ensures h[Root(t.right.right)].parent == t.right.n
  {
    NilNotIn(h1, t.right.right, t.right.n);
    FrameTree(h1, h, t.right.right, t.right.n);
  }

  lemma {:induction false} LinkUnder(h: Heap, lc: Ctx, outer: Ctx, r: Ptr)
    requires Link(h, Under(lc, outer), r)
    ensures Link(h, outer, if lc.Top? then r else TopNode(lc))
    ensures PtrsC(lc) !! PtrsC(outer)
    decreases lc
  {
    if !lc.Top? {
      PtrsUnder(lc.up, outer);
      LinkUnder(h, lc.up, outer, lc.n);
    }
  }

  lemma FarOpen(h: Heap, mt: Tree, cm: Ctx)
    requires RepZ(h, mt, cm) && mt.N? && mt.left.E? && !cm.Top?
    ensures mt.n in h && NilOk(h) && h[mt.n].right == Root(mt.right) && Root(mt.right) in h && h[mt.n].parent == Par(cm)
    ensures cm.n != NIL && cm.n in h && cm.n != Root(mt.right) && mt.n !in PtrsC(cm) && mt.n !in Ptrs(mt.right)
    ensures if cm.InLeft? then h[cm.n].left == mt.n else h[cm.n].left != mt.n
    ensures Rep(h, mt.right, mt.n) && Link(h, cm, mt.n) && Ptrs(mt.right) !! PtrsC(cm) && mt.n != NIL
  {
    FocusLinks(h, mt, cm);
    FocusChildren(h, mt, cm);
    NilNotIn(h, mt, Par(cm));
    NilNotInC(h, cm, mt.n);
  }

  /** What can be read at a node with left subtree l and right child `top`. */
  predicate OuterFacts(h: Heap, c: Ctx, l: Tree, red: bool, n: Ptr, top: Ptr) {
    && l.N? && {n, l.n, NIL} <= h.Keys && NilOk(h)
    && h[n].left == l.n && h[n].right == top && h[n].parent == Par(c) && h[n].red == red
    && l.n !in {NIL, n, Par(c)} && n !in {NIL, Par(c)}
    && (!c.Top? ==> c.n != NIL && c.n in h && (if c.InLeft? then h[c.n].left == n else h[c.n].left != n))
  }

  lemma OuterLink(h: Heap, c: Ctx, l: Tree, red: bool, n: Ptr, top: Ptr)
    requires Link(h, InRight(c, l, red, n), top) && l.N? && NilOk(h)
    ensures OuterFacts(h, c, l, red, n, top)
    ensures {n, l.n} <= PtrsC(InRight(c, l, red, n)) && (!c.Top? ==> c.n in PtrsC(InRight(c, l, red, n)))
  {
    NilNotIn(h, l, n);
    if c.InRight? && c.left.N? { assert c.left.n in PtrsC(c); }
  }

  predicate Apart(m: Ptr, n: Ptr, l: Ptr, top: Ptr, p: Ptr) {
    m !in {NIL, n, l, top, p} && top !in {NIL, n, l, p}
  }

  lemma FarFacts(h: Heap, mr: Tree, lc: Ctx, c: Ctx, l: Tree, red: bool, n: Ptr, m: Ptr)
    requires Linked(h, mr, Under(lc, InRight(c, l, red, n))) && !lc.Top? && l.N?
    requires m != NIL && m !in PtrsC(Under(lc, InRight(c, l, red, n)))
    ensures OuterFacts(h, c, l, red, n, TopNode(lc)) && Apart(m, n, l.n, TopNode(lc), Par(c))
    ensures TopNode(lc) in h
  {
    var outer := InRight(c, l, red, n);
    LinkUnder(h, lc, outer, Root(mr));
    OuterLink(h, c, l, red, n, TopNode(lc));
    PtrsUnder(lc, outer);
    NilNotInC(h, Under(lc, outer), Root(mr));
  }

  lemma FarFrame(h1: Heap, h: Heap, mr: Tree, p: Ptr, touched: set<Ptr>)
    requires Rep(h1, mr, p) && Elsewhere(h1, h, touched) && touched !! Ptrs(mr) && Root(mr) in h1
    requires NIL in h1 && h[NIL] == h1[NIL] && h1[Root(mr)].parent == p
    ensures Rep(h, mr, p) && h[Root(mr)].parent == p
  {
    NilNotIn(h1, mr, p);
    FrameTree(h1, h, mr, p);
  }

  lemma FarSets(mr: Tree, lc: Ctx, c: Ctx, l: Tree, red: bool, n: Ptr, m: Ptr)
    requires Ptrs(mr) !! PtrsC(Under(lc, InRight(c, l, red, n))) && !lc.Top? && l.N?
    requires m !in Ptrs(mr) && NIL !in Ptrs(mr)
    ensures Ptrs(mr) !! PtrsC(Under(lc, InRight(c, l, red, m)))
    ensures {m, l.n, Par(c), TopNode(lc)} !! Ptrs(mr)
  {
    PtrsUnder(lc, InRight(c, l, red, n));
    PtrsUnder(lc, InRight(c, l, red, m));
  }

  lemma FarRep(h1: Heap, h: Heap, mr: Tree, lc: Ctx, c: Ctx, l: Tree, red: bool, n: Ptr, m: Ptr)
    requires !lc.Top? && l.N? && m !in Ptrs(mr)
    requires NilOk(h1) && Rep(h1, mr, lc.n) && Ptrs(mr) !! PtrsC(Under(lc, InRight(c, l, red, n)))
    requires Adopted(h1, h, lc, c, l, red, m, Root(mr)) && NIL in h && h[NIL] == h1[NIL]
    requires Root(mr) in h1 && h1[Root(mr)].parent == lc.n
    ensures Rep(h, mr, lc.n) && h[Root(mr)].parent == lc.n && NilOk(h)
    ensures Ptrs(mr) !! PtrsC(Under(lc, InRight(c, l, red, m)))
  {
    NilNotIn(h1, mr, lc.n);
    FarSets(mr, lc, c, l, red, n, m);
    FarFrame(h1, h, mr, lc.n, {m, l.n, Par(c), TopNode(lc)});
  }

  lemma Assemble(h: Heap, t: Tree, c: Ctx, p: Ptr)
    requires NilOk(h) && Rep(h, t, p) && p == Par(c) && Link(h, c, Root(t)) && Ptrs(t) !! PtrsC(c)
    ensures Linked(h, t, c)
  {
  }

  /** Only a replaced root changes the root. */
  lemma FarRoot(lc: Ctx, c: Ctx, t: Tree, m: Ptr, mr: Tree)
    requires t.N?
    ensures Root(Plug(Under(lc, InRight(c, t.left, t.red, m)), mr)) == if c.Top? then m else Root(Plug(c, t))
  {
    PlugUnder(lc, InRight(c, t.left, t.red, m), mr);
    PlugRoot(c, t, N(t.left, t.red, m, Plug(lc, mr)));
  }

  /** The successor hangs from the target exactly when it is its right child. */
  lemma SuccessorParent(h: Heap, lc: Ctx, outer: Ctx, mt: Tree)
    requires RepZ(h, mt, Under(lc, outer)) && mt.N? && !outer.Top?
    ensures h[mt.n].parent == Par(Under(lc, outer)) && (h[mt.n].parent == outer.n <==> lc.Top?)
    ensures !lc.Top? ==> Par(Under(lc, outer)) == lc.n
  {
    PtrsUnder(lc, outer);
    LinkUnder(h, lc, outer, mt.n);
    if !lc.Top? { assert lc.n in PtrsC(lc); }
  }

  /** The nodes around the place of the fix-up are still in the tree. */
  lemma SplicedPtrs(h: Heap, sub: Tree, black: bool, c: Ctx)
    requires Inorder(Spliced(sub, black, c)) == Before(c) + Inorder(sub) + After(c)
    ensures Par(c) == NIL || Par(c) in Ptrs(Spliced(sub, black, c))
    ensures sub.N? ==> sub.n in Ptrs(Spliced(sub, black, c))
  {
    var t := Spliced(sub, black, c);
    PlugInorder(c, sub);
    PtrsAreInorder(t);
    PtrsAreInorder(Plug(c, sub));
    PtrsOfPlug(c, sub);
  }

  lemma RemovedKeepsOrder(h: Heap, was: seq<Ptr>, n: Ptr, now: seq<Ptr>)
    requires SortedPtrs(h, was) && RemovedFrom(was, n, now)
    ensures SortedPtrs(h, now) && |now| == |was| - 1
  {
    var k :| 0 <= k < |was| && was[k] == n && now == was[..k] + was[k + 1..];
    assert was == was[..k] + [n] + was[k + 1..];
    RemovedSorted(h, was[..k], n, was[k + 1..]);
  }

  /** Where the root of the focus stands in the whole order. */
  lemma RankStep(t: Tree, c: Ctx)
    requires t.N?
    ensures var all := Inorder(Plug(c, t)); var k := |Before(c)| + Size(t.left);
      && k < |all| && all[k] == t.n
      && |Before(InRight(c, t.left, t.red, t.n))| == k + 1
      && |Before(InLeft(c, t.red, t.n, t.right))| == |Before(c)|
      && |all| == |Before(c)| + Size(t) + |After(c)|
  {
    PlugInorder(c, t);
    SizeIsLength(t);
    SizeIsLength(t.left);
    var all := Inorder(Plug(c, t));
    var k := |Before(c)| + Size(t.left);
    assert all == Before(c) + (Inorder(t.left) + [t.n] + Inorder(t.right)) + After(c);
    assert all[k] == (Inorder(t.left) + [t.n] + Inorder(t.right))[Size(t.left)];
  }

  /** In a sorted order a node stands at one position only. */
  lemma PositionOf(h: Heap, shape: Tree, t: Tree, c: Ctx, k: nat)
    requires t.N? && Plug(c, t) == shape && SortedPtrs(h, Inorder(shape))
    requires k < |Inorder(shape)| && Inorder(shape)[k] == t.n
    ensures k == |Before(c)| + Size(t.left)
  {
    RankStep(t, c);
    LessTotal(h[t.n].item, h[t.n].item);
  }

  lemma NextInside(shape: Tree, t: Tree, c: Ctx, k: nat, first: Ptr)
    requires t.N? && Plug(c, t) == shape && k == |Before(c)| + Size(t.left)
    requires Inorder(t.right) != [] && Inorder(t.right)[0] == first
    ensures k + 1 < |Inorder(shape)| && Inorder(shape)[k + 1] == first
  {
    PlugInorder(c, t);
    SizeIsLength(t.left);
    SeqNext(Before(c), Inorder(t.left), t.n, Inorder(t.right), After(c));
  }

  lemma FirstOf(lc: Ctx, mt: Tree)
    requires mt.N? && mt.left.E? && Before(lc) == []
    ensures Inorder(Plug(lc, mt)) != [] && Inorder(Plug(lc, mt))[0] == mt.n
  {
    PlugInorder(lc, mt);
    assert Inorder(mt) == [mt.n] + Inorder(mt.right);
  }

  lemma SeqNext(a: seq<Ptr>, l: seq<Ptr>, n: Ptr, r: seq<Ptr>, b: seq<Ptr>)
    ensures var all := a + (l + [n] + r) + b; var k := |a| + |l|;
      && |all| == k + 1 + |r| + |b|
      && (r != [] ==> all[k + 1] == r[0]) && (r == [] && b != [] ==> all[k + 1] == b[0])
  {
    var all, k := a + (l + [n] + r) + b, |a| + |l|;
    assert r != [] ==> all[k + 1] == (l + [n] + r)[|l| + 1];
  }

  lemma NextOutside(shape: Tree, t: Tree, c: Ctx, k: nat)
    requires t.N? && t.right.E? && Plug(c, t) == shape && k == |Before(c)| + Size(t.left)
    ensures |Inorder(shape)| == k + 1 + |After(c)|
    ensures After(c) != [] ==> Inorder(shape)[k + 1] == After(c)[0]
  {
    PlugInorder(c, t);
    SizeIsLength(t.left);
    SeqNext(Before(c), Inorder(t.left), t.n, [], After(c));
  }
}
