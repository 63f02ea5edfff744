/**
  Red-black trees as values: the shape of a tree, its zipper, and the two
  fix-ups as functions on the zipper.  Nothing here knows about memory.
 */
module RbShape {
  import opened Order

  /** The identity of a node; NIL is the shared sentinel. */
  type Ptr = nat
  const NIL: Ptr := 0

  datatype Tree = E | N(left: Tree, red: bool, n: Ptr, right: Tree)

  /** The way from a subtree up to the root. */
  datatype Ctx =
    | Top
    | InLeft(up: Ctx, red: bool, n: Ptr, right: Tree)
    | InRight(up: Ctx, left: Tree, red: bool, n: Ptr)

  function Root(t: Tree): Ptr { if t.E? then NIL else t.n }

  /** The node above a subtree in context c. */
  function Par(c: Ctx): Ptr { if c.Top? then NIL else c.n }

  function Size(t: Tree): nat { if t.E? then 0 else Size(t.left) + Size(t.right) + 1 }

  function Inorder(t: Tree): seq<Ptr> {
    if t.E? then [] else Inorder(t.left) + [t.n] + Inorder(t.right)
  }

  /** One level up: the subtree together with the node above it. */
  function Lift(c: Ctx, t: Tree): Tree
    requires !c.Top?
  {
    if c.InLeft? then N(t, c.red, c.n, c.right) else N(c.left, c.red, c.n, t)
  }

  function Plug(c: Ctx, t: Tree): Tree
    decreases c
  {
    if c.Top? then t else Plug(c.up, Lift(c, t))
  }

  /** The nodes before and after the subtree in the order of the whole tree. */
  function Before(c: Ctx): seq<Ptr> {
    match c
    case Top => []
    case InLeft(up, _, _, _) => Before(up)
    case InRight(up, l, _, n) => Before(up) + Inorder(l) + [n]
  }

  function After(c: Ctx): seq<Ptr> {
    match c
    case Top => []
    case InLeft(up, _, n, r) => [n] + Inorder(r) + After(up)
    case InRight(up, _, _, _) => After(up)
  }

  /** The context of an inner context placed under an outer one. */
  function Under(inner: Ctx, outer: Ctx): Ctx {
    match inner
    case Top => outer
    case InLeft(up, red, n, r) => InLeft(Under(up, outer), red, n, r)
    case InRight(up, l, red, n) => InRight(Under(up, outer), l, red, n)
  }

  lemma {:induction false} PlugInorder(c: Ctx, t: Tree)
    ensures Inorder(Plug(c, t)) == Before(c) + Inorder(t) + After(c)
    ensures Size(Plug(c, t)) == |Before(c)| + Size(t) + |After(c)|
    decreases c
  {
    SizeIsLength(Plug(c, t));
    SizeIsLength(t);
    if !c.Top? {
      PlugInorder(c.up, Lift(c, t));
      LiftInorder(c, t);
    }
  }

  lemma LiftInorder(c: Ctx, t: Tree)
    requires !c.Top?
    ensures Before(c.up) + Inorder(Lift(c, t)) + After(c.up) == Before(c) + Inorder(t) + After(c)
  {
  }

  lemma {:induction false} SizeIsLength(t: Tree)
    ensures |Inorder(t)| == Size(t)
  {
    if t.N? {
      SizeIsLength(t.left);
      SizeIsLength(t.right);
    }
  }

  lemma {:induction false} PlugUnder(inner: Ctx, outer: Ctx, t: Tree)
    ensures Plug(Under(inner, outer), t) == Plug(outer, Plug(inner, t))
    decreases inner
  {
    if !inner.Top? {
      PlugUnder(inner.up, outer, Lift(inner, t));
    }
  }

  // ------------------------------------------------------ red-black invariants

  predicate IsRed(t: Tree) { t.N? && t.red }

  function Blacken(t: Tree): Tree { if t.E? then t else t.(red := false) }

  /** Black nodes on the left spine. */
  function BlackHeight(t: Tree): nat {
    if t.E? then 0 else BlackHeight(t.left) + (if t.red then 0 else 1)
  }

  /** Every path down has the same number of black nodes. */
  predicate Balanced(t: Tree) {
    t.N? ==> Balanced(t.left) && Balanced(t.right) && BlackHeight(t.left) == BlackHeight(t.right)
  }

  /** No red node has a red child. */
  predicate NoRedRed(t: Tree) {
    t.N? ==> NoRedRed(t.left) && NoRedRed(t.right) && (t.red ==> !IsRed(t.left) && !IsRed(t.right))
  }

  predicate RedBlack(t: Tree) { Balanced(t) && NoRedRed(t) && !IsRed(t) }

  function Side(c: Ctx): Tree
    requires !c.Top?
  {
    if c.InLeft? then c.right else c.left
  }

  /** The context with the node next to the focus recoloured, with another sibling, or placed elsewhere. */
  function WithRed(c: Ctx, red: bool): Ctx
    requires !c.Top?
  {
    if c.InLeft? then InLeft(c.up, red, c.n, c.right) else InRight(c.up, c.left, red, c.n)
  }

  function WithSide(c: Ctx, s: Tree): Ctx
    requires !c.Top?
  {
    if c.InLeft? then InLeft(c.up, c.red, c.n, s) else InRight(c.up, s, c.red, c.n)
  }

  function WithUp(c: Ctx, up: Ctx): Ctx
    requires !c.Top?
  {
    if c.InLeft? then InLeft(up, c.red, c.n, c.right) else InRight(up, c.left, c.red, c.n)
  }

  /** The context is balanced around a subtree of black height h. */
  predicate BalancedAround(c: Ctx, h: nat) {
    !c.Top? ==>
      && Balanced(Side(c)) && BlackHeight(Side(c)) == h
      && BalancedAround(c.up, h + (if c.red then 0 else 1))
  }

  /** The context has no red-red edge around a subtree whose root has the given colour. */
  predicate NoRedRedAround(c: Ctx, red: bool) {
    !c.Top? ==>
      && NoRedRed(Side(c)) && (c.red ==> !red && !IsRed(Side(c)))
      && NoRedRedAround(c.up, c.red)
  }

  /** The root of the whole tree, if it is in the context, is black. */
  predicate BlackTop(c: Ctx) {
    !c.Top? ==> if c.up.Top? then !c.red else BlackTop(c.up)
  }

  lemma {:induction false} PlugRedBlack(c: Ctx, t: Tree)
    requires Balanced(t) && NoRedRed(t) && BalancedAround(c, BlackHeight(t)) && NoRedRedAround(c, IsRed(t))
    requires BlackTop(c) && (c.Top? ==> !IsRed(t))
    ensures RedBlack(Plug(c, t))
    decreases c
  {
    if !c.Top? {
      PlugRedBlack(c.up, Lift(c, t));
    }
  }

  /** Conversely, every zipper of a red-black tree satisfies the pieces. */
  lemma {:induction false} UnplugRedBlack(c: Ctx, t: Tree)
    requires RedBlack(Plug(c, t))
    ensures Balanced(t) && NoRedRed(t) && BalancedAround(c, BlackHeight(t)) && NoRedRedAround(c, IsRed(t))
    ensures BlackTop(c) && (c.Top? ==> !IsRed(t))
    decreases c
  {
    if !c.Top? {
      UnplugRedBlack(c.up, Lift(c, t));
    }
  }

  // ---------------------------------------------------------------- insertion

  /** Red uncle: parent and uncle turn black, the grandparent red. */
  function Recoloured(t: Tree, c: Ctx): Tree
    requires !c.Top? && !c.up.Top?
  {
    var p := Lift(WithRed(c, false), t);
    if c.up.InLeft? then N(p, true, c.up.n, Blacken(c.up.right)) else N(Blacken(c.up.left), true, c.up.n, p)
  }

  /** Black uncle: the subtree that replaces the grandparent after one or two rotations. */
  function Rotated(t: Tree, c: Ctx): Tree
    requires t.N? && !c.Top? && !c.up.Top?
  {
    var g, u, p := c.up.n, Side(c.up), c.n;
    if c.up.InLeft? then
      if c.InLeft? then N(t, false, p, N(c.right, true, g, u))
      else N(N(c.left, true, p, t.left), false, t.n, N(t.right, true, g, u))
    else
      if c.InRight? then N(N(u, true, g, c.left), false, p, t)
      else N(N(u, true, g, t.left), false, t.n, N(t.right, true, p, c.right))
  }

  /**
    The insertion fix-up: t is the red subtree whose root may have a red
    parent.  A red uncle moves the problem two levels up, a black one ends it.
   */
  function InsertFix(t: Tree, c: Ctx): Tree
    requires t.N?
    decreases c
  {
    if c.Top? || !c.red || c.up.Top? then Blacken(Plug(c, t))
    else if IsRed(Side(c.up)) then InsertFix(Recoloured(t, c), c.up.up)
    else Blacken(Plug(c.up.up, Rotated(t, c)))
  }

  lemma BlackenSame(t: Tree)
    ensures Inorder(Blacken(t)) == Inorder(t) && Size(Blacken(t)) == Size(t)
    ensures Balanced(t) ==> Balanced(Blacken(t))
    ensures NoRedRed(t) ==> NoRedRed(Blacken(t))
  {
  }

  lemma Reassociate(a: seq<Ptr>, x: Ptr, b: seq<Ptr>, y: Ptr, d: seq<Ptr>)
    ensures (a + [x] + b) + [y] + d == a + [x] + (b + [y] + d)
  {
  }

  /** Both ways to rebuild the three levels keep the order of the nodes. */
  lemma LocalOrder(t: Tree, c: Ctx)
    requires t.N? && !c.Top? && !c.up.Top?
    ensures Inorder(Recoloured(t, c)) == Inorder(Rotated(t, c)) == Inorder(Lift(c.up, Lift(c, t)))
  {
    var u := Inorder(Side(c.up));
    var l, r := Inorder(t.left), Inorder(t.right);
    BlackenSame(Side(c.up));
    if c.up.InLeft? && c.InLeft? {
      Reassociate(Inorder(t), c.n, Inorder(c.right), c.up.n, u);
    } else if c.up.InLeft? {
      var s := Inorder(c.left);
      Reassociate(s, c.n, l, t.n, r);
      Reassociate(s + [c.n] + l, t.n, r, c.up.n, u);
      assert Inorder(Rotated(t, c)) == (s + [c.n] + l) + [t.n] + (r + [c.up.n] + u);
      assert Inorder(Lift(c, t)) == s + [c.n] + (l + [t.n] + r);
    } else if c.InRight? {
      Reassociate(u, c.up.n, Inorder(c.left), c.n, Inorder(t));
    } else {
      var s := Inorder(c.right);
      Reassociate(l, t.n, r, c.n, s);
      Reassociate(u, c.up.n, l, t.n, r + [c.n] + s);
      assert Inorder(Rotated(t, c)) == (u + [c.up.n] + l) + [t.n] + (r + [c.n] + s);
      assert Inorder(Lift(c, t)) == (l + [t.n] + r) + [c.n] + s;
    }
  }

  /** The fix-up keeps the order of the nodes. */
  lemma {:induction false} InsertFixInorder(t: Tree, c: Ctx)
    requires t.N?
    ensures Inorder(InsertFix(t, c)) == Inorder(Plug(c, t))
    decreases c
  {
    BlackenSame(Plug(c, t));
    if !c.Top? && c.red && !c.up.Top? {
      var up := c.up.up;
      LocalOrder(t, c);
      PlugInorder(up, Lift(c.up, Lift(c, t)));
      PlugInorder(up, Recoloured(t, c));
      PlugInorder(up, Rotated(t, c));
      BlackenSame(Plug(up, Rotated(t, c)));
      if IsRed(Side(c.up)) {
        InsertFixInorder(Recoloured(t, c), up);
      }
    }
  }

  /** The fix-up makes a red-black tree of a tree whose only fault is at the focus. */
  lemma {:induction false} InsertFixRedBlack(t: Tree, c: Ctx)
    requires IsRed(t) && Balanced(t) && NoRedRed(t)
    requires BalancedAround(c, BlackHeight(t)) && NoRedRedAround(c, false) && BlackTop(c)
    ensures RedBlack(InsertFix(t, c))
    decreases c
  {
    if c.Top? {
      BlackenSame(t);
    } else if !c.red {
      PlugRedBlack(c, t);
    } else if IsRed(Side(c.up)) {
      BlackenSame(Side(c.up));
      InsertFixRedBlack(Recoloured(t, c), c.up.up);
    } else {
      PlugRedBlack(c.up.up, Rotated(t, c));
    }
  }

  // ----------------------------------------------------------------- deletion

  /** A red sibling is rotated away, so that the focus has a black one. */
  function Settle(c: Ctx): Ctx
    requires !c.Top?
  {
    var s := Side(c);
    if !IsRed(s) then c
    else if c.InLeft? then InLeft(InLeft(c.up, false, s.n, s.right), true, c.n, s.left)
    else InRight(InRight(c.up, s.left, false, s.n), s.right, true, c.n)
  }

  /** Both nephews black: the sibling turns red and the deficit moves to the parent. */
  function PassUp(t: Tree, c: Ctx): Tree
    requires !c.Top? && Side(c).N?
  {
    if c.InLeft? then N(t, c.red, c.n, c.right.(red := true)) else N(c.left.(red := true), c.red, c.n, t)
  }

  /** The far nephew, and the near one. */
  function Far(c: Ctx): Tree requires !c.Top? && Side(c).N? { if c.InLeft? then c.right.right else c.left.left }
  function Near(c: Ctx): Tree requires !c.Top? && Side(c).N? { if c.InLeft? then c.right.left else c.left.right }

  /** A red nephew: one or two rotations repair the deficit for good. */
  function Repaired(t: Tree, c: Ctx): Tree
    requires !c.Top? && Side(c).N? && (IsRed(Far(c)) || IsRed(Near(c)))
  {
    var s, x := Side(c), Near(c);
    if c.InLeft? then
      if IsRed(Far(c)) then N(N(t, false, c.n, x), c.red, s.n, Blacken(s.right))
      else N(N(t, false, c.n, x.left), c.red, x.n, N(x.right, false, s.n, s.right))
    else
      if IsRed(Far(c)) then N(Blacken(s.left), c.red, s.n, N(x, false, c.n, t))
      else N(N(s.left, false, s.n, x.left), c.red, x.n, N(x.right, false, c.n, t))
  }

  /** A red near nephew is rotated outwards, so that the far one is red. */
  function Straightened(c: Ctx): Ctx
    requires !c.Top? && Side(c).N? && (IsRed(Far(c)) || IsRed(Near(c)))
  {
    var s, x := Side(c), Near(c);
    if IsRed(Far(c)) then c
    else if c.InLeft? then WithSide(c, N(x.left, false, x.n, N(x.right, true, s.n, s.right)))
    else WithSide(c, N(N(s.left, true, s.n, x.left), false, x.n, x.right))
  }

  function Depth(c: Ctx): nat { if c.Top? then 0 else Depth(c.up) + 1 }

  predicate RedNephew(c: Ctx)
    requires !c.Top? && Side(c).N?
  {
    IsRed(Far(c)) || IsRed(Near(c))
  }

  /** The focus has a sibling, before and after the settling rotation. */
  predicate HasSibling(c: Ctx)
    requires !c.Top?
  {
    Side(c).N? && Side(Settle(c)).N?
  }

  /**
    The deletion fix-up: t lacks one black node.  (Balance provides the
    sibling; without one the function stops.)
   */
  function DeleteFix(t: Tree, c: Ctx): Tree
    decreases Depth(c), if IsRed(t) then 0 else 1
  {
    if c.Top? || IsRed(t) then Plug(c, Blacken(t))
    else if !HasSibling(c) then Plug(c, t)
    else
      var c' := Settle(c);
      if RedNephew(c') then Blacken(Plug(c'.up, Repaired(t, c')))
      else DeleteFix(PassUp(t, c'), c'.up)
  }

  lemma PassUpOrder(t: Tree, c: Ctx)
    requires !c.Top? && Side(c).N?
    ensures Inorder(PassUp(t, c)) == Inorder(Lift(c, t))
  {
  }

  lemma RepairedOrder(t: Tree, c: Ctx)
    requires !c.Top? && Side(c).N? && (IsRed(Far(c)) || IsRed(Near(c)))
    ensures Inorder(Repaired(t, c)) == Inorder(Lift(c, t))
  {
    var s, x, i := Side(c), Near(c), Inorder(t);
    BlackenSame(Far(c));
    if c.InLeft? {
      Reassociate(i, c.n, Inorder(x), s.n, Inorder(s.right));
      if !IsRed(Far(c)) {
        Reassociate(i, c.n, Inorder(x.left), x.n, Inorder(x.right));
        Reassociate(i + [c.n] + Inorder(x.left), x.n, Inorder(x.right), s.n, Inorder(s.right));
      }
    } else {
      Reassociate(Inorder(s.left), s.n, Inorder(x), c.n, i);
      if !IsRed(Far(c)) {
        Reassociate(Inorder(x.left), x.n, Inorder(x.right), c.n, i);
        Reassociate(Inorder(s.left), s.n, Inorder(x.left), x.n, Inorder(x.right) + [c.n] + i);
      }
    }
  }

  lemma SettleOrder(t: Tree, c: Ctx)
    requires !c.Top?
    ensures Inorder(Plug(Settle(c), t)) == Inorder(Plug(c, t))
  {
    var s, c' := Side(c), Settle(c);
    if IsRed(s) {
      if c.InLeft? {
        Reassociate(Inorder(t), c.n, Inorder(s.left), s.n, Inorder(s.right));
      } else {
        Reassociate(Inorder(s.left), s.n, Inorder(s.right), c.n, Inorder(t));
      }
      assert Inorder(Lift(c'.up, Lift(c', t))) == Inorder(Lift(c, t));
      PlugInorder(c.up, Lift(c'.up, Lift(c', t)));
      PlugInorder(c.up, Lift(c, t));
    }
  }

  /** The fix-up keeps the order of the nodes. */
  lemma {:induction false} DeleteFixInorder(t: Tree, c: Ctx)
    ensures Inorder(DeleteFix(t, c)) == Inorder(Plug(c, t))
    decreases Depth(c), if IsRed(t) then 0 else 1
  {
    PlugInorder(c, t);
    PlugInorder(c, Blacken(t));
    BlackenSame(t);
    if !c.Top? && !IsRed(t) && HasSibling(c) {
      var c' := Settle(c);
      SettleOrder(t, c);
      PlugInorder(c'.up, Lift(c', t));
      if RedNephew(c') {
        RepairedOrder(t, c');
        PlugInorder(c'.up, Repaired(t, c'));
        BlackenSame(Plug(c'.up, Repaired(t, c')));
      } else {
        PassUpOrder(t, c');
        PlugInorder(c'.up, PassUp(t, c'));
        DeleteFixInorder(PassUp(t, c'), c'.up);
      }
    }
  }

  /**
    What the loop may assume about its focus: t lacks exactly one black node,
    and a red root is its only possible fault.
   */
  predicate Deficit(t: Tree, c: Ctx) {
    && Balanced(t) && NoRedRed(Blacken(t))
    && BalancedAround(c, BlackHeight(t) + 1) && NoRedRedAround(c, false) && BlackTop(c)
  }

  /** The missing black node means that there is a sibling to borrow from. */
  lemma DeficitHasSibling(t: Tree, c: Ctx)
    requires Deficit(t, c) && !c.Top? && !IsRed(t)
    ensures HasSibling(c) && !IsRed(Side(Settle(c))) && Deficit(t, Settle(c))
  {
  }

  lemma SiblingParts(t: Tree, c: Ctx)
    requires Deficit(t, c) && !c.Top? && Side(c).N?
    ensures Balanced(Far(c)) && Balanced(Near(c)) && NoRedRed(Far(c)) && NoRedRed(Near(c))
    ensures BlackHeight(Far(c)) == BlackHeight(Near(c))
    ensures BlackHeight(Far(c)) + (if Side(c).red then 0 else 1) == BlackHeight(t) + 1
    ensures Side(c).red ==> !IsRed(Far(c)) && !IsRed(Near(c))
    ensures BalancedAround(c.up, BlackHeight(t) + 1 + (if c.red then 0 else 1)) && NoRedRedAround(c.up, c.red)
  {
  }

  lemma RepairedIsSound(t: Tree, c: Ctx)
    requires Deficit(t, c) && !c.Top? && Side(c).N? && !IsRed(Side(c)) && !IsRed(t) && RedNephew(c)
    ensures Balanced(Repaired(t, c)) && NoRedRed(Repaired(t, c))
    ensures BlackHeight(Repaired(t, c)) == BlackHeight(t) + 1 + (if c.red then 0 else 1)
  {
    SiblingParts(t, c);
    BlackenSame(Far(c));
  }

  lemma PassUpIsDeficit(t: Tree, c: Ctx)
    requires Deficit(t, c) && !c.Top? && Side(c).N? && !IsRed(Side(c)) && !IsRed(t) && !RedNephew(c)
    ensures Deficit(PassUp(t, c), c.up)
  {
    SiblingParts(t, c);
  }

  /** The fix-up makes a red-black tree again. */
  lemma {:induction false} DeleteFixRedBlack(t: Tree, c: Ctx)
    requires Deficit(t, c)
    ensures RedBlack(DeleteFix(t, c))
    decreases Depth(c), if IsRed(t) then 0 else 1
  {
    if c.Top? || IsRed(t) {
      PlugRedBlack(c, Blacken(t));
    } else {
      DeficitHasSibling(t, c);
      var c' := Settle(c);
      if RedNephew(c') {
        RepairedIsSound(t, c');
        SiblingParts(t, c');
        PlugRedBlack(c'.up, Repaired(t, c'));
      } else {
        PassUpIsDeficit(t, c');
        DeleteFixRedBlack(PassUp(t, c'), c'.up);
      }
    }
  }

  // ----------------------------------------------------------- taking a node out

  predicate LeftSpine(c: Ctx) { !c.Top? ==> c.InLeft? && LeftSpine(c.up) }

  /** Left links only, then nothing on the left: the first node of the order. */
  lemma FirstInorder(c: Ctx, t: Tree)
    requires LeftSpine(c) && t.N? && t.left.E?
    ensures Inorder(Plug(c, t)) != [] && Inorder(Plug(c, t))[0] == t.n
  {
    PlugInorder(c, t);
    SpineEmpty(c);
  }

  /** What is known about a context, whatever its nodes are called. */
  predicate Fits(c: Ctx, h: nat, red: bool) {
    BalancedAround(c, h) && NoRedRedAround(c, red) && BlackTop(c)
  }

  lemma {:induction false} RenameFits(lc: Ctx, c: Ctx, l: Tree, red: bool, n: Ptr, m: Ptr, h: nat, b: bool)
    ensures Fits(Under(lc, InRight(c, l, red, n)), h, b) == Fits(Under(lc, InRight(c, l, red, m)), h, b)
    decreases lc
  {
    if !lc.Top? {
      RenameFits(lc.up, c, l, red, n, m, h + (if lc.red then 0 else 1), lc.red);
    }
  }

  lemma {:induction false} RelaxFits(c: Ctx, h: nat)
    requires Fits(c, h, true)
    ensures Fits(c, h, false)
  {
  }

  /** A node with at most one child is replaced by that child. */
  lemma SpliceFits(t: Tree, c: Ctx, sub: Tree)
    requires RedBlack(Plug(c, t)) && t.N?
    requires (t.left.E? && sub == t.right) || (t.right.E? && sub == t.left)
    ensures Balanced(sub) && NoRedRed(sub)
    ensures !t.red ==> Fits(c, BlackHeight(sub) + 1, false)
    ensures t.red ==> sub.E? && Fits(c, 0, false) && !c.Top?
  {
    UnplugRedBlack(c, t);
    if t.red { RedSplice(t, c, sub); } else { BlackSplice(t, c, sub); }
  }

  lemma BlackSplice(t: Tree, c: Ctx, sub: Tree)
    requires t.N? && !t.red && Balanced(t) && NoRedRed(t) && BalancedAround(c, BlackHeight(t)) &&
        NoRedRedAround(c, false)
    requires BlackTop(c) && ((t.left.E? && sub == t.right) || (t.right.E? && sub == t.left))
    ensures Balanced(sub) && NoRedRed(sub) && Fits(c, BlackHeight(sub) + 1, false)
  {
  }

  lemma RedSplice(t: Tree, c: Ctx, sub: Tree)
    requires t.N? && t.red && Balanced(t) && NoRedRed(t) && BalancedAround(c, BlackHeight(t)) && NoRedRedAround(c, true)
    requires BlackTop(c) && !c.Top? && ((t.left.E? && sub == t.right) || (t.right.E? && sub == t.left))
    ensures sub.E? && Fits(c, 0, false)
  {
    RelaxFits(c, BlackHeight(t));
  }

  /** The tree after the replacement, with the fix-up if a black node went. */
  function Spliced(sub: Tree, black: bool, c: Ctx): Tree {
    if black then DeleteFix(sub, c) else Plug(c, sub)
  }

  lemma SplicedRedBlack(sub: Tree, black: bool, c: Ctx)
    requires Balanced(sub) && NoRedRed(sub)
    requires if black then Fits(c, BlackHeight(sub) + 1, false) else sub.E? && Fits(c, 0, false) && !c.Top?
    ensures RedBlack(Spliced(sub, black, c)) && (black ==> Deficit(sub, c))
    ensures Inorder(Spliced(sub, black, c)) == Before(c) + Inorder(sub) + After(c)
  {
    PlugInorder(c, sub);
    if black {
      BlackenSame(sub);
      DeleteFixRedBlack(sub, c);
      DeleteFixInorder(sub, c);
    } else {
      PlugRedBlack(c, sub);
    }
  }

  lemma {:induction false} SpineOrder(lc: Ctx, c: Ctx)
    requires LeftSpine(lc)
    ensures Before(Under(lc, c)) == Before(c) && After(Under(lc, c)) == After(lc) + After(c)
    decreases lc
  {
    if !lc.Top? {
      SpineOrder(lc.up, c);
    }
  }

  lemma RemoveMiddle(a: seq<Ptr>, n: Ptr, b: seq<Ptr>)
    ensures RemovedFrom(a + [n] + b, n, a + b)
  {
    var was := a + [n] + b;
    assert was[|a|] == n && was[..|a|] == a && was[|a| + 1..] == b;
  }

  lemma Associate(a: seq<Ptr>, b: seq<Ptr>, c: seq<Ptr>, d: seq<Ptr>, e: seq<Ptr>)
    ensures a + (b + c + d) + e == (a + b) + c + (d + e)
    ensures a + (b + d) + e == (a + b) + (d + e)
  {
  }

  /** Both ways to take n out remove exactly n from the order. */
  lemma SpliceOrder(t: Tree, c: Ctx, sub: Tree)
    requires t.N? && ((t.left.E? && sub == t.right) || (t.right.E? && sub == t.left))
    ensures RemovedFrom(Inorder(Plug(c, t)), t.n, Before(c) + Inorder(sub) + After(c))
  {
    PlugInorder(c, t);
    var l, r := Inorder(t.left), Inorder(t.right);
    Associate(Before(c), l, [t.n], r, After(c));
    RemoveMiddle(Before(c) + l, t.n, r + After(c));
    assert Inorder(sub) == l + r;
  }

  lemma SuccessorOrder(l: Tree, red: bool, n: Ptr, c: Ctx, lc: Ctx, m: Ptr, mred: bool, mr: Tree)
    requires LeftSpine(lc)
    ensures var c' := Under(lc, InRight(c, l, red, m));
      RemovedFrom(Inorder(Plug(c, N(l, red, n, Plug(lc, N(E, mred, m, mr))))), n,
                  Before(c') + Inorder(mr) + After(c'))
  {
    var r := Plug(lc, N(E, mred, m, mr));
    SpineOrder(lc, InRight(c, l, red, m));
    SpineEmpty(lc);
    PlugInorder(c, N(l, red, n, r));
    PlugInorder(lc, N(E, mred, m, mr));
    SuccessorSeq(Before(c), Inorder(l), n, m, Inorder(mr), After(lc), After(c), Inorder(r));
  }

  lemma SuccessorSeq(a: seq<Ptr>, l: seq<Ptr>, n: Ptr, m: Ptr, mr: seq<Ptr>, al: seq<Ptr>, b: seq<Ptr>, r: seq<Ptr>)
    requires r == [] + ([] + [m] + mr) + al
    ensures RemovedFrom(a + (l + [n] + r) + b, n, (a + l + [m]) + mr + (al + b))
  {
    Associate(a, l, [n], r, b);
    RemoveMiddle(a + l, n, r + b);
    assert (a + l) + (r + b) == (a + l + [m]) + mr + (al + b);
  }

  lemma {:induction false} SpineEmpty(lc: Ctx)
    requires LeftSpine(lc)
    ensures Before(lc) == []
  {
    if !lc.Top? { SpineEmpty(lc.up); }
  }

  /** What is left of the tree once n is out, before the fix-up. */
  ghost predicate CutOut(was: Tree, n: Ptr, sub: Tree, black: bool, c: Ctx) {
    && Balanced(sub) && NoRedRed(sub)
    && (if black then Fits(c, BlackHeight(sub) + 1, false) else sub.E? && Fits(c, 0, false) && !c.Top?)
    && RemovedFrom(Inorder(was), n, Before(c) + Inorder(sub) + After(c))
  }

  lemma CutOuter(t: Tree, c: Ctx, sub: Tree)
    requires RedBlack(Plug(c, t)) && t.N?
    requires (t.left.E? && sub == t.right) || (t.right.E? && sub == t.left)
    ensures CutOut(Plug(c, t), t.n, sub, !t.red, c)
  {
    SpliceFits(t, c, sub);
    SpliceOrder(t, c, sub);
  }

  lemma CutInner(t: Tree, c: Ctx, lc: Ctx, mt: Tree)
    requires RedBlack(Plug(c, t)) && t.N? && mt.N? && mt.left.E? && LeftSpine(lc) && t.right == Plug(lc, mt)
    ensures CutOut(Plug(c, t), t.n, mt.right, !mt.red, Under(lc, InRight(c, t.left, t.red, mt.n)))
  {
    var outer, mr := InRight(c, t.left, t.red, t.n), mt.right;
    PlugUnder(lc, outer, mt);
    assert Plug(Under(lc, outer), mt) == Plug(c, t);
    SpliceFits(mt, Under(lc, outer), mr);
    RenameFits(lc, c, t.left, t.red, t.n, mt.n, BlackHeight(mr) + 1, false);
    RenameFits(lc, c, t.left, t.red, t.n, mt.n, 0, false);
    SuccessorOrder(t.left, t.red, t.n, c, lc, mt.n, mt.red, mr);
    assert mt == N(E, mt.red, mt.n, mr) && t == N(t.left, t.red, t.n, t.right);
    if mt.red { UnderNotTop(lc, InRight(c, t.left, t.red, mt.n)); }
  }

  lemma UnderNotTop(a: Ctx, b: Ctx)
    requires !b.Top?
    ensures !Under(a, b).Top?
  {
  }
}
