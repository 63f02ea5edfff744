/**
  The red-black engine of an ordered set: rotations, both fix-ups, insertion,
  detaching a node, the element at a rank and the next element, each written as
  updates of memory and proved against the functions of `RbShape`.
 */
module RbTree {
  import opened Order
  import opened RbShape
  import opened RbMemory

  /** The tree engine: memory, root and length. */
  class Engine {
    var h: Heap
    var root: Ptr
    var length: nat
    ghost var shape: Tree

    /** Everything the engine promises between operations. */
    ghost predicate Valid()
      reads this
    {
      At(shape, Top) && length == Size(shape) && RedBlack(shape) && SortedPtrs(h, Inorder(shape))
    }

    /** Memory holds the whole tree, focused on t in context c. */
    predicate At(t: Tree, c: Ctx)
      reads this
    {
      RepZ(h, t, c) && root == Root(Plug(c, t))
    }

    /** A node's size from those of its children; the sentinel keeps its own. */
    method Recalculate(n: Ptr)
      requires n in h && h[n].left in h && h[n].right in h
      modifies this`h
      ensures h == if n == NIL then old(h) else SetSize(old(h), n, old(h[h[n].left].size + h[h[n].right].size) + 1)
    {
      if n != NIL {
        h := SetSize(h, n, h[h[n].left].size + h[h[n].right].size + 1);
      }
    }

    /** The link from above that led to x now leads to y. */
    method ReplaceChild(x: Ptr, p: Ptr, y: Ptr, ghost c: Ctx)
      requires p == Par(c) && (!c.Top? ==> p != NIL && p in h)
      requires !c.Top? ==> if c.InLeft? then h[c.n].left == x else h[c.n].left != x
      modifies this`h, this`root
      ensures Redirected(old(h), h, c, y) && root == if c.Top? then y else old(root)
      ensures if c.Top? then h == old(h)
              else h == old(h)[c.n := if c.InLeft? then old(h)[c.n].(left := y) else old(h)[c.n].(right := y)]
    {
      if p == NIL {
        root := y;
      } else if x == h[p].left {
        h := SetLeft(h, p, y);
      } else {
        h := SetRight(h, p, y);
      }
    }

    /** First half of rb_left_rotate: the inner subtree b goes from y to x, y under x's parent. */
    method LeftLower(x: Ptr, y: Ptr, b: Ptr)
      requires {x, y, b} <= h.Keys && x != y && b != x && b != y && h[x].right == y && h[y].left == b
      modifies this`h
      ensures Elsewhere(old(h), h, {x, y, b})
      ensures h[x] == old(h)[x].(right := b) && h[y] == old(h)[y].(parent := old(h)[x].parent)
      ensures h[b] == if b == NIL then old(h)[b] else old(h)[b].(parent := x)
    {
      h := SetRight(h, x, b);
      if b != NIL { h := SetParent(h, b, x); }
      h := SetParent(h, y, h[x].parent);
    }

    /** Second half: x becomes the left child of y, and both sizes are recalculated. */
    method LeftUpper(x: Ptr, y: Ptr)
      requires {x, y} <= h.Keys && x != y && x != NIL && y != NIL
      requires {h[x].left, h[x].right, h[y].right} <= h.Keys
      requires h[x].left !in {x, y} && h[x].right !in {x, y} && h[y].right !in {x, y}
      modifies this`h
      ensures Elsewhere(old(h), h, {x, y})
      ensures h[x] == old(h)[x].(parent := y, size := old(h[h[x].left].size + h[h[x].right].size) + 1)
      ensures h[y] == old(h)[y].(left := x, size := h[x].size + old(h[h[y].right].size) + 1)
    {
      h := SetLeft(h, y, x);
      h := SetParent(h, x, y);
      Recalculate(x);
      Recalculate(y);
    }

    /** The assignments of rb_left_rotate, on bare memory. */
    method LeftLinks(x: Ptr, ghost c: Ctx)
      requires x in h && h[x].right in h
      requires Pivot(h, root, x, h[x].right, h[h[x].right].left, c)
      modifies this`h, this`root
      ensures Turned(old(h), h, x, old(h[x].right), old(h[h[x].right].left), c, true)
      ensures h[x].size == old(h[h[x].left].size + h[h[h[x].right].left].size) + 1
      ensures h[old(h[x].right)].size == h[x].size + old(h[h[h[x].right].right].size) + 1
      ensures root == if c.Top? then old(h[x].right) else old(root)
    {
      var y := h[x].right;
      var b := h[y].left;
      LeftLower(x, y, b);
      ReplaceChild(x, h[x].parent, y, c);
      LeftUpper(x, y);
    }

    method LeftRotate(x: Ptr, ghost t: Tree, ghost c: Ctx)
      requires At(t, c) && t.N? && t.right.N? && x == t.n
      modifies this`h, this`root
      ensures At(LeftTurned(t), c)
      ensures SameItems(old(h), h) && h[NIL] == old(h[NIL])
    {
      ghost var h0 := h;
      PivotLeft(h, root, t, c);
      LeftLinks(x, c);
      LeftTurn(h0, h, t, c);
      PlugRoot(c, t, LeftTurned(t));
    }

    /** First half of rb_right_rotate: the inner subtree b goes from y to x, y under x's parent. */
    method RightLower(x: Ptr, y: Ptr, b: Ptr)
      requires {x, y, b} <= h.Keys && x != y && b != x && b != y && h[x].left == y && h[y].right == b
      modifies this`h
      ensures Elsewhere(old(h), h, {x, y, b})
      ensures h[x] == old(h)[x].(left := b) && h[y] == old(h)[y].(parent := old(h)[x].parent)
      ensures h[b] == if b == NIL then old(h)[b] else old(h)[b].(parent := x)
    {
      h := SetLeft(h, x, b);
      if b != NIL { h := SetParent(h, b, x); }
      h := SetParent(h, y, h[x].parent);
    }

    /** Second half: x becomes the right child of y, and both sizes are recalculated. */
    method RightUpper(x: Ptr, y: Ptr)
      requires {x, y} <= h.Keys && x != y && x != NIL && y != NIL
      requires {h[x].left, h[x].right, h[y].left} <= h.Keys
      requires h[x].left !in {x, y} && h[x].right !in {x, y} && h[y].left !in {x, y}
      modifies this`h
      ensures Elsewhere(old(h), h, {x, y})
      ensures h[x] == old(h)[x].(parent := y, size := old(h[h[x].left].size + h[h[x].right].size) + 1)
      ensures h[y] == old(h)[y].(right := x, size := h[x].size + old(h[h[y].left].size) + 1)
    {
      h := SetRight(h, y, x);
      h := SetParent(h, x, y);
      Recalculate(x);
      Recalculate(y);
    }

    /** The assignments of rb_right_rotate, on bare memory. */
    method RightLinks(x: Ptr, ghost c: Ctx)
      requires x in h && h[x].left in h
      requires Pivot(h, root, x, h[x].left, h[h[x].left].right, c)
      modifies this`h, this`root
      ensures Turned(old(h), h, x, old(h[x].left), old(h[h[x].left].right), c, false)
      ensures h[x].size == old(h[h[x].right].size + h[h[h[x].left].right].size) + 1
      ensures h[old(h[x].left)].size == h[x].size + old(h[h[h[x].left].left].size) + 1
      ensures root == if c.Top? then old(h[x].left) else old(root)
    {
      var y := h[x].left;
      var b := h[y].right;
      RightLower(x, y, b);
      ReplaceChild(x, h[x].parent, y, c);
      RightUpper(x, y);
    }

    method RightRotate(x: Ptr, ghost t: Tree, ghost c: Ctx)
      requires At(t, c) && t.N? && t.left.N? && x == t.n
      modifies this`h, this`root
      ensures At(RightTurned(t), c)
      ensures SameItems(old(h), h) && h[NIL] == old(h[NIL])
    {
      ghost var h0 := h;
      PivotRight(h, root, t, c);
      RightLinks(x, c);
      RightTurn(h0, h, t, c);
      PlugRoot(c, t, RightTurned(t));
    }

    /** The colour of the node above the focus. */
    method ColourUp(n: Ptr, red: bool, ghost t: Tree, ghost c: Ctx)
      requires At(t, c) && !c.Top? && n == c.n
      modifies this`h
      ensures At(t, WithRed(c, red)) && SameItems(old(h), h) && h[NIL] == old(h[NIL])
    {
      ColourParent(h, t, c, red);
      NilNotInC(h, c, Root(t));
      PlugRoot(c.up, Lift(c, t), Lift(WithRed(c, red), t));
      assert Plug(WithRed(c, red), t) == Plug(c.up, Lift(WithRed(c, red), t));
      h := SetRed(h, n, red);
    }

    /** The colour of the sibling of the focus. */
    method ColourAcross(n: Ptr, red: bool, ghost t: Tree, ghost c: Ctx)
      requires At(t, c) && !c.Top? && Side(c).N? && n == Side(c).n
      modifies this`h
      ensures At(t, WithSide(c, Side(c).(red := red))) && SameItems(old(h), h) && h[NIL] == old(h[NIL])
    {
      ColourSide(h, t, c, red);
      NilNotInC(h, c, Root(t));
      ghost var c' := WithSide(c, Side(c).(red := red));
      PlugRoot(c.up, Lift(c, t), Lift(c', t));
      assert Plug(c', t) == Plug(c.up, Lift(c', t));
      h := SetRed(h, n, red);
    }

    /** Red uncle: the colours of three nodes, and the focus moves to the grandparent. */
    method InsertRecolour(node: Ptr, uncle: Ptr, ghost t: Tree, ghost c: Ctx) returns (up: Ptr)
      requires At(t, c) && t.N? && node == t.n && !c.Top? && !c.up.Top? && IsRed(Side(c.up)) && uncle == Side(c.up).n
      modifies this`h
      ensures At(Recoloured(t, c), c.up.up) && up == c.up.n && SameItems(old(h), h)
    {
      FocusLinks(h, t, c);
      ColourUp(h[node].parent, false, t, c);
      ghost var c1 := WithRed(c, false);
      MoveUp(h, t, c1);
      ColourAcross(uncle, false, Lift(c1, t), c.up);
      ghost var c2 := WithSide(c.up, Blacken(Side(c.up)));
      MoveUp(h, t, WithUp(c1, c2));
      FocusLinks(h, t, WithUp(c1, c2));
      up := h[h[node].parent].parent;
      ColourUp(up, true, Lift(c1, t), c2);
      MoveUp(h, Lift(c1, t), WithRed(c2, true));
    }

    /** Black uncle, parent on the left: the rotations of the insertion fix-up. */
    method InsertTurnLeft(n: Ptr, ghost t: Tree, ghost c: Ctx)
      returns (node: Ptr, ghost t': Tree, ghost c': Ctx)
      requires At(t, c) && t.N? && n == t.n && !c.Top? && c.red && c.up.InLeft?
      modifies this`h, this`root
      ensures At(t', c') && t'.N? && node == t'.n && !c'.Top? && !c'.red && Depth(c') < Depth(c)
      ensures Plug(c', t') == Plug(c.up.up, Rotated(t, c))
      ensures SameItems(old(h), h)
    {
      node, t', c' := n, t, c;
      MoveUp(h, t, c);
      FocusLinks(h, t, c);
      if node == h[h[node].parent].right {
        node := h[node].parent;
        LeftRotate(node, Lift(c, t), c.up);
        t' := LeftTurned(Lift(c, t)).left;
        c' := InLeft(c.up, t.red, t.n, t.right);
        MoveUp(h, t', c');
      }
      FocusLinks(h, t', c');
      ColourUp(h[node].parent, false, t', c');
      c' := WithRed(c', false);
      MoveUp(h, t', c');
      FocusLinks(h, Lift(c', t'), c'.up);
      FocusLinks(h, t', c');
      ColourUp(h[h[node].parent].parent, true, Lift(c', t'), c'.up);
      ghost var up, g := c'.up.up, Lift(WithRed(c'.up, true), Lift(c', t'));
      MoveUp(h, Lift(c', t'), WithRed(c'.up, true));
      MoveUp(h, t', WithUp(c', WithRed(c'.up, true)));
      FocusLinks(h, t', WithUp(c', WithRed(c'.up, true)));
      RightRotate(h[h[node].parent].parent, g, up);
      c' := InLeft(up, false, c'.n, N(c'.right, true, c'.up.n, Side(c'.up)));
      MoveUp(h, t', c');
    }

    /** Black uncle, parent on the right: the rotations of the insertion fix-up. */
    method InsertTurnRight(n: Ptr, ghost t: Tree, ghost c: Ctx)
      returns (node: Ptr, ghost t': Tree, ghost c': Ctx)
      requires At(t, c) && t.N? && n == t.n && !c.Top? && c.red && c.up.InRight?
      modifies this`h, this`root
      ensures At(t', c') && t'.N? && node == t'.n && !c'.Top? && !c'.red && Depth(c') < Depth(c)
      ensures Plug(c', t') == Plug(c.up.up, Rotated(t, c))
      ensures SameItems(old(h), h)
    {
      node, t', c' := n, t, c;
      MoveUp(h, t, c);
      FocusLinks(h, t, c);
      if node == h[h[node].parent].left {
        node := h[node].parent;
        RightRotate(node, Lift(c, t), c.up);
        t' := RightTurned(Lift(c, t)).right;
        c' := InRight(c.up, t.left, t.red, t.n);
        MoveUp(h, t', c');
      }
      FocusLinks(h, t', c');
      ColourUp(h[node].parent, false, t', c');
      c' := WithRed(c', false);
      MoveUp(h, t', c');
      FocusLinks(h, Lift(c', t'), c'.up);
      FocusLinks(h, t', c');
      ColourUp(h[h[node].parent].parent, true, Lift(c', t'), c'.up);
      ghost var up, g := c'.up.up, Lift(WithRed(c'.up, true), Lift(c', t'));
      MoveUp(h, Lift(c', t'), WithRed(c'.up, true));
      MoveUp(h, t', WithUp(c', WithRed(c'.up, true)));
      FocusLinks(h, t', WithUp(c', WithRed(c'.up, true)));
      LeftRotate(h[h[node].parent].parent, g, up);
      c' := InRight(up, N(Side(c'.up), true, c'.up.n, c'.left), false, c'.n);
      MoveUp(h, t', c');
    }

    /** One pass of the insertion fix-up: two levels up, or done. */
    method InsertStep(n: Ptr, ghost t: Tree, ghost c: Ctx) returns (node: Ptr, ghost t': Tree, ghost c': Ctx)
      requires At(t, c) && t.N? && n == t.n && !c.Top? && c.red && !c.up.Top? && BlackTop(c)
      modifies this`h, this`root
      ensures At(t', c') && t'.N? && node == t'.n && (!c'.Top? && c'.red ==> BlackTop(c'))
      ensures Depth(c') < Depth(c) && InsertFix(t', c') == InsertFix(t, c) && SameItems(old(h), h)
    {
      FocusLinks(h, t, c);
      MoveUp(h, t, c);
      FocusLinks(h, Lift(c, t), c.up);
      var parent := h[n].parent;
      var grand := h[parent].parent;
      var onLeft := parent == h[grand].left;
      var uncle := if onLeft then h[grand].right else h[grand].left;
      if h[uncle].red {
        node := InsertRecolour(n, uncle, t, c);
        t', c' := Recoloured(t, c), c.up.up;
      } else if onLeft {
        node, t', c' := InsertTurnLeft(n, t, c);
      } else {
        node, t', c' := InsertTurnRight(n, t, c);
      }
    }

    method BlackenRoot(ghost t: Tree, ghost c: Ctx)
      requires At(t, c) && t.N?
      modifies this`h
      ensures At(Blacken(Plug(c, t)), Top) && SameItems(old(h), h) && h[NIL] == old(h[NIL])
    {
      PlugRep(h, t, c);
      PlugRoot(c, t, t);
      NilNotIn(h, Plug(c, t), NIL);
      ColourFocus(h, Plug(c, t), Top, false);
      h := SetRed(h, root, false);
    }

    /** The insertion fix-up loop. */
    method InsertFixup(n: Ptr, ghost t: Tree, ghost c: Ctx)
      requires At(t, c) && t.N? && n == t.n && BlackTop(c)
      modifies this`h, this`root
      ensures At(InsertFix(t, c), Top) && SameItems(old(h), h)
    {
      ghost var t', c' := t, c;
      var node := n;
      FocusLinks(h, t', c');
      while h[h[node].parent].red
        invariant At(t', c') && t'.N? && node == t'.n && (!c'.Top? && c'.red ==> BlackTop(c'))
        invariant node in h && h[node].parent in h && h[h[node].parent].red == (!c'.Top? && c'.red)
        invariant InsertFix(t', c') == InsertFix(t, c) && SameItems(old(h), h)
        decreases Depth(c')
      {
        node, t', c' := InsertStep(node, t', c');
        FocusLinks(h, t', c');
      }
      BlackenRoot(t', c');
    }

    /** One comparison on the way down. */
    method DescendStep(x: Item, current: Ptr, ghost t: Tree, ghost c: Ctx)
      returns (next: Ptr, ghost t': Tree, ghost c': Ctx)
      requires Counting(h, t, c) && t.N? && current == t.n && SortedPtrs(h, Inorder(Plug(c, t)))
      requires current in h && h[current].item != x && Place(h, c, x)
      modifies this`h
      ensures h == SetSize(old(h), current, Size(t) + 1)
      ensures Counting(h, t', c') && Place(h, c', x) && next == Root(t') && Par(c') == current
      ensures (t' == t.left && c' == InLeft(c, t.red, t.n, t.right)) ||
          (t' == t.right && c' == InRight(c, t.left, t.red, t.n))
    {
      CountFrame(h, t, c);
      GoDown(h, t, c, x);
      if Less(x, h[current].item) {
        next, t', c' := h[current].left, t.left, InLeft(c, t.red, t.n, t.right);
      } else {
        next, t', c' := h[current].right, t.right, InRight(c, t.left, t.red, t.n);
      }
      h := SetSize(h, current, h[current].size + 1);
    }

    /** One step of the search leaves the items, the order and the new node alone. */
    method DescendPast(n: Ptr, x: Item, current: Ptr, ghost t: Tree, ghost c: Ctx)
      returns (next: Ptr, ghost t': Tree, ghost c': Ctx)
      requires Counting(h, t, c) && Plug(c, t) == shape && t.N? && current == t.n && SortedPtrs(h, Inorder(shape))
      requires n in h && n !in Inorder(shape) && Place(h, c, x)
      requires forall p :: p in Inorder(shape) ==> p in h && h[p].item != x
      modifies this`h
      ensures SameItems(old(h), h) && h[n] == old(h[n]) && SortedPtrs(h, Inorder(shape))
      ensures Counting(h, t', c') && Plug(c', t') == shape && Place(h, c', x) && next == Root(t') && Par(c') == current
      ensures t' == t.left || t' == t.right
    {
      RootIsIn(t, c);
      SizeFrame(h, current, Size(t) + 1);
      next, t', c' := DescendStep(x, current, t, c);
      SortedFrame(old(h), h, Inorder(shape));
    }

    /** The search for the place of a new node, counting it on the way. */
    method Descend(n: Ptr) returns (parent: Ptr, ghost c: Ctx)
      requires At(shape, Top) && SortedPtrs(h, Inorder(shape)) && n in h && n !in Inorder(shape)
      requires forall p :: p in Inorder(shape) ==> p in h && h[p].item != h[n].item
      modifies this`h
      ensures SameItems(old(h), h) && h[n] == old(h[n])
      ensures Counting(h, E, c) && Plug(c, E) == shape && parent == Par(c) && Place(h, c, old(h[n].item))
    {
      parent, c := NIL, Top;
      var current, x := root, h[n].item;
      ghost var t, h0 := shape, h;
      while current != NIL
        invariant SameItems(h0, h) && h[n] == h0[n] && SortedPtrs(h, Inorder(shape))
        invariant Counting(h, t, c) && Plug(c, t) == shape && parent == Par(c) && current == Root(t)
        invariant Place(h, c, x)
        decreases t
      {
        parent := current;
        current, t, c := DescendPast(n, x, current, t, c);
      }
    }

    /** Hangs the prepared node under its parent. */
    method LinkNode(n: Ptr, parent: Ptr, ghost c: Ctx)
      requires Counting(h, E, c) && parent == Par(c) && root == Root(Plug(c, E))
      requires n in h && n != NIL && n !in PtrsC(c) && Place(h, c, h[n].item)
      requires h[n].left == NIL && h[n].right == NIL && h[n].red && h[n].size == 1
      modifies this`h, this`root
      ensures At(N(E, true, n, E), c) && SameItems(old(h), h)
    {
      ghost var h0 := h;
      NilNotInC(h, c, NIL);
      h := SetParent(h, n, parent);
      if parent == NIL {
        root := n;
      } else if Less(h[n].item, h[parent].item) {
        h := SetLeft(h, parent, n);
      } else {
        h := SetRight(h, parent, n);
      }
      LinkLeaf(h0, h, c, n);
      PlugRoot(c, E, N(E, true, n, E));
    }

    /**
      Inserts a prepared node: it takes its place in the order, and every
      red-black and size invariant holds again.
     */
    method InsertNode(n: Ptr)
      requires Valid() && n in h && n !in Inorder(shape) && n != NIL
      requires h[n].left == NIL && h[n].right == NIL && h[n].red && h[n].size == 1
      requires forall p :: p in Inorder(shape) ==> h[p].item != h[n].item
      modifies this
      ensures Valid() && SameItems(old(h), h) && length == old(length) + 1
      ensures InsertedInto(Inorder(old(shape)), n, Inorder(shape))
    {
      ghost var c;
      var parent;
      parent, c := Descend(n);
      PtrsOfPlug(c, E);
      PtrsAreInorder(shape);
      LinkNode(n, parent, c);
      InsertShape(c, n);
      InsertFixup(n, N(E, true, n, E), c);
      InsertOrder(h, c, n, Inorder(InsertFix(N(E, true, n, E), c)));
      shape := InsertFix(N(E, true, n, E), c);
      length := length + 1;
    }

    /** The deletion fix-up stands at a node, possibly the sentinel, whose parent link is right. */
    predicate AtDeficit(node: Ptr, t: Tree, c: Ctx)
      reads this
    {
      At(t, c) && node == Root(t) && node in h && h[node].parent == Par(c)
    }

    /** The colour of the node in focus. */
    method ColourHere(n: Ptr, red: bool, ghost t: Tree, ghost c: Ctx)
      requires At(t, c) && t.N? && n == t.n
      modifies this`h
      ensures At(t.(red := red), c) && SameItems(old(h), h) && h[NIL] == old(h[NIL])
    {
      ColourFocus(h, t, c, red);
      NilNotIn(h, t, Par(c));
      PlugRoot(c, t, t.(red := red));
      h := SetRed(h, n, red);
    }

    /** Red sibling: recoloured and rotated, so that the focus has a black one. */
    method DeleteSettle(node: Ptr, ghost t: Tree, ghost c: Ctx)
      requires AtDeficit(node, t, c) && !c.Top? && IsRed(Side(c))
      modifies this`h, this`root
      ensures AtDeficit(node, t, Settle(c)) && SameItems(old(h), h) && h[NIL] == old(h[NIL])
    {
      FocusLinks(h, t, c);
      var onLeft := node == h[h[node].parent].left;
      var sibling := if onLeft then h[h[node].parent].right else h[h[node].parent].left;
      ColourAcross(sibling, false, t, c);
      ghost var c1 := WithSide(c, Side(c).(red := false));
      FocusLinks(h, t, c1);
      ColourUp(h[node].parent, true, t, c1);
      ghost var c2 := WithRed(c1, true);
      MoveUp(h, t, c2);
      FocusLinks(h, t, c2);
      if onLeft {
        LeftRotate(h[node].parent, Lift(c2, t), c.up);
      } else {
        RightRotate(h[node].parent, Lift(c2, t), c.up);
      }
      ghost var c3 := Settle(c);
      MoveUp(h, Lift(c3, t), c3.up);
      MoveUp(h, t, c3);
      FocusLinks(h, t, c3);
    }

    /** Black nephews: the sibling turns red and the deficit moves to the parent. */
    method DeletePass(node: Ptr, ghost t: Tree, ghost c: Ctx) returns (up: Ptr)
      requires AtDeficit(node, t, c) && !c.Top? && Side(c).N?
      modifies this`h
      ensures AtDeficit(up, PassUp(t, c), c.up) && SameItems(old(h), h) && h[NIL] == old(h[NIL])
    {
      FocusLinks(h, t, c);
      var parent := h[node].parent;
      var sibling := if node == h[parent].left then h[parent].right else h[parent].left;
      ColourAcross(sibling, true, t, c);
      MoveUp(h, t, WithSide(c, Side(c).(red := true)));
      up := parent;
    }

    /** Focus on the left, near nephew red: rotated outwards, so that the far one is red. */
    method StraightenLeft(sibling: Ptr, ghost t: Tree, ghost c: Ctx)
      requires At(t, c) && c.InLeft? && Side(c).N? && sibling == Side(c).n && IsRed(Near(c)) && !IsRed(Far(c))
      modifies this`h, this`root
      ensures At(t, Straightened(c)) && SameItems(old(h), h) && h[NIL] == old(h[NIL])
    {
      ghost var a := Across(c, t);
      AcrossSame(t, c);
      MoveAcross(h, t, c);
      ghost var s := Side(c);
      ghost var x, xc := s.left, InLeft(a, Side(c).red, Side(c).n, Side(c).right);
      MoveUp(h, x, xc);
      FocusLinks(h, x, xc);
      ColourHere(h[sibling].left, false, x, xc);
      ghost var x1 := x.(red := false);
      ColourUp(sibling, true, x1, xc);
      MoveUp(h, x1, WithRed(xc, true));
      RightRotate(sibling, Lift(WithRed(xc, true), x1), a);
      AcrossSame(t, Straightened(c));
      MoveAcross(h, t, Straightened(c));
    }

    /** Focus on the right, near nephew red: rotated outwards, so that the far one is red. */
    method StraightenRight(sibling: Ptr, ghost t: Tree, ghost c: Ctx)
      requires At(t, c) && c.InRight? && Side(c).N? && sibling == Side(c).n && IsRed(Near(c)) && !IsRed(Far(c))
      modifies this`h, this`root
      ensures At(t, Straightened(c)) && SameItems(old(h), h) && h[NIL] == old(h[NIL])
    {
      ghost var a := Across(c, t);
      AcrossSame(t, c);
      MoveAcross(h, t, c);
      ghost var s := Side(c);
      ghost var x, xc := s.right, InRight(a, Side(c).left, Side(c).red, Side(c).n);
      MoveUp(h, x, xc);
      FocusLinks(h, x, xc);
      ColourHere(h[sibling].right, false, x, xc);
      ghost var x1 := x.(red := false);
      ColourUp(sibling, true, x1, xc);
      MoveUp(h, x1, WithRed(xc, true));
      LeftRotate(sibling, Lift(WithRed(xc, true), x1), a);
      AcrossSame(t, Straightened(c));
      MoveAcross(h, t, Straightened(c));
    }

    /** Focus on the left, far nephew red: the last rotation of the deletion fix-up. */
    method DeleteTurnLeft(parent: Ptr, sibling: Ptr, ghost t: Tree, ghost c: Ctx)
      requires At(t, c) && c.InLeft? && Side(c).N? && IsRed(Far(c)) && parent == c.n && sibling == Side(c).n
      modifies this`h, this`root
      ensures At(Repaired(t, c), c.up) && SameItems(old(h), h) && h[NIL] == old(h[NIL])
    {
      FocusLinks(h, t, c);
      ColourAcross(sibling, h[parent].red, t, c);
      ghost var c1 := WithSide(c, Side(c).(red := c.red));
      ColourUp(parent, false, t, c1);
      ghost var c2 := WithRed(c1, false);
      ghost var a := Across(c2, t);
      AcrossSame(t, c2);
      MoveAcross(h, t, c2);
      ghost var x, xc := Far(c2), InRight(a, Side(c2).left, Side(c2).red, Side(c2).n);
      MoveUp(h, x, xc);
      FocusLinks(h, x, xc);
      ColourHere(h[sibling].right, false, x, xc);
      ghost var s1 := Lift(xc, x.(red := false));
      MoveUp(h, x.(red := false), xc);
      ghost var c3 := WithSide(c2, s1);
      AcrossSame(t, c3);
      MoveAcross(h, t, c3);
      MoveUp(h, t, c3);
      LeftRotate(parent, Lift(c3, t), c.up);
    }

    /** Focus on the right, far nephew red: the last rotation of the deletion fix-up. */
    method DeleteTurnRight(parent: Ptr, sibling: Ptr, ghost t: Tree, ghost c: Ctx)
      requires At(t, c) && c.InRight? && Side(c).N? && IsRed(Far(c)) && parent == c.n && sibling == Side(c).n
      modifies this`h, this`root
      ensures At(Repaired(t, c), c.up) && SameItems(old(h), h) && h[NIL] == old(h[NIL])
    {
      FocusLinks(h, t, c);
      ColourAcross(sibling, h[parent].red, t, c);
      ghost var c1 := WithSide(c, Side(c).(red := c.red));
      ColourUp(parent, false, t, c1);
      ghost var c2 := WithRed(c1, false);
      ghost var a := Across(c2, t);
      AcrossSame(t, c2);
      MoveAcross(h, t, c2);
      ghost var x, xc := Far(c2), InLeft(a, Side(c2).red, Side(c2).n, Side(c2).right);
      MoveUp(h, x, xc);
      FocusLinks(h, x, xc);
      ColourHere(h[sibling].left, false, x, xc);
      ghost var s1 := Lift(xc, x.(red := false));
      MoveUp(h, x.(red := false), xc);
      ghost var c3 := WithSide(c2, s1);
      AcrossSame(t, c3);
      MoveAcross(h, t, c3);
      MoveUp(h, t, c3);
      RightRotate(parent, Lift(c3, t), c.up);
    }

    /** A red nephew: the rotations that end the deletion fix-up. */
    method DeleteRepair(node: Ptr, ghost t: Tree, ghost c: Ctx)
      requires AtDeficit(node, t, c) && !c.Top? && Side(c).N? && RedNephew(c)
      modifies this`h, this`root
      ensures At(Repaired(t, c), c.up) && SameItems(old(h), h) && h[NIL] == old(h[NIL])
    {
      FocusLinks(h, t, c);
      NephewLinks(h, t, c);
      var parent := h[node].parent;
      ghost var c1 := Straightened(c);
      if node == h[parent].left {
        var sibling := h[parent].right;
        if !h[h[sibling].right].red {
          StraightenLeft(sibling, t, c);
          FocusLinks(h, t, c1);
          sibling := h[parent].right;
        }
        DeleteTurnLeft(parent, sibling, t, c1);
      } else {
        var sibling := h[parent].left;
        if !h[h[sibling].left].red {
          StraightenRight(sibling, t, c);
          FocusLinks(h, t, c1);
          sibling := h[parent].left;
        }
        DeleteTurnRight(parent, sibling, t, c1);
      }
    }

    /** One pass of the deletion fix-up. */
    method DeleteStep(n: Ptr, ghost t: Tree, ghost c: Ctx) returns (node: Ptr, ghost t': Tree, ghost c': Ctx)
      requires AtDeficit(n, t, c) && Deficit(t, c) && !c.Top? && !IsRed(t)
      modifies this`h, this`root
      ensures At(t', c') && node == Root(t') && node in h && (c'.Top? || (h[node].parent == Par(c') && Deficit(t', c')))
      ensures DeleteFix(t', c') == DeleteFix(t, c) && SameItems(old(h), h) && h[NIL] == old(h[NIL])
      ensures Depth(c') < Depth(c) || (Depth(c') == Depth(c) && IsRed(t'))
    {
      DeficitHasSibling(t, c);
      FocusLinks(h, t, c);
      var parent := h[n].parent;
      var sibling := if n == h[parent].left then h[parent].right else h[parent].left;
      if h[sibling].red {
        DeleteSettle(n, t, c);
      }
      ghost var c1 := Settle(c);
      FocusLinks(h, t, c1);
      NephewLinks(h, t, c1);
      sibling := if n == h[parent].left then h[parent].right else h[parent].left;
      if !h[h[sibling].left].red && !h[h[sibling].right].red {
        PassUpIsDeficit(t, c1);
        node := DeletePass(n, t, c1);
        t', c' := PassUp(t, c1), c1.up;
      } else {
        DeleteRepair(n, t, c1);
        t', c' := Plug(c1.up, Repaired(t, c1)), Top;
        PlugRep(h, Repaired(t, c1), c1.up);
        FocusLinks(h, t', c');
        node := root;
      }
    }

    /** The deletion fix-up loop; the sentinel's parent link is only read. */
    method DeleteFixup(n: Ptr, ghost t: Tree, ghost c: Ctx)
      requires AtDeficit(n, t, c) && Deficit(t, c)
      modifies this`h, this`root
      ensures At(DeleteFix(t, c), Top) && SameItems(old(h), h) && h[NIL] == old(h[NIL])
    {
      var node := n;
      ghost var t', c' := t, c;
      RootOnlyAtTop(h, t', c');
      while node != root && !h[node].red
        invariant At(t', c') && node == Root(t') && node in h &&
            (c'.Top? || (h[node].parent == Par(c') && Deficit(t', c')))
        invariant h[node].red == IsRed(t') && (node == root <==> c'.Top?)
        invariant DeleteFix(t', c') == DeleteFix(t, c) && SameItems(old(h), h) && h[NIL] == old(h[NIL])
        decreases Depth(c'), if IsRed(t') then 0 else 1
      {
        node, t', c' := DeleteStep(node, t', c');
        RootOnlyAtTop(h, t', c');
      }
      if node == NIL {
        h := SetRed(h, node, false);
      } else {
        ColourHere(node, false, t', c');
      }
      PlugRep(h, Blacken(t'), c');
    }

    /** Sizes recalculated from a node up to the root. */
    method RecalculateUp(n: Ptr, ghost t: Tree, ghost c: Ctx)
      requires Linked(h, t, c) && n == Par(c)
      modifies this`h
      ensures RepZ(h, t, c) && SameItems(old(h), h) && h[NIL] == old(h[NIL])
    {
      var node := n;
      ghost var t', c' := t, c;
      NilNotInC(h, c, Root(t));
      while node != NIL
        invariant Linked(h, t', c') && node == Par(c') && Plug(c', t') == Plug(c, t)
        invariant NIL !in PtrsC(c') && SameItems(old(h), h) && h[NIL] == old(h[NIL])
        decreases c'
      {
        RaiseSize(h, t', c');
        SizeFrame(h, node, Size(Lift(c', t')));
        Recalculate(node);
        node := h[node].parent;
        t', c' := Lift(c', t'), c'.up;
      }
      PlugRep(h, t, c);
    }

    /** Puts the subtree at r in the place of the node o; r may be the sentinel. */
    method Transplant(o: Ptr, r: Ptr, ghost c: Ctx)
      requires o in h && r in h && NilOk(h) && h[o].parent == Par(c) && (!c.Top? ==> c.n != NIL && c.n in h && c.n != r)
      requires !c.Top? ==> if c.InLeft? then h[c.n].left == o else h[c.n].left != o
      modifies this`h, this`root
      ensures Elsewhere(old(h), h, {r, Par(c)}) && Redirected(old(h), h, c, r)
      ensures h[r] == old(h)[r].(parent := Par(c)) && NilOk(h) && SameItems(old(h), h)
      ensures r != NIL ==> h[NIL] == old(h)[NIL]
      ensures root == if c.Top? then r else old(root)
    {
      var p := h[o].parent;
      ReplaceChild(o, p, r, c);
      h := SetParent(h, r, p);
    }

    /** The leftmost node of a subtree, with the way to it. */
    method Minimum(n: Ptr, ghost t: Tree, ghost c: Ctx) returns (m: Ptr, ghost lc: Ctx, ghost mt: Tree)
      requires RepZ(h, t, c) && t.N? && n == t.n
      ensures Inorder(t) != [] && m == Inorder(t)[0]
      ensures mt.N? && mt.left.E? && m == mt.n && LeftSpine(lc) && Plug(lc, mt) == t && RepZ(h, mt, Under(lc, c))
    {
      m, lc, mt := n, Top, t;
      FocusChildren(h, mt, Under(lc, c));
      while h[m].left != NIL
        invariant mt.N? && m == mt.n && m in h && h[m].left == Root(mt.left) && (h[m].left != NIL <==> mt.left.N?)
        invariant LeftSpine(lc) && Plug(lc, mt) == t && RepZ(h, mt, Under(lc, c))
        decreases mt
      {
        m := h[m].left;
        lc, mt := InLeft(lc, mt.red, mt.n, mt.right), mt.left;
        MoveUp(h, mt, Under(lc, c));
        FocusChildren(h, mt, Under(lc, c));
      }
      FirstInorder(lc, mt);
    }

    /** A node with at most one child gives its place to that child. */
    method DetachOuter(target: Ptr, replacement: Ptr, ghost t: Tree, ghost c: Ctx, ghost sub: Tree)
      requires At(t, c) && t.N? && target == t.n && replacement == Root(sub)
      requires (t.left.E? && sub == t.right) || (t.right.E? && sub == t.left)
      modifies this`h, this`root
      ensures Linked(h, sub, c) && root == Root(Plug(c, sub)) && SameItems(old(h), h)
      ensures h[Root(sub)].parent == Par(c)
    {
      ghost var h0 := h;
      FocusLinks(h, t, c);
      NilNotIn(h, t, Par(c));
      NilNotInC(h, c, t.n);
      RootSize(h, sub, t.n);
      Transplant(target, replacement, c);
      Splice(h0, h, sub, t.n, c, t.n);
      PlugRoot(c, t, sub);
    }

    /** The node m takes over the left subtree and the colour of the target. */
    method Inherit(target: Ptr, m: Ptr, ghost l: Ptr)
      requires {target, m, l, NIL} <= h.Keys && h[target].left == l && m !in {NIL, target, l} && l !in {NIL, target}
      requires h[m].right in h && h[m].right != m
      modifies this`h
      ensures Elsewhere(old(h), h, {m, l}) && h[l] == old(h)[l].(parent := m)
      ensures h[m] == old(h)[m].(left := l, red := old(h)[target].red, size := h[m].size)
    {
      h := SetLeft(h, m, h[target].left);
      h := SetParent(h, h[m].left, m);
      h := SetRed(h, m, h[target].red);
      Recalculate(m);
    }

    /** The node m takes the place, the left subtree and the colour of the target. */
    method TakePlace(target: Ptr, m: Ptr, ghost l: Ptr, ghost c: Ctx)
      requires NilOk(h) && {target, m, l} <= h.Keys && h[target].left == l && h[target].parent == Par(c)
      requires m !in {NIL, target, l, Par(c)} && l !in {NIL, target, Par(c)} && target != NIL && target != Par(c)
      requires h[m].right in h && h[m].right != m
      requires !c.Top? ==>
          c.n != NIL && c.n in h && (if c.InLeft? then h[c.n].left == target else h[c.n].left != target)
      modifies this`h, this`root
      ensures Elsewhere(old(h), h, {m, l, Par(c)}) && Redirected(old(h), h, c, m) && h[l] == old(h)[l].(parent := m)
      ensures h[m] == old(h)[m].(left := l, parent := Par(c), red := old(h)[target].red, size := h[m].size)
      ensures root == (if c.Top? then m else old(root)) && h[NIL] == old(h)[NIL]
    {
      Transplant(target, m, c);
      Inherit(target, m, l);
    }

    /** The successor is the right child itself: it moves up one level. */
    method DetachDirect(target: Ptr, m: Ptr, ghost t: Tree, ghost c: Ctx)
      requires At(t, c) && t.N? && t.left.N? && t.right.N? && t.right.left.E? && target == t.n && m == t.right.n
      modifies this`h, this`root
      ensures var c' := InRight(c, t.left, t.red, m);
        && Linked(h, t.right.right, c') && root == Root(Plug(c', t.right.right))
        && h[Root(t.right.right)].parent == m && SameItems(old(h), h)
    {
      ghost var l, mr := t.left, t.right.right;
      DirectFacts(h, t, c);
      FocusLinks(h, t, c);
      var fixup := h[m].right;
      h := SetParent(h, fixup, m);
      ghost var h1 := h;
      DirectFrame(old(h), h1, t, c);
      TakePlace(target, m, l.n, c);
      Adopt(h1, h, Top, c, l, t.red, t.n, m, m, Root(mr));
      DirectDone(h1, h, t, c);
      ItemsKept(old(h), h, {m, l.n, Par(c), Root(mr)});
      PlugRoot(c, t, Lift(InRight(c, l, t.red, m), mr));
    }

    /** The node m, already taken out, adopts the right subtree and takes the target's place. */
    method TakeSubtree(target: Ptr, m: Ptr, ghost c: Ctx, ghost lc: Ctx, ghost l: Tree, ghost red: bool, ghost r: Ptr)
      requires !lc.Top? && OuterFacts(h, c, l, red, target, TopNode(lc)) && Apart(m, target, l.n, TopNode(lc), Par(c))
      requires {m, TopNode(lc)} <= h.Keys
      modifies this`h, this`root
      ensures Adopted(old(h), h, lc, c, l, red, m, r) && h[NIL] == old(h)[NIL] && SameItems(old(h), h)
      ensures root == if c.Top? then m else old(root)
    {
      h := SetRight(h, m, h[target].right);
      h := SetParent(h, h[m].right, m);
      TakePlace(target, m, l.n, c);
    }

    /** The successor lies deeper: its own place is closed first. */
    method DetachFar(target: Ptr, m: Ptr, ghost t: Tree, ghost c: Ctx, ghost lc: Ctx, ghost mt: Tree)
      requires At(t, c) && t.N? && t.left.N? && target == t.n && mt.N? && mt.left.E? && m == mt.n && !lc.Top?
      requires RepZ(h, mt, Under(lc, InRight(c, t.left, t.red, t.n)))
      modifies this`h, this`root
      ensures var c' := Under(lc, InRight(c, t.left, t.red, m));
        && Linked(h, mt.right, c') && root == Root(Plug(c', mt.right))
        && h[Root(mt.right)].parent == Par(c') && SameItems(old(h), h)
    {
      ghost var l, mr, cm := t.left, mt.right, Under(lc, InRight(c, t.left, t.red, t.n));
      ghost var h0 := h;
      FarOpen(h, mt, cm);
      Transplant(m, h[m].right, cm);
      ghost var h1 := h;
      Splice(h0, h1, mr, m, cm, m);
      FarFacts(h1, mr, lc, c, l, t.red, t.n, m);
      TakeSubtree(target, m, c, lc, l, t.red, Root(mr));
      FarRep(h1, h, mr, lc, c, l, t.red, t.n, m);
      Adopt(h1, h, lc, c, l, t.red, t.n, m, Root(mr), Root(mr));
      Assemble(h, mr, Under(lc, InRight(c, l, t.red, m)), lc.n);
      FarRoot(lc, c, t, m, mr);
    }

    /** Takes the target out of the links; sizes and balance are repaired afterwards. */
    method Unlink(target: Ptr) returns (fixup: Ptr, from: Ptr, red: bool, ghost sub: Tree, ghost c: Ctx)
      requires Valid() && target in Inorder(shape)
      modifies this`h, this`root
      ensures Linked(h, sub, c) && root == Root(Plug(c, sub)) && SameItems(old(h), h)
      ensures fixup == Root(sub) && fixup in h && h[fixup].parent == Par(c) && from == Par(c)
      ensures CutOut(shape, target, sub, !red, c)
    {
      PtrsAreInorder(shape);
      ghost var (t, c0) := Find(shape, Top, target);
      PlugRep(h, t, c0);
      FocusChildren(h, t, c0);
      FocusLinks(h, t, c0);
      red, c := h[target].red, c0;
      if h[target].left == NIL {
        fixup, from, sub := h[target].right, h[target].parent, t.right;
        DetachOuter(target, fixup, t, c, sub);
        CutOuter(t, c, sub);
      } else if h[target].right == NIL {
        fixup, from, sub := h[target].left, h[target].parent, t.left;
        DetachOuter(target, fixup, t, c, sub);
        CutOuter(t, c, sub);
      } else {
        fixup, from, red, sub, c := UnlinkInner(target, t, c);
      }
    }

    /** The target has two children: its successor takes its place. */
    method UnlinkInner(target: Ptr, ghost t: Tree, ghost c: Ctx)
      returns (fixup: Ptr, from: Ptr, red: bool, ghost sub: Tree, ghost c': Ctx)
      requires At(t, c) && t.N? && t.left.N? && t.right.N? && target == t.n && RedBlack(Plug(c, t))
      modifies this`h, this`root
      ensures Linked(h, sub, c') && root == Root(Plug(c', sub)) && SameItems(old(h), h)
      ensures fixup == Root(sub) && fixup in h && h[fixup].parent == Par(c') && from == Par(c')
      ensures CutOut(Plug(c, t), target, sub, !red, c')
    {
      ghost var outer := InRight(c, t.left, t.red, t.n);
      MoveUp(h, t.right, outer);
      FocusChildren(h, t, c);
      var m;
      ghost var lc, mt;
      m, lc, mt := Minimum(h[target].right, t.right, outer);
      FocusChildren(h, mt, Under(lc, outer));
      FocusLinks(h, mt, Under(lc, outer));
      SuccessorParent(h, lc, outer, mt);
      CutInner(t, c, lc, mt);
      red, fixup := h[m].red, h[m].right;
      sub, c' := mt.right, Under(lc, InRight(c, t.left, t.red, m));
      if h[m].parent == target {
        from := m;
        DetachDirect(target, m, t, c);
      } else {
        from := h[m].parent;
        DetachFar(target, m, t, c, lc, mt);
      }
    }

    /** The second size pass, from the parent of the node where the fix-up began. */
    method RecalculateAgain(fixup: Ptr, ghost t: Tree)
      requires At(t, Top) && fixup in h
      requires if fixup == NIL then h[NIL].parent == NIL || h[NIL].parent in Ptrs(t) else fixup in Ptrs(t)
      modifies this`h
      ensures At(t, Top) && SameItems(old(h), h)
    {
      var node := h[fixup].parent;
      ghost var t', c' := t, Top;
      if fixup != NIL {
        ghost var (a, b) := Find(t, Top, fixup);
        t', c' := a, b;
      } else if node != NIL {
        ghost var (a, b) := Find(t, Top, node);
        t', c' := a.left, InLeft(b, a.red, a.n, a.right);
      }
      PlugRep(h, t', c');
      FocusLinks(h, t', c');
      RecalculateUp(node, t', c');
      PlugRep(h, t', c');
    }

    /**
      Detaches a node of the tree: exactly that node leaves the order, and every
      red-black and size invariant holds again.
     */
    method DetachNode(target: Ptr)
      requires Valid() && target in Inorder(shape)
      modifies this
      ensures Valid() && SameItems(old(h), h) && length == old(length) - 1
      ensures RemovedFrom(Inorder(old(shape)), target, Inorder(shape))
    {
      ghost var t := DetachLinks(target);
      RemovedKeepsOrder(h, Inorder(shape), target, Inorder(t));
      SizeIsLength(shape);
      SizeIsLength(t);
      shape := t;
      length := length - 1;
    }

    /** The links of a detachment: cut, sizes, fix-up, and sizes once more. */
    method DetachLinks(target: Ptr) returns (ghost t: Tree)
      requires Valid() && target in Inorder(shape)
      modifies this`h, this`root
      ensures At(t, Top) && RedBlack(t) && SameItems(old(h), h) && RemovedFrom(Inorder(shape), target, Inorder(t))
    {
      var fixup, from, red;
      ghost var sub, c;
      fixup, from, red, sub, c := Unlink(target);
      RecalculateUp(from, sub, c);
      t := Spliced(sub, !red, c);
      SplicedRedBlack(sub, !red, c);
      SplicedPtrs(h, sub, !red, c);
      PlugRep(h, sub, c);
      if !red {
        DeleteFixup(fixup, sub, c);
      }
      RecalculateAgain(fixup, t);
    }

    /** The node at a rank, counted from 0; the sentinel when there is none. */
    method ByRank(rank: nat) returns (node: Ptr)
      requires Valid()
      ensures node == if rank < |Inorder(shape)| then Inorder(shape)[rank] else NIL
    {
      node := root;
      var left: nat := rank;
      ghost var t, c, found := shape, Top, rank < |Inorder(shape)|;
      SizeIsLength(shape);
      while node != NIL
        invariant RepZ(h, t, c) && Plug(c, t) == shape && node == Root(t)
        invariant rank == |Before(c)| + left && found == (left < Size(t))
        decreases t
      {
        FocusChildren(h, t, c);
        RankStep(t, c);
        var leftSize := h[h[node].left].size;
        if left < leftSize {
          node := h[node].left;
          t, c := t.left, InLeft(c, t.red, t.n, t.right);
        } else if left == leftSize {
          return;
        } else {
          left := left - (leftSize + 1);
          node := h[node].right;
          t, c := t.right, InRight(c, t.left, t.red, t.n);
        }
        MoveUp(h, t, c);
      }
    }

    /** The next node in the order; the sentinel after the last one. */
    method Successor(n: Ptr, ghost k: nat) returns (next: Ptr)
      requires Valid() && k < |Inorder(shape)| && n == Inorder(shape)[k]
      ensures next == if k + 1 < |Inorder(shape)| then Inorder(shape)[k + 1] else NIL
    {
      PtrsAreInorder(shape);
      ghost var (t, c) := Find(shape, Top, n);
      PlugRep(h, t, c);
      FocusChildren(h, t, c);
      FocusLinks(h, t, c);
      PositionOf(h, shape, t, c, k);
      if h[n].right != NIL {
        ghost var c1 := InRight(c, t.left, t.red, t.n);
        MoveUp(h, t.right, c1);
        ghost var lc, mt;
        next, lc, mt := Minimum(h[n].right, t.right, c1);
        SpineEmpty(lc);
        FirstOf(lc, mt);
        NextInside(shape, t, c, k, next);
      } else {
        NextOutside(shape, t, c, k);
        next := Climb(n, t, c);
      }
    }

    /** The first node after a subtree: the first ancestor entered from the left. */
    method Climb(n: Ptr, ghost t: Tree, ghost c: Ctx) returns (parent: Ptr)
      requires RepZ(h, t, c) && t.N? && n == t.n
      ensures parent == if After(c) == [] then NIL else After(c)[0]
    {
      var node := n;
      ghost var t', c' := t, c;
      FocusLinks(h, t', c');
      parent := h[node].parent;
      while parent != NIL && node == h[parent].right
        invariant RepZ(h, t', c') && t'.N? && node == t'.n && parent == Par(c') && After(c') == After(c)
        invariant parent in h && (parent != NIL <==> !c'.Top?) &&
            (!c'.Top? ==> (c'.InRight? <==> node == h[parent].right))
        decreases c'
      {
        MoveUp(h, t', c');
        node := parent;
        t', c' := Lift(c', t'), c'.up;
        FocusLinks(h, t', c');
        parent := h[parent].parent;
      }
    }

    constructor ()
      ensures Valid() && Inorder(shape) == [] && h.Keys == {NIL}
    {
      h := map[NIL := Cell(NIL, NIL, NIL, false, 0, Item(Finite(0.0), []))];
      root, length, shape := NIL, 0, E;
    }

    /** A fresh node, or one just detached, made ready for insertion. */
    method Prepare(n: Ptr, x: Item)
      requires Valid() && n != NIL && n !in Inorder(shape)
      modifies this`h
      ensures Valid() && h == old(h)[n := Cell(NIL, NIL, NIL, true, 1, x)]
    {
      ghost var h0 := h;
      PtrsAreInorder(shape);
      NilNotIn(h, shape, NIL);
      h := h[n := Cell(NIL, NIL, NIL, true, 1, x)];
      FrameTree(h0, h, shape, NIL);
    }
  }
}
