/** The colour arguments of insertion: what one step of the fixup does to the
    red-black laws. */
module RedBlackPut {
  import opened RedBlackTree
  import opened RbtArena

  /** The loop invariant of insertion: every law holds except that the focused
      red node may have a red parent. */
  ghost predicate PutState<V>(c: Ctx<V>, t: Tree<V>)
  {
    Red(t) && Balanced(t) && CtxBalanced(c, Height(t)) && TopBlack(c)
  }

  function Grandparent<V>(c: Ctx<V>, t: Tree<V>): Tree<V>
    requires !c.Top? && !c.up.Top?
  {
    Parent(c.up, Parent(c, t))
  }

  /** What the laws say of the sibling, the uncle and the rest of the context. */
  lemma TwoUp<V>(c: Ctx<V>, h: nat)
    requires CtxBalanced(c, h) && TopBlack(c) && ParentRed(c)
    ensures !c.up.Top? && !c.up.red && TopBlack(c.up.up)
    ensures Balanced(Sibling(c)) && Height(Sibling(c)) == h && !Red(Sibling(c))
    ensures Balanced(Sibling(c.up)) && Height(Sibling(c.up)) == h
    ensures CtxBalanced(c.up.up, h + 1)
  {
    assert CtxBalanced(c.up, h);
  }

  /** A red parent is not the root, and the grandparent is black. */
  lemma RedParent<V>(c: Ctx<V>, t: Tree<V>)
    requires PutState(c, t) && ParentRed(c)
    ensures !c.up.Top? && !c.up.red
  {}

  function Recoloured<V>(g: Tree<V>): Tree<V>
    requires g.Fork? && g.left.Fork? && g.right.Fork?
  {
    Fork(g.left.(red := false), g.e, true, g.right.(red := false))
  }

  /** Red uncle: the grandparent turns red and becomes the focus. */
  lemma PutRecolour<V>(c: Ctx<V>, t: Tree<V>)
    requires PutState(c, t) && ParentRed(c) && !c.up.Top?
    requires Red(Sibling(c.up))
    ensures var g := Grandparent(c, t);
            g.left.Fork? && g.right.Fork? && PutState(c.up.up, Recoloured(g))
  {
    TwoUp(c, Height(t));
    var g := Recoloured(Grandparent(c, t));
    assert Balanced(g.left) && Balanced(g.right) && Height(g.left) == Height(t) + 1;
  }

  /** Black uncle, inner grandchild: one rotation makes it an outer grandchild. */
  lemma PutInner<V>(c: Ctx<V>, t: Tree<V>)
    requires PutState(c, t) && ParentRed(c) && !c.up.Top?
    ensures c.RightOf? && c.up.LeftOf? ==>
              var u := RotatedLeft(Parent(c, t));
              PutState(LeftOf(u.e, u.red, u.right, c.up), u.left) && u.red
    ensures c.LeftOf? && c.up.RightOf? ==>
              var u := RotatedRight(Parent(c, t));
              PutState(RightOf(u.left, u.e, u.red, c.up), u.right) && u.red
  {
    TwoUp(c, Height(t));
    var h := Height(t);
    if c.RightOf? && c.up.LeftOf? {
      var u := RotatedLeft(Parent(c, t));
      assert u.left == Fork(c.left, c.e, true, t.left) && u.right == t.right && Height(u.left) == h;
      assert CtxBalanced(c.up, h);
    }
    if c.LeftOf? && c.up.RightOf? {
      var u := RotatedRight(Parent(c, t));
      assert u.right == Fork(t.right, c.e, true, c.right) && u.left == t.left && Height(u.right) == h;
      assert CtxBalanced(c.up, h);
    }
  }

  /** The grandparent with the parent black and itself red. */
  function Swapped<V>(c: Ctx<V>, t: Tree<V>): Tree<V>
    requires !c.Top? && !c.up.Top?
  {
    Grandparent(c.(red := false, up := c.up.(red := true)), t)
  }

  /** Black uncle, outer grandchild: the other rotation ends the fixup. */
  lemma PutOuter<V>(c: Ctx<V>, t: Tree<V>)
    requires PutState(c, t) && ParentRed(c) && !c.up.Top?
    requires !Red(Sibling(c.up))
    ensures c.LeftOf? && c.up.LeftOf? ==>
              var u := RotatedRight(Swapped(c, t));
              u.left == t && !u.red && PutState(LeftOf(u.e, u.red, u.right, c.up.up), t)
    ensures c.RightOf? && c.up.RightOf? ==>
              var u := RotatedLeft(Swapped(c, t));
              u.right == t && !u.red && PutState(RightOf(u.left, u.e, u.red, c.up.up), t)
  {
    TwoUp(c, Height(t));
    if c.LeftOf? && c.up.LeftOf? {
      var u := RotatedRight(Swapped(c, t));
      assert u == Fork(t, c.e, false, Fork(c.right, c.up.e, true, c.up.right));
      assert Balanced(u.right);
    }
    if c.RightOf? && c.up.RightOf? {
      var u := RotatedLeft(Swapped(c, t));
      assert u == Fork(Fork(c.up.left, c.up.e, true, c.left), c.e, false, t);
      assert Balanced(u.left);
    }
  }

  /** Painting the root black when the fixup stops restores every law. */
  lemma PutDone<V>(c: Ctx<V>, t: Tree<V>)
    requires PutState(c, t) && !ParentRed(c)
    ensures var whole := Plug(c, t);
            whole.Fork? && Balanced(whole.(red := false)) && (!c.Top? ==> !whole.red)
  {
    PlugBalanced(c, t);
    PlugRoot(c, t);
    PlugFork(c, t);
  }

  lemma {:induction false} PlugFork<V>(c: Ctx<V>, t: Tree<V>)
    requires t.Fork?
    ensures Plug(c, t).Fork?
    decreases c
  {
    if !c.Top? { PlugFork(c.up, Parent(c, t)); }
  }

  // ── The same steps on the arena ───────────────────────────────────

  lemma SameWalk<V>(c: Ctx<V>, t: Tree<V>, u: Tree<V>)
    requires Inorder(t) == Inorder(u)
    ensures Inorder(Plug(c, t)) == Inorder(Plug(c, u))
  {
    InorderPlug(c, t);
    InorderPlug(c, u);
  }

  lemma GrandparentFocus<V>(nodes: seq<Node<V>>, root: int, c: Ctx<V>, x: int, p: int, t: Tree<V>)
    requires Focused(nodes, root, c, x, p, t) && !c.Top? && !c.up.Top?
    ensures 0 <= p < |nodes| && 0 <= nodes[p].parent < |nodes|
    ensures Focused(nodes, root, c.up, p, nodes[p].parent, Parent(c, t))
    ensures Focused(nodes, root, c.up.up, nodes[p].parent, nodes[nodes[p].parent].parent, Grandparent(c, t))
    ensures Plug(c, t) == Plug(c.up.up, Grandparent(c, t))
  {
    FocusUp(nodes, root, c, x, p, t);
    FocusUp(nodes, root, c.up, p, nodes[p].parent, Parent(c, t));
  }

  /** Painting both children black and their parent red. */
  lemma RecolourFocus<V>(nodes: seq<Node<V>>, root: int, c: Ctx<V>, i: int, p: int, g: Tree<V>, a: int, b: int)
    requires Focused(nodes, root, c, i, p, g) && g.Fork? && g.left.Fork? && g.right.Fork?
    requires 0 <= i < |nodes| && 0 <= a < |nodes| && 0 <= b < |nodes| && a != b
    requires {a, b} == {nodes[i].left, nodes[i].right}
    ensures Focused(Painted(Painted(Painted(nodes, a, false), b, false), i, true), root, c, i, p, Recoloured(g))
    ensures Inorder(Recoloured(g)) == Inorder(g)
  {
    var l, r := nodes[i].left, nodes[i].right;
    PaintLeft(nodes, root, c, i, p, g, false);
    var n1 := Painted(nodes, l, false);
    PaintRight(n1, root, c, i, p, g.(left := g.left.(red := false)), false);
    var n2 := Painted(n1, r, false);
    assert n2 == Painted(Painted(nodes, a, false), b, false);
    PaintFocus(n2, root, c, i, p, g.(left := g.left.(red := false), right := g.right.(red := false)), true);
    assert Inorder(Recoloured(g)) == Inorder(g);
  }

  /** Painting the parent black and the grandparent red. */
  lemma SwapFocus<V>(nodes: seq<Node<V>>, root: int, c: Ctx<V>, x: int, p: int, t: Tree<V>)
    requires Focused(nodes, root, c, x, p, t) && !c.Top? && !c.up.Top?
    ensures 0 <= p < |nodes| && 0 <= nodes[p].parent < |nodes|
    ensures var pp := nodes[p].parent;
            var n2 := Painted(Painted(nodes, p, false), pp, true);
            Focused(n2, root, c.up.up, pp, n2[pp].parent, Swapped(c, t))
    ensures Inorder(Swapped(c, t)) == Inorder(Grandparent(c, t))
  {
    PaintParent(nodes, root, c, x, p, t, false);
    var n1 := Painted(nodes, p, false);
    FocusUp(n1, root, c.(red := false), x, p, t);
    var pp := n1[p].parent;
    var u := Parent(c.(red := false), t);
    PaintParent(n1, root, c.up, p, pp, u, true);
    FocusUp(Painted(n1, pp, true), root, c.up.(red := true), p, pp, u);
  }
}
