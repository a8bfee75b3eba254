/** The colour arguments of removal: a subtree one black node short, moved up
    until the shortage is paid. */
module RedBlackRemove {
  import opened RedBlackTree
  import opened RbtArena

  function Blackened<V>(t: Tree<V>): Tree<V> { if t.Leaf? then t else t.(red := false) }

  /** The loop invariant of removal's fixup: the hole wants one more black node
      than t has, which painting a red t black would supply. */
  ghost predicate Short<V>(c: Ctx<V>, t: Tree<V>)
  {
    Balanced(Blackened(t)) && CtxBalanced(c, Height(t) + 1) && TopBlack(c)
  }

  /** The sibling of a short subtree is never missing. */
  lemma SiblingExists<V>(c: Ctx<V>, t: Tree<V>)
    requires Short(c, t) && !c.Top? && !Red(t)
    ensures Sibling(c).Fork? && Balanced(Sibling(c)) && Height(Sibling(c)) == Height(t) + 1 && Balanced(t)
    ensures c.red ==> !Red(Sibling(c)) && !ParentRed(c.up)
    ensures CtxBalanced(c.up, Height(t) + if c.red then 1 else 2) && (!c.up.Top? ==> TopBlack(c.up))
  {}

  /** c with its parent and sibling painted. */
  function PaintedAround<V>(c: Ctx<V>, parentRed: bool, siblingRed: bool): Ctx<V>
    requires !c.Top? && Sibling(c).Fork?
  {
    if c.LeftOf? then LeftOf(c.e, parentRed, c.right.(red := siblingRed), c.up)
    else RightOf(c.left.(red := siblingRed), c.e, parentRed, c.up)
  }

  /** Red sibling: painting and rotating gives a black one. */
  lemma ShortRedSibling<V>(c: Ctx<V>, t: Tree<V>)
    requires Short(c, t) && !c.Top? && !Red(t) && Red(Sibling(c))
    ensures c.LeftOf? ==>
              var u := RotatedLeft(Parent(PaintedAround(c, true, false), t));
              u.left.Fork? && u.left.left == t
              && var c' := LeftOf(u.left.e, u.left.red, u.left.right, LeftOf(u.e, u.red, u.right, c.up));
              Short(c', t) && c'.red && !Red(Sibling(c'))
    ensures c.RightOf? ==>
              var u := RotatedRight(Parent(PaintedAround(c, true, false), t));
              u.right.Fork? && u.right.right == t
              && var c' := RightOf(u.right.left, u.right.e, u.right.red, RightOf(u.left, u.e, u.red, c.up));
              Short(c', t) && c'.red && !Red(Sibling(c'))
  {
    SiblingExists(c, t);
    var w := Sibling(c);
    assert Height(w.left) == Height(w.right) == Height(t) + 1;
    if c.LeftOf? {
      var up := LeftOf(w.e, false, w.right, c.up);
      assert CtxBalanced(up, Height(t) + 1);
    } else {
      var up := RightOf(w.left, w.e, false, c.up);
      assert CtxBalanced(up, Height(t) + 1);
    }
  }

  /** Black sibling with black children: paint it red and move up. */
  lemma ShortMoveUp<V>(c: Ctx<V>, t: Tree<V>)
    requires Short(c, t) && !c.Top? && !Red(t) && !Red(Sibling(c))
    requires !Red(Sibling(c).left) && !Red(Sibling(c).right)
    ensures Sibling(c).Fork? && Short(c.up, Parent(PaintedAround(c, c.red, true), t))
  {
    SiblingExists(c, t);
    var u := Parent(PaintedAround(c, c.red, true), t);
    assert Balanced(Sibling(c).(red := true));
  }

  /** Black sibling whose outer child is black: one rotation of the sibling
      makes the outer child red. */
  lemma ShortInner<V>(c: Ctx<V>, t: Tree<V>)
    requires Short(c, t) && !c.Top? && !Red(t) && !Red(Sibling(c))
    ensures c.LeftOf? && c.right.Fork? && Red(c.right.left) && !Red(c.right.right) ==>
              var w := RotatedRight(Fork(c.right.left.(red := false), c.right.e, true, c.right.right));
              Short(c.(right := w), t) && !Red(w) && Red(w.right)
    ensures c.RightOf? && c.left.Fork? && Red(c.left.right) && !Red(c.left.left) ==>
              var w := RotatedLeft(Fork(c.left.left, c.left.e, true, c.left.right.(red := false)));
              Short(c.(left := w), t) && !Red(w) && Red(w.left)
  {
    SiblingExists(c, t);
    var s := Sibling(c);
    if c.LeftOf? && Red(s.left) && !Red(s.right) {
      var w := RotatedRight(Fork(s.left.(red := false), s.e, true, s.right));
      assert Balanced(s.left);
      assert w.right == Fork(s.left.right, s.e, true, s.right) && Balanced(w.right) && Balanced(w.left);
    }
    if c.RightOf? && Red(s.right) && !Red(s.left) {
      var w := RotatedLeft(Fork(s.left, s.e, true, s.right.(red := false)));
      assert Balanced(s.right);
      assert w.left == Fork(s.left, s.e, true, s.right.left) && Balanced(w.left) && Balanced(w.right);
      assert Height(w.left) == Height(t) && Height(w) == Height(t) + 1;
    }
  }

  /** The parent's subtree with the colours of the last case. */
  function LastColours<V>(c: Ctx<V>, t: Tree<V>): Tree<V>
    requires !c.Top? && Sibling(c).Fork?
  {
    if c.LeftOf? then Fork(t, c.e, false, Fork(c.right.left, c.right.e, c.red, Blackened(c.right.right)))
    else Fork(Fork(Blackened(c.left.left), c.left.e, c.red, c.left.right), c.e, false, t)
  }

  /** Black sibling with a red outer child: painting and one rotation at the
      parent pay the shortage, and the whole tree is balanced. */
  lemma ShortPaid<V>(c: Ctx<V>, t: Tree<V>)
    requires Short(c, t) && !c.Top? && !Red(t) && !Red(Sibling(c))
    ensures Sibling(c).Fork?
    ensures c.LeftOf? && Red(c.right.right) ==> Short(Top, Plug(c.up, RotatedLeft(LastColours(c, t))))
    ensures c.RightOf? && Red(c.left.left) ==> Short(Top, Plug(c.up, RotatedRight(LastColours(c, t))))
  {
    SiblingExists(c, t);
    var s := Sibling(c);
    if c.LeftOf? && Red(s.right) {
      var u := RotatedLeft(LastColours(c, t));
      assert Balanced(u.left) && Height(u.left) == Height(t) + 1;
      assert Balanced(s.right) && Balanced(u.right) && Height(u.right) == Height(t) + 1;
      PaidWhole(c.up, u);
    }
    if c.RightOf? && Red(s.left) {
      var u := RotatedRight(LastColours(c, t));
      assert Balanced(u.right) && Height(u.right) == Height(t) + 1;
      assert Balanced(s.left) && Balanced(u.left) && Height(u.left) == Height(t) + 1;
      PaidWhole(c.up, u);
    }
  }

  lemma PaidWhole<V>(c: Ctx<V>, u: Tree<V>)
    requires Balanced(u) && CtxBalanced(c, Height(u)) && !(ParentRed(c) && Red(u))
    ensures Short(Top, Plug(c, u))
  {
    PlugBalanced(c, u);
  }

  /** Painting the focus black when the loop stops restores the colour laws. */
  lemma ShortDone<V>(c: Ctx<V>, t: Tree<V>)
    requires Short(c, t) && (c.Top? || Red(t))
    ensures Balanced(Plug(c, Blackened(t))) && !Red(Plug(c, Blackened(t)))
  {
    PlugBalanced(c, Blackened(t));
    PlugRoot(c, Blackened(t));
  }

  /** Taking out a node with at most one child leaves its subtree short exactly
      when the node was black. */
  lemma SpliceColours<V>(c: Ctx<V>, t: Tree<V>, x: Tree<V>)
    requires Balanced(Plug(c, t)) && !Red(Plug(c, t)) && t.Fork?
    requires (t.left.Leaf? && x == t.right) || (t.right.Leaf? && x == t.left)
    ensures !t.red ==> Short(c, x)
    ensures t.red ==> Balanced(Plug(c, x)) && !Red(Plug(c, x))
  {
    hide Plug, Balanced, CtxBalanced, Height, TopBlack;
    PlugBalanced(c, t);
    PlugRoot(c, t);
    TopOf(c);
    SpliceHeights(t, x);
    if t.red {
      PlugBalanced(c, x);
      PlugRoot(c, x);
    }
  }

  lemma TopOf<V>(c: Ctx<V>)
    ensures c.Top? ==> TopBlack(c) && !ParentRed(c)
  {}

  lemma SpliceHeights<V>(t: Tree<V>, x: Tree<V>)
    requires Balanced(t) && t.Fork?
    requires (t.left.Leaf? && x == t.right) || (t.right.Leaf? && x == t.left)
    ensures Balanced(Blackened(x)) && Height(t) == Height(x) + if t.red then 0 else 1
    ensures t.red ==> !Red(x) && Balanced(x)
  {
    if x.Fork? { assert Balanced(x.left) && Balanced(x.right); }
  }

  /** Case 1 on the arena, x on the left: sibling painted black, parent red. */
  lemma RedSiblingLeftFocus<V>(nodes: seq<Node<V>>, root: int, c: Ctx<V>, x: int, p: int, t: Tree<V>)
    requires Focused(nodes, root, c, x, p, t) && c.LeftOf? && c.right.Fork?
    ensures 0 <= p < |nodes| && 0 <= nodes[p].right < |nodes|
    ensures var n2 := Painted(Painted(nodes, nodes[p].right, false), p, true);
            Focused(n2, root, c.up, p, n2[p].parent, Parent(PaintedAround(c, true, false), t))
  {
    FocusUp(nodes, root, c, x, p, t);
    var q, u := nodes[p].parent, Parent(c, t);
    PaintRight(nodes, root, c.up, p, q, u, false);
    PaintFocus(Painted(nodes, nodes[p].right, false), root, c.up, p, q, u.(right := u.right.(red := false)), true);
  }

  /** After case 1's rotation x is still the left child of the same parent. */
  lemma RedSiblingLeftRotated<V>(nodes: seq<Node<V>>, root: int, c: Ctx<V>, y: int, q: int, u: Tree<V>)
    requires Focused(nodes, root, c, y, q, u) && u.Fork? && u.left.Fork?
    ensures var c' := LeftOf(u.left.e, u.left.red, u.left.right, LeftOf(u.e, u.red, u.right, c));
            Focused(nodes, root, c', RootId(u.left.left), u.left.e.id, u.left.left)
    ensures Plug(c, u) == Plug(LeftOf(u.left.e, u.left.red, u.left.right, LeftOf(u.e, u.red, u.right, c)), u.left.left)
  {
    FocusDown(nodes, root, c, y, q, u);
    var up := LeftOf(u.e, u.red, u.right, c);
    FocusDown(nodes, root, up, nodes[y].left, y, u.left);
    LinkedIds(nodes, nodes[y].left, y, u.left);
    LinkedIds(nodes, nodes[nodes[y].left].left, nodes[y].left, u.left.left);
  }

  /** Case 2 on the arena: the sibling painted red. */
  lemma MoveUpLeftFocus<V>(nodes: seq<Node<V>>, root: int, c: Ctx<V>, x: int, p: int, t: Tree<V>)
    requires Focused(nodes, root, c, x, p, t) && c.LeftOf? && c.right.Fork?
    ensures 0 <= p < |nodes| && 0 <= nodes[p].right < |nodes|
    ensures var n1 := Painted(nodes, nodes[p].right, true);
            Focused(n1, root, c.up, p, n1[p].parent, Parent(PaintedAround(c, c.red, true), t))
    ensures Inorder(Parent(PaintedAround(c, c.red, true), t)) == Inorder(Parent(c, t))
  {
    FocusUp(nodes, root, c, x, p, t);
    PaintRight(nodes, root, c.up, p, nodes[p].parent, Parent(c, t), true);
  }

  /** Case 3 on the arena, before its rotation: the focus at the sibling. */
  lemma InnerLeftFocus<V>(nodes: seq<Node<V>>, root: int, c: Ctx<V>, x: int, p: int, t: Tree<V>)
    requires Focused(nodes, root, c, x, p, t) && c.LeftOf? && c.right.Fork? && c.right.left.Fork?
    ensures 0 <= p < |nodes| && 0 <= nodes[p].right < |nodes| && 0 <= nodes[nodes[p].right].left < |nodes|
    ensures var w := nodes[p].right;
            var n2 := Painted(Painted(nodes, nodes[w].left, false), w, true);
            Focused(n2, root, RightOf(t, c.e, c.red, c.up), w, p,
                    Fork(c.right.left.(red := false), c.right.e, true, c.right.right))
  {
    FocusUp(nodes, root, c, x, p, t);
    FocusDown(nodes, root, c.up, p, nodes[p].parent, Parent(c, t));
    var up := RightOf(t, c.e, c.red, c.up);
    var w, s := nodes[p].right, c.right;
    PaintLeft(nodes, root, up, w, p, s, false);
    PaintFocus(Painted(nodes, nodes[w].left, false), root, up, w, p, s.(left := s.left.(red := false)), true);
  }

  /** Case 3 after its rotation: back at x, whose sibling is now w. */
  lemma InnerLeftRotated<V>(nodes: seq<Node<V>>, root: int, c: Ctx<V>, y: int, p: int, t: Tree<V>, w: Tree<V>)
    requires c.LeftOf? && Focused(nodes, root, RightOf(t, c.e, c.red, c.up), y, p, w)
    ensures Focused(nodes, root, c.(right := w), RootId(t), p, t)
  {
    FocusUp(nodes, root, RightOf(t, c.e, c.red, c.up), y, p, w);
    FocusDown(nodes, root, c.up, p, nodes[p].parent, Fork(t, c.e, c.red, w));
    LinkedIds(nodes, nodes[p].left, p, t);
  }

  /** Case 4 on the arena, before its rotation. */
  lemma LastLeftFocus<V>(nodes: seq<Node<V>>, root: int, c: Ctx<V>, x: int, p: int, t: Tree<V>)
    requires Focused(nodes, root, c, x, p, t) && c.LeftOf? && c.right.Fork? && c.right.right.Fork?
    ensures 0 <= p < |nodes| && 0 <= nodes[p].right < |nodes|
    ensures nodes[p].right != p && 0 <= nodes[nodes[p].right].right < |nodes|
        && nodes[nodes[p].right].right != nodes[p].right
    ensures var w := nodes[p].right;
            var n3 := Painted(Painted(Painted(nodes, w, c.red), p, false), nodes[w].right, false);
            Focused(n3, root, c.up, p, n3[p].parent, LastColours(c, t))
  {
    FocusUp(nodes, root, c, x, p, t);
    var q, u := nodes[p].parent, Parent(c, t);
    var w := nodes[p].right;
    FocusDown(nodes, root, c.up, p, q, u);
    FocusDown(nodes, root, RightOf(t, c.e, c.red, c.up), w, p, c.right);
    LinkedIds(nodes, nodes[w].right, w, c.right.right);
    PaintRight(nodes, root, c.up, p, q, u, c.red);
    var n1, u1 := Painted(nodes, w, c.red), u.(right := u.right.(red := c.red));
    PaintFocus(n1, root, c.up, p, q, u1, false);
    var n2, u2 := Painted(n1, p, false), u1.(red := false);
    FocusDown(n2, root, c.up, p, q, u2);
    var up := RightOf(t, c.e, false, c.up);
    PaintRight(n2, root, up, w, p, u2.right, false);
    FocusUp(Painted(n2, nodes[w].right, false), root, up, w, p, u2.right.(right := u2.right.right.(red := false)));
  }

  /** Case 1 on the arena, x on the right: sibling painted black, parent red. */
  lemma RedSiblingRightFocus<V>(nodes: seq<Node<V>>, root: int, c: Ctx<V>, x: int, p: int, t: Tree<V>)
    requires Focused(nodes, root, c, x, p, t) && c.RightOf? && c.left.Fork?
    ensures 0 <= p < |nodes| && 0 <= nodes[p].left < |nodes|
    ensures var n2 := Painted(Painted(nodes, nodes[p].left, false), p, true);
            Focused(n2, root, c.up, p, n2[p].parent, Parent(PaintedAround(c, true, false), t))
  {
    FocusUp(nodes, root, c, x, p, t);
    var q, u := nodes[p].parent, Parent(c, t);
    PaintLeft(nodes, root, c.up, p, q, u, false);
    PaintFocus(Painted(nodes, nodes[p].left, false), root, c.up, p, q, u.(left := u.left.(red := false)), true);
  }

  /** After case 1's rotation x is still the right child of the same parent. */
  lemma RedSiblingRightRotated<V>(nodes: seq<Node<V>>, root: int, c: Ctx<V>, y: int, q: int, u: Tree<V>)
    requires Focused(nodes, root, c, y, q, u) && u.Fork? && u.right.Fork?
    ensures var c' := RightOf(u.right.left, u.right.e, u.right.red, RightOf(u.left, u.e, u.red, c));
            Focused(nodes, root, c', RootId(u.right.right), u.right.e.id, u.right.right)
    ensures Plug(c, u) == Plug(RightOf(u.right.left, u.right.e, u.right.red, RightOf(u.left, u.e, u.red, c)),
        u.right.right)
  {
    FocusDown(nodes, root, c, y, q, u);
    var up := RightOf(u.left, u.e, u.red, c);
    FocusDown(nodes, root, up, nodes[y].right, y, u.right);
    LinkedIds(nodes, nodes[y].right, y, u.right);
    LinkedIds(nodes, nodes[nodes[y].right].right, nodes[y].right, u.right.right);
  }

  /** Case 2 on the arena: the sibling painted red. */
  lemma MoveUpRightFocus<V>(nodes: seq<Node<V>>, root: int, c: Ctx<V>, x: int, p: int, t: Tree<V>)
    requires Focused(nodes, root, c, x, p, t) && c.RightOf? && c.left.Fork?
    ensures 0 <= p < |nodes| && 0 <= nodes[p].left < |nodes|
    ensures var n1 := Painted(nodes, nodes[p].left, true);
            Focused(n1, root, c.up, p, n1[p].parent, Parent(PaintedAround(c, c.red, true), t))
    ensures Inorder(Parent(PaintedAround(c, c.red, true), t)) == Inorder(Parent(c, t))
  {
    FocusUp(nodes, root, c, x, p, t);
    PaintLeft(nodes, root, c.up, p, nodes[p].parent, Parent(c, t), true);
  }

  /** Case 3 on the arena, before its rotation: the focus at the sibling. */
  lemma InnerRightFocus<V>(nodes: seq<Node<V>>, root: int, c: Ctx<V>, x: int, p: int, t: Tree<V>)
    requires Focused(nodes, root, c, x, p, t) && c.RightOf? && c.left.Fork? && c.left.right.Fork?
    ensures 0 <= p < |nodes| && 0 <= nodes[p].left < |nodes| && 0 <= nodes[nodes[p].left].right < |nodes|
    ensures var w := nodes[p].left;
            var n2 := Painted(Painted(nodes, nodes[w].right, false), w, true);
            Focused(n2, root, LeftOf(c.e, c.red, t, c.up), w, p,
                    Fork(c.left.left, c.left.e, true, c.left.right.(red := false)))
  {
    FocusUp(nodes, root, c, x, p, t);
    FocusDown(nodes, root, c.up, p, nodes[p].parent, Parent(c, t));
    var up := LeftOf(c.e, c.red, t, c.up);
    var w, s := nodes[p].left, c.left;
    PaintRight(nodes, root, up, w, p, s, false);
    PaintFocus(Painted(nodes, nodes[w].right, false), root, up, w, p, s.(right := s.right.(red := false)), true);
  }

  /** Case 3 after its rotation: back at x, whose sibling is now w. */
  lemma InnerRightRotated<V>(nodes: seq<Node<V>>, root: int, c: Ctx<V>, y: int, p: int, t: Tree<V>, w: Tree<V>)
    requires c.RightOf? && Focused(nodes, root, LeftOf(c.e, c.red, t, c.up), y, p, w)
    ensures Focused(nodes, root, c.(left := w), RootId(t), p, t)
  {
    FocusUp(nodes, root, LeftOf(c.e, c.red, t, c.up), y, p, w);
    FocusDown(nodes, root, c.up, p, nodes[p].parent, Fork(w, c.e, c.red, t));
    LinkedIds(nodes, nodes[p].right, p, t);
  }

  /** Case 4 on the arena, before its rotation. */
  lemma LastRightFocus<V>(nodes: seq<Node<V>>, root: int, c: Ctx<V>, x: int, p: int, t: Tree<V>)
    requires Focused(nodes, root, c, x, p, t) && c.RightOf? && c.left.Fork? && c.left.left.Fork?
    ensures 0 <= p < |nodes| && 0 <= nodes[p].left < |nodes|
    ensures nodes[p].left != p && 0 <= nodes[nodes[p].left].left < |nodes| && nodes[nodes[p].left].left != nodes[p].left
    ensures var w := nodes[p].left;
            var n3 := Painted(Painted(Painted(nodes, w, c.red), p, false), nodes[w].left, false);
            Focused(n3, root, c.up, p, n3[p].parent, LastColours(c, t))
  {
    FocusUp(nodes, root, c, x, p, t);
    var q, u := nodes[p].parent, Parent(c, t);
    var w := nodes[p].left;
    FocusDown(nodes, root, c.up, p, q, u);
    FocusDown(nodes, root, LeftOf(c.e, c.red, t, c.up), w, p, c.left);
    LinkedIds(nodes, nodes[w].left, w, c.left.left);
    PaintLeft(nodes, root, c.up, p, q, u, c.red);
    var n1, u1 := Painted(nodes, w, c.red), u.(left := u.left.(red := c.red));
    PaintFocus(n1, root, c.up, p, q, u1, false);
    var n2, u2 := Painted(n1, p, false), u1.(red := false);
    FocusDown(n2, root, c.up, p, q, u2);
    var up := LeftOf(c.e, false, t, c.up);
    PaintLeft(n2, root, up, w, p, u2.left, false);
    FocusUp(Painted(n2, nodes[w].left, false), root, up, w, p, u2.left.(left := u2.left.left.(red := false)));
  }
}
