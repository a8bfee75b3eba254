/** The red-black tree kept in an arena of nodes with index links and parent
    links, updated in place. */
module RbtClass {
  import opened Options
  import opened RedBlackTree
  import opened RbtArena
  import opened RedBlackPut
  import opened RedBlackRemove

  /** Removal's fixup stops at the root or at a red node. */
  ghost function Measure<V>(c: Ctx<V>, t: Tree<V>): nat { if Red(t) then 0 else Depth(c) + 1 }

  class Rbt<V> {
    var nodes: seq<Node<V>>
    var root: int
    /** The tree the arena represents. */
    ghost var shape: Tree<V>

    ghost predicate Valid()
      reads this
    {
      RedBlack(shape) && Focused(nodes, root, Top, root, NIL, shape)
    }

    ghost function Map(): map<int, V>
      reads this
    {
      Contents(Inorder(shape))
    }

    constructor ()
      ensures Valid() && Map() == map[]
    {
      nodes, root, shape := [], NIL, Leaf;
    }

    predicate IsRed(i: int)
      requires i == NIL || 0 <= i < |nodes|
      reads this
    {
      i != NIL && nodes[i].red
    }

    /** left_rotate: y takes x's place, x becomes its left child. */
    method LeftRotate(x: int, ghost c: Ctx<V>, ghost p: int, ghost t: Tree<V>) returns (y: int)
      requires Focused(nodes, root, c, x, p, t) && t.Fork? && t.right.Fork?
      modifies this`nodes, this`root
      ensures Focused(nodes, root, c, y, p, RotatedLeft(t))
      ensures SameEntries(old(nodes), nodes) && 0 <= y < |nodes|
    {
      hide SameEntries;
      RotateLeftFocus(nodes, root, if c.Top? then nodes[x].right else root, c, x, p, t);
      CtxLinks(nodes, root, c, x, p);
      if p != NIL { HoleSide(nodes, root, c, x, p, t); }
      LinkedIds(nodes, x, p, t);
      assert Linked(nodes, nodes[x].right, x, t.right);
      LinkedIds(nodes, nodes[x].right, x, t.right);
      ghost var n0 := nodes;
      y := nodes[x].right;
      LinkedIds(nodes, nodes[y].left, y, t.right.left);
      nodes := nodes[x := nodes[x].(right := nodes[y].left)];
      if nodes[y].left != NIL {
        var yl := nodes[y].left;
        nodes := nodes[yl := nodes[yl].(parent := x)];
      }
      nodes := nodes[y := nodes[y].(parent := nodes[x].parent)];
      var xp := nodes[x].parent;
      if xp == NIL {
        root := y;
      } else if x == nodes[xp].left {
        nodes := nodes[xp := nodes[xp].(left := y)];
      } else {
        nodes := nodes[xp := nodes[xp].(right := y)];
      }
      nodes := nodes[y := nodes[y].(left := x)];
      nodes := nodes[x := nodes[x].(parent := y)];
      assert nodes == RotateLeftLinks(n0, c, x);
      RotateLeftEntries(n0, c, x);
    }

    /** right_rotate: x takes y's place, y becomes its right child. */
    method RightRotate(y: int, ghost c: Ctx<V>, ghost p: int, ghost t: Tree<V>) returns (x: int)
      requires Focused(nodes, root, c, y, p, t) && t.Fork? && t.left.Fork?
      modifies this`nodes, this`root
      ensures Focused(nodes, root, c, x, p, RotatedRight(t))
      ensures SameEntries(old(nodes), nodes) && 0 <= x < |nodes|
    {
      hide SameEntries;
      RotateRightFocus(nodes, root, if c.Top? then nodes[y].left else root, c, y, p, t);
      CtxLinks(nodes, root, c, y, p);
      if p != NIL { HoleSide(nodes, root, c, y, p, t); }
      LinkedIds(nodes, y, p, t);
      assert Linked(nodes, nodes[y].left, y, t.left);
      LinkedIds(nodes, nodes[y].left, y, t.left);
      ghost var n0 := nodes;
      x := nodes[y].left;
      LinkedIds(nodes, nodes[x].right, x, t.left.right);
      nodes := nodes[y := nodes[y].(left := nodes[x].right)];
      if nodes[x].right != NIL {
        var xr := nodes[x].right;
        nodes := nodes[xr := nodes[xr].(parent := y)];
      }
      nodes := nodes[x := nodes[x].(parent := nodes[y].parent)];
      var yp := nodes[y].parent;
      if yp == NIL {
        root := x;
      } else if y == nodes[yp].left {
        nodes := nodes[yp := nodes[yp].(left := x)];
      } else {
        nodes := nodes[yp := nodes[yp].(right := x)];
      }
      nodes := nodes[x := nodes[x].(right := y)];
      nodes := nodes[y := nodes[y].(parent := x)];
      assert nodes == RotateRightLinks(n0, c, y);
      RotateRightEntries(n0, c, y);
    }

    // ── Lookup ────────────────────────────────────────────────────────

    /** The slot holding key, or NIL when no entry has it. */
    method FindNode(key: int) returns (n: int, ghost c: Ctx<V>, ghost p: int, ghost t: Tree<V>)
      requires Valid()
      ensures n == NIL <==> key !in Map()
      ensures n != NIL ==> 0 <= n < |nodes| && n in Ids(shape) && nodes[n].key == key && nodes[n].value == Map()[key]
      ensures n != NIL ==> Focused(nodes, root, c, n, p, t) && Plug(c, t) == shape && t.Fork? && t.e.key == key
    {
      hide Contents, Ids, Searching, Inorder;
      n := root;
      c, p, t := Top, NIL, shape;
      StartSearch(nodes, root, shape, key);
      while n != NIL
        invariant Searching(nodes, root, shape, c, n, p, t, key)
        decreases t
      {
        SearchStep(nodes, root, shape, c, n, p, t, key);
        if key == nodes[n].key {
          SearchFocus(nodes, root, shape, c, n, p, t, key);
          return;
        } else if key < nodes[n].key {
          n, c, p, t := nodes[n].left, LeftOf(t.e, t.red, t.right, c), n, t.left;
        } else {
          n, c, p, t := nodes[n].right, RightOf(t.left, t.e, t.red, c), n, t.right;
        }
      }
      SearchFails(nodes, root, shape, c, p, t, key);
    }

    method Get(key: int) returns (v: Option<V>)
      requires Valid()
      ensures v == if key in Map() then Some(Map()[key]) else None
    {
      var n, _, _, _ := FindNode(key);
      v := if n == NIL then None else Some(nodes[n].value);
    }

    // ── Insertion ─────────────────────────────────────────────────────

    /** tree_insert: a new red leaf in search order, or the value replaced. */
    method TreeInsert(key: int, value: V)
        returns (isNew: bool, z: int, previous: Option<V>, ghost c: Ctx<V>, ghost p: int, ghost t: Tree<V>)
      requires Valid()
      modifies this
      ensures isNew <==> key !in old(Map())
      ensures !isNew ==> Valid() && Map() == old(Map())[key := value] && previous == Some(old(Map())[key])
      ensures isNew ==>
                && previous == None
                && Focused(nodes, root, c, z, p, t) && PutState(c, t)
                && Sorted(Inorder(Plug(c, t)))
                && Contents(Inorder(Plug(c, t))) == old(Map())[key := value]
    {
      hide Contents, Ids, Searching, Inorder, RedBlack, Focused, PutState;
      var y := NIL;
      var x := root;
      c, t := Top, shape;
      StartSearch(nodes, root, shape, key);
      while x != NIL
        invariant Searching(nodes, root, shape, c, x, y, t, key)
        invariant unchanged(this)
        decreases t
      {
        SearchStep(nodes, root, shape, c, x, y, t, key);
        p := y;
        y := x;
        if key < nodes[x].key {
          c, x, t := LeftOf(t.e, t.red, t.right, c), nodes[x].left, t.left;
        } else if key > nodes[x].key {
          c, x, t := RightOf(t.left, t.e, t.red, c), nodes[x].right, t.right;
        } else {
          previous := Some(nodes[x].value);
          ReplaceValue(nodes, root, shape, c, x, p, t, key, value);
          nodes := nodes[x := nodes[x].(value := value)];
          shape := Plug(c, t.(e := t.e.(value := value)));
          z, isNew := NIL, false;
          return;
        }
      }
      previous, isNew, p := None, true, y;
      SearchFails(nodes, root, shape, c, y, t, key);
      InsertLeaf(nodes, root, shape, c, y, key, value);
      z := |nodes|;
      t := Fork(Leaf, Entry(z, key, value), true, Leaf);
      nodes := nodes + [Node(key, value, NIL, NIL, y, true)];
      if y == NIL {
        root := z;
      } else if key < nodes[y].key {
        nodes := nodes[y := nodes[y].(left := z)];
      } else {
        nodes := nodes[y := nodes[y].(right := z)];
      }
    }

    /** Black uncle on the right: at most two rotations end the fixup. */
    method FixLeft(x0: int, ghost c0: Ctx<V>, ghost p0: int, ghost t0: Tree<V>)
        returns (x: int, ghost c: Ctx<V>, ghost p: int, ghost t: Tree<V>)
      requires Focused(nodes, root, c0, x0, p0, t0) && PutState(c0, t0)
      requires ParentRed(c0) && !c0.up.Top? && c0.up.LeftOf? && !Red(Sibling(c0.up))
      modifies this`nodes, this`root
      ensures Focused(nodes, root, c, x, p, t) && PutState(c, t) && !ParentRed(c)
      ensures Inorder(Plug(c, t)) == Inorder(Plug(c0, t0)) && Depth(c) < Depth(c0)
    {
      hide Ids, Inorder, Focused, PutState, Balanced, CtxBalanced;
      x, c, p, t := x0, c0, p0, t0;
      PutRed(c, t);
      Around(nodes, root, c, x, p, t);
      GrandparentFocus(nodes, root, c, x, p, t);
      var xp := nodes[x].parent;
      if x == nodes[xp].right {
        PutInner(c, t);
        x := xp;
        ghost var g := Parent(c, t);
        FocusRoot(nodes, root, c.up, p, nodes[p].parent, g);
        ghost var u := RotatedLeft(g);
        RotateLeftInorder(g);
        SameWalk(c.up, g, u);
        ghost var q := nodes[x].parent;
        var y := LeftRotate(x, c.up, q, g);
        FocusDown(nodes, root, c.up, y, q, u);
        FocusRoot(nodes, root, LeftOf(u.e, u.red, u.right, c.up), nodes[y].left, y, u.left);
        c, p, t := LeftOf(u.e, u.red, u.right, c.up), y, u.left;
      }
      Around(nodes, root, c, x, p, t);
      FocusRoot(nodes, root, c, x, p, t);
      PutOuter(c, t);
      SwapFocus(nodes, root, c, x, p, t);
      GrandparentFocus(nodes, root, c, x, p, t);
      ghost var u := RotatedRight(Swapped(c, t));
      RotateRightInorder(Swapped(c, t));
      SameWalk(c.up.up, u, Grandparent(c, t));
      var par := nodes[x].parent;
      var pp := nodes[par].parent;
      nodes := nodes[par := nodes[par].(red := false)];
      nodes := nodes[pp := nodes[pp].(red := true)];
      ghost var q := nodes[pp].parent;
      var y := RightRotate(pp, c.up.up, q, Swapped(c, t));
      FocusDown(nodes, root, c.up.up, y, q, u);
      FocusRoot(nodes, root, LeftOf(u.e, u.red, u.right, c.up.up), nodes[y].left, y, t);
      c, p := LeftOf(u.e, u.red, u.right, c.up.up), y;
    }

    /** Black uncle on the left: the mirror image; at most two rotations end the fixup. */
    method FixRight(x0: int, ghost c0: Ctx<V>, ghost p0: int, ghost t0: Tree<V>)
        returns (x: int, ghost c: Ctx<V>, ghost p: int, ghost t: Tree<V>)
      requires Focused(nodes, root, c0, x0, p0, t0) && PutState(c0, t0)
      requires ParentRed(c0) && !c0.up.Top? && c0.up.RightOf? && !Red(Sibling(c0.up))
      modifies this`nodes, this`root
      ensures Focused(nodes, root, c, x, p, t) && PutState(c, t) && !ParentRed(c)
      ensures Inorder(Plug(c, t)) == Inorder(Plug(c0, t0)) && Depth(c) < Depth(c0)
    {
      hide Ids, Inorder, Focused, PutState, Balanced, CtxBalanced;
      x, c, p, t := x0, c0, p0, t0;
      PutRed(c, t);
      Around(nodes, root, c, x, p, t);
      GrandparentFocus(nodes, root, c, x, p, t);
      var xp := nodes[x].parent;
      if x == nodes[xp].left {
        PutInner(c, t);
        x := xp;
        ghost var g := Parent(c, t);
        FocusRoot(nodes, root, c.up, p, nodes[p].parent, g);
        ghost var u := RotatedRight(g);
        RotateRightInorder(g);
        SameWalk(c.up, g, u);
        ghost var q := nodes[x].parent;
        var y := RightRotate(x, c.up, q, g);
        FocusDown(nodes, root, c.up, y, q, u);
        FocusRoot(nodes, root, RightOf(u.left, u.e, u.red, c.up), nodes[y].right, y, u.right);
        c, p, t := RightOf(u.left, u.e, u.red, c.up), y, u.right;
      }
      Around(nodes, root, c, x, p, t);
      FocusRoot(nodes, root, c, x, p, t);
      PutOuter(c, t);
      SwapFocus(nodes, root, c, x, p, t);
      GrandparentFocus(nodes, root, c, x, p, t);
      ghost var u := RotatedLeft(Swapped(c, t));
      RotateLeftInorder(Swapped(c, t));
      SameWalk(c.up.up, u, Grandparent(c, t));
      var par := nodes[x].parent;
      var pp := nodes[par].parent;
      nodes := nodes[par := nodes[par].(red := false)];
      nodes := nodes[pp := nodes[pp].(red := true)];
      ghost var q := nodes[pp].parent;
      var y := LeftRotate(pp, c.up.up, q, Swapped(c, t));
      FocusDown(nodes, root, c.up.up, y, q, u);
      FocusRoot(nodes, root, RightOf(u.left, u.e, u.red, c.up.up), nodes[y].right, y, t);
      c, p := RightOf(u.left, u.e, u.red, c.up.up), y;
    }

    /** Red uncle: parent and uncle turn black, the grandparent red. */
    method Recolour(x0: int, y: int, ghost c0: Ctx<V>, ghost p0: int, ghost t0: Tree<V>)
        returns (x: int, ghost c: Ctx<V>, ghost p: int, ghost t: Tree<V>)
      requires Focused(nodes, root, c0, x0, p0, t0) && PutState(c0, t0)
      requires ParentRed(c0) && !c0.up.Top? && Red(Sibling(c0.up))
      requires 0 <= x0 < |nodes| && 0 <= nodes[x0].parent < |nodes| && 0 <= nodes[nodes[x0].parent].parent < |nodes|
      requires y == SiblingSlot(nodes, c0.up, nodes[nodes[x0].parent].parent)
      modifies this`nodes
      ensures Focused(nodes, root, c, x, p, t) && PutState(c, t)
      ensures Inorder(Plug(c, t)) == Inorder(Plug(c0, t0)) && Depth(c) < Depth(c0)
    {
      hide Ids, Inorder, Focused, PutState, Balanced, CtxBalanced;
      PutRed(c0, t0);
      PutRecolour(c0, t0);
      Around(nodes, root, c0, x0, p0, t0);
      GrandparentFocus(nodes, root, c0, x0, p0, t0);
      var xp := nodes[x0].parent;
      var xpp := nodes[xp].parent;
      Around(nodes, root, c0.up, xp, xpp, Parent(c0, t0));
      ghost var g := Grandparent(c0, t0);
      ghost var q := nodes[xpp].parent;
      c, p, t := c0.up.up, q, Recoloured(g);
      RecolourFocus(nodes, root, c, xpp, q, g, xp, y);
      SameWalk(c, g, t);
      nodes := nodes[xp := nodes[xp].(red := false)];
      nodes := nodes[y := nodes[y].(red := false)];
      nodes := nodes[xpp := nodes[xpp].(red := true)];
      x := xpp;
    }

    /** put: insert, then repair upwards until no red node has a red parent. */
    method Put(key: int, value: V) returns (r: Option<V>)
      requires Valid()
      modifies this
      ensures Valid()
      ensures Map() == old(Map())[key := value]
      ensures r == if key in old(Map()) then Some(old(Map())[key]) else None
    {
      hide Contents, Ids, Inorder, RedBlack, Focused, PutState, Plug, Sorted;
      ghost var c, p, t;
      var isNew, x;
      isNew, x, r, c, p, t := TreeInsert(key, value);
      if !isNew { return r; }
      ghost var walk := Inorder(Plug(c, t));
      PutRed(c, t);
      Around(nodes, root, c, x, p, t);
      while x != root && IsRed(nodes[x].parent)
        invariant Focused(nodes, root, c, x, p, t) && PutState(c, t) && Inorder(Plug(c, t)) == walk
        invariant 0 <= x < |nodes| && p == nodes[x].parent && (p == NIL || 0 <= p < |nodes|)
        invariant x != root && IsRed(p) <==> ParentRed(c)
        decreases Depth(c)
      {
        PutRed(c, t);
        RedParent(c, t);
        Around(nodes, root, c, x, p, t);
        GrandparentFocus(nodes, root, c, x, p, t);
        var xp := nodes[x].parent;
        var xpp := nodes[xp].parent;
        Around(nodes, root, c.up, xp, xpp, Parent(c, t));
        if xp == nodes[xpp].left {
          var y := nodes[xpp].right;
          if IsRed(y) {
            x, c, p, t := Recolour(x, y, c, p, t);
          } else {
            x, c, p, t := FixLeft(x, c, p, t);
          }
        } else {
          var y := nodes[xpp].left;
          if IsRed(y) {
            x, c, p, t := Recolour(x, y, c, p, t);
          } else {
            x, c, p, t := FixRight(x, c, p, t);
          }
        }
        PutRed(c, t);
        Around(nodes, root, c, x, p, t);
      }
      PutDone(c, t);
      FocusWhole(nodes, root, c, x, p, t);
      ghost var whole := Plug(c, t);
      Around(nodes, root, Top, root, NIL, whole);
      PaintFocus(nodes, root, Top, root, NIL, whole, false);
      nodes := nodes[root := nodes[root].(red := false)];
      shape := whole.(red := false);
      PaintLaws(nodes, root, whole);
    }

    /** One round of removal's fixup with x on the left. */
    method FixShortLeft(x0: int, xp0: int, ghost c0: Ctx<V>, ghost t0: Tree<V>)
        returns (x: int, xp: int, ghost c: Ctx<V>, ghost t: Tree<V>)
      requires Focused(nodes, root, c0, x0, xp0, t0) && Short(c0, t0) && c0.LeftOf? && !Red(t0)
      modifies this`nodes, this`root
      ensures Focused(nodes, root, c, x, xp, t) && Short(c, t) && SameEntries(old(nodes), nodes)
      ensures Inorder(Plug(c, t)) == Inorder(Plug(c0, t0)) && Measure(c, t) < Measure(c0, t0)
    {
      hide Inorder, Focused, Short, Plug, Linked, Balanced, CtxBalanced, TopBlack, Height;
      SiblingExists(c0, t0);
      AroundHole(nodes, root, c0, x0, xp0, t0);
      c := c0;
      var w := nodes[xp0].right;
      if nodes[w].red {
        c := RedSiblingLeft(x0, xp0, w, c0, t0);
        SiblingExists(c, t0);
        AroundHole(nodes, root, c, x0, xp0, t0);
        w := nodes[xp0].right;
      }
      x, xp, c, t := BlackSiblingLeft(x0, xp0, w, c, t0);
    }

    /** Cases 2 to 4: the sibling w is black. */
    method BlackSiblingLeft(x0: int, xp0: int, w0: int, ghost c0: Ctx<V>, ghost t0: Tree<V>)
        returns (x: int, xp: int, ghost c: Ctx<V>, ghost t: Tree<V>)
      requires Focused(nodes, root, c0, x0, xp0, t0) && Short(c0, t0) && c0.LeftOf? && !Red(t0)
      requires c0.right.Fork? && !Red(c0.right) && 0 <= xp0 < |nodes| && w0 == nodes[xp0].right
      modifies this`nodes, this`root
      ensures Focused(nodes, root, c, x, xp, t) && Short(c, t) && SameEntries(old(nodes), nodes)
      ensures Inorder(Plug(c, t)) == Inorder(Plug(c0, t0))
      ensures c.Top? || (Depth(c) < Depth(c0) && (c0.red ==> Red(t)))
    {
      hide Inorder, Focused, Short, Plug, Linked, Balanced, CtxBalanced, TopBlack, Height;
      AroundHole(nodes, root, c0, x0, xp0, t0);
      var w := w0;
      if !IsRed(nodes[w].left) && !IsRed(nodes[w].right) {
        ShortMoveUp(c0, t0);
        MoveUpLeftFocus(nodes, root, c0, x0, xp0, t0);
        c, t := c0.up, Parent(PaintedAround(c0, c0.red, true), t0);
        SameWalk(c, t, Parent(c0, t0));
        PlugUp(c0, t0);
        nodes := nodes[w := nodes[w].(red := true)];
        x := xp0;
        xp := nodes[x].parent;
      } else {
        c := c0;
        if !IsRed(nodes[w].right) {
          c := InnerLeft(x0, xp0, w, c, t0);
          SiblingExists(c, t0);
          AroundHole(nodes, root, c, x0, xp0, t0);
          w := nodes[xp0].right;
        }
        x, xp, c, t := LastLeft(x0, xp0, w, c, t0);
      }
    }

    /** Case 1: a red sibling changes places with the parent. */
    method RedSiblingLeft(x: int, xp: int, w: int, ghost c0: Ctx<V>, ghost t: Tree<V>) returns (ghost c: Ctx<V>)
      requires Focused(nodes, root, c0, x, xp, t) && Short(c0, t) && c0.LeftOf? && !Red(t) && Red(c0.right)
      requires 0 <= xp < |nodes| && w == nodes[xp].right
      modifies this`nodes, this`root
      ensures Focused(nodes, root, c, x, xp, t) && Short(c, t) && SameEntries(old(nodes), nodes)
      ensures c.LeftOf? && c.red && !Red(c.right) && Depth(c) == Depth(c0) + 1
      ensures Inorder(Plug(c, t)) == Inorder(Plug(c0, t))
    {
      hide Inorder, Focused, Short, Plug, Linked, Balanced, CtxBalanced, TopBlack, Height;
      AroundHole(nodes, root, c0, x, xp, t);
      ShortRedSibling(c0, t);
      RedSiblingLeftFocus(nodes, root, c0, x, xp, t);
      ghost var g := Parent(PaintedAround(c0, true, false), t);
      ghost var u := RotatedLeft(g);
      PaintedWalk(c0, true, false, t);
      RotateLeftInorder(g);
      SameWalk(c0.up, u, Parent(c0, t));
      PlugUp(c0, t);
      nodes := nodes[w := nodes[w].(red := false)];
      nodes := nodes[xp := nodes[xp].(red := true)];
      ghost var q := nodes[xp].parent;
      var y := LeftRotate(xp, c0.up, q, g);
      RedSiblingLeftRotated(nodes, root, c0.up, y, q, u);
      c := LeftOf(u.left.e, u.left.red, u.left.right, LeftOf(u.e, u.red, u.right, c0.up));
    }

    /** Case 3: the sibling's inner child takes its place. */
    method InnerLeft(x: int, xp: int, w: int, ghost c0: Ctx<V>, ghost t: Tree<V>) returns (ghost c: Ctx<V>)
      requires Focused(nodes, root, c0, x, xp, t) && Short(c0, t) && c0.LeftOf? && !Red(t)
      requires c0.right.Fork? && !Red(c0.right) && Red(c0.right.left) && !Red(c0.right.right)
      requires 0 <= xp < |nodes| && w == nodes[xp].right
      modifies this`nodes, this`root
      ensures Focused(nodes, root, c, x, xp, t) && Short(c, t) && SameEntries(old(nodes), nodes)
      ensures c.LeftOf? && !Red(c.right) && Red(c.right.right) && Depth(c) == Depth(c0)
      ensures Inorder(Plug(c, t)) == Inorder(Plug(c0, t))
    {
      hide Inorder, Focused, Short, Plug, Linked, Balanced, CtxBalanced, TopBlack, Height;
      AroundHole(nodes, root, c0, x, xp, t);
      ShortInner(c0, t);
      InnerLeftFocus(nodes, root, c0, x, xp, t);
      ghost var s := Fork(c0.right.left.(red := false), c0.right.e, true, c0.right.right);
      ghost var u := RotatedRight(s);
      c := c0.(right := u);
      InnerWalk(Sibling(c0));
      RotateRightInorder(s);
      SiblingWalkSame(c0, u, t);
      var wl := nodes[w].left;
      nodes := nodes[wl := nodes[wl].(red := false)];
      nodes := nodes[w := nodes[w].(red := true)];
      var y := RightRotate(w, RightOf(t, c0.e, c0.red, c0.up), xp, s);
      InnerLeftRotated(nodes, root, c0, y, xp, t, u);
    }

    /** Case 4: the parent rotates down and the shortage is paid. */
    method LastLeft(x0: int, xp0: int, w: int, ghost c0: Ctx<V>, ghost t0: Tree<V>)
        returns (x: int, xp: int, ghost c: Ctx<V>, ghost t: Tree<V>)
      requires Focused(nodes, root, c0, x0, xp0, t0) && Short(c0, t0) && c0.LeftOf? && !Red(t0)
      requires c0.right.Fork? && !Red(c0.right) && Red(c0.right.right)
      requires 0 <= xp0 < |nodes| && w == nodes[xp0].right
      modifies this`nodes, this`root
      ensures Focused(nodes, root, c, x, xp, t) && Short(c, t) && SameEntries(old(nodes), nodes)
      ensures c == Top && Inorder(Plug(c, t)) == Inorder(Plug(c0, t0))
    {
      hide Inorder, Focused, Short, Plug, Linked, Balanced, CtxBalanced, TopBlack, Height;
      AroundHole(nodes, root, c0, x0, xp0, t0);
      ShortPaid(c0, t0);
      LastLeftFocus(nodes, root, c0, x0, xp0, t0);
      ghost var g := LastColours(c0, t0);
      ghost var u := RotatedLeft(g);
      LastWalk(c0, t0);
      RotateLeftInorder(g);
      SameWalk(c0.up, u, Parent(c0, t0));
      PlugUp(c0, t0);
      nodes := nodes[w := nodes[w].(red := nodes[xp0].red)];
      nodes := nodes[xp0 := nodes[xp0].(red := false)];
      if nodes[w].right != NIL {
        var wr := nodes[w].right;
        nodes := nodes[wr := nodes[wr].(red := false)];
      }
      ghost var q := nodes[xp0].parent;
      var y := LeftRotate(xp0, c0.up, q, g);
      FocusWhole(nodes, root, c0.up, y, q, u);
      c, t := Top, Plug(c0.up, u);
      PlugFork(c0.up, u);
      PlugTop(t);
      Around(nodes, root, Top, root, NIL, t);
      x := root;
      xp := nodes[x].parent;
    }

    /** One round of removal's fixup with x on the right. */
    method FixShortRight(x0: int, xp0: int, ghost c0: Ctx<V>, ghost t0: Tree<V>)
        returns (x: int, xp: int, ghost c: Ctx<V>, ghost t: Tree<V>)
      requires Focused(nodes, root, c0, x0, xp0, t0) && Short(c0, t0) && c0.RightOf? && !Red(t0)
      modifies this`nodes, this`root
      ensures Focused(nodes, root, c, x, xp, t) && Short(c, t) && SameEntries(old(nodes), nodes)
      ensures Inorder(Plug(c, t)) == Inorder(Plug(c0, t0)) && Measure(c, t) < Measure(c0, t0)
    {
      hide Inorder, Focused, Short, Plug, Linked, Balanced, CtxBalanced, TopBlack, Height;
      SiblingExists(c0, t0);
      AroundHole(nodes, root, c0, x0, xp0, t0);
      c := c0;
      var w := nodes[xp0].left;
      if nodes[w].red {
        c := RedSiblingRight(x0, xp0, w, c0, t0);
        SiblingExists(c, t0);
        AroundHole(nodes, root, c, x0, xp0, t0);
        w := nodes[xp0].left;
      }
      x, xp, c, t := BlackSiblingRight(x0, xp0, w, c, t0);
    }

    /** Cases 2 to 4: the sibling w is black. */
    method BlackSiblingRight(x0: int, xp0: int, w0: int, ghost c0: Ctx<V>, ghost t0: Tree<V>)
        returns (x: int, xp: int, ghost c: Ctx<V>, ghost t: Tree<V>)
      requires Focused(nodes, root, c0, x0, xp0, t0) && Short(c0, t0) && c0.RightOf? && !Red(t0)
      requires c0.left.Fork? && !Red(c0.left) && 0 <= xp0 < |nodes| && w0 == nodes[xp0].left
      modifies this`nodes, this`root
      ensures Focused(nodes, root, c, x, xp, t) && Short(c, t) && SameEntries(old(nodes), nodes)
      ensures Inorder(Plug(c, t)) == Inorder(Plug(c0, t0))
      ensures c.Top? || (Depth(c) < Depth(c0) && (c0.red ==> Red(t)))
    {
      hide Inorder, Focused, Short, Plug, Linked, Balanced, CtxBalanced, TopBlack, Height;
      AroundHole(nodes, root, c0, x0, xp0, t0);
      var w := w0;
      if !IsRed(nodes[w].right) && !IsRed(nodes[w].left) {
        ShortMoveUp(c0, t0);
        MoveUpRightFocus(nodes, root, c0, x0, xp0, t0);
        c, t := c0.up, Parent(PaintedAround(c0, c0.red, true), t0);
        SameWalk(c, t, Parent(c0, t0));
        PlugUp(c0, t0);
        nodes := nodes[w := nodes[w].(red := true)];
        x := xp0;
        xp := nodes[x].parent;
      } else {
        c := c0;
        if !IsRed(nodes[w].left) {
          c := InnerRight(x0, xp0, w, c, t0);
          SiblingExists(c, t0);
          AroundHole(nodes, root, c, x0, xp0, t0);
          w := nodes[xp0].left;
        }
        x, xp, c, t := LastRight(x0, xp0, w, c, t0);
      }
    }

    /** Case 1: a red sibling changes places with the parent. */
    method RedSiblingRight(x: int, xp: int, w: int, ghost c0: Ctx<V>, ghost t: Tree<V>) returns (ghost c: Ctx<V>)
      requires Focused(nodes, root, c0, x, xp, t) && Short(c0, t) && c0.RightOf? && !Red(t) && Red(c0.left)
      requires 0 <= xp < |nodes| && w == nodes[xp].left
      modifies this`nodes, this`root
      ensures Focused(nodes, root, c, x, xp, t) && Short(c, t) && SameEntries(old(nodes), nodes)
      ensures c.RightOf? && c.red && !Red(c.left) && Depth(c) == Depth(c0) + 1
      ensures Inorder(Plug(c, t)) == Inorder(Plug(c0, t))
    {
      hide Inorder, Focused, Short, Plug, Linked, Balanced, CtxBalanced, TopBlack, Height;
      AroundHole(nodes, root, c0, x, xp, t);
      ShortRedSibling(c0, t);
      RedSiblingRightFocus(nodes, root, c0, x, xp, t);
      ghost var g := Parent(PaintedAround(c0, true, false), t);
      ghost var u := RotatedRight(g);
      PaintedWalk(c0, true, false, t);
      RotateRightInorder(g);
      SameWalk(c0.up, u, Parent(c0, t));
      PlugUp(c0, t);
      nodes := nodes[w := nodes[w].(red := false)];
      nodes := nodes[xp := nodes[xp].(red := true)];
      ghost var q := nodes[xp].parent;
      var y := RightRotate(xp, c0.up, q, g);
      RedSiblingRightRotated(nodes, root, c0.up, y, q, u);
      c := RightOf(u.right.left, u.right.e, u.right.red, RightOf(u.left, u.e, u.red, c0.up));
    }

    /** Case 3: the sibling's inner child takes its place. */
    method InnerRight(x: int, xp: int, w: int, ghost c0: Ctx<V>, ghost t: Tree<V>) returns (ghost c: Ctx<V>)
      requires Focused(nodes, root, c0, x, xp, t) && Short(c0, t) && c0.RightOf? && !Red(t)
      requires c0.left.Fork? && !Red(c0.left) && Red(c0.left.right) && !Red(c0.left.left)
      requires 0 <= xp < |nodes| && w == nodes[xp].left
      modifies this`nodes, this`root
      ensures Focused(nodes, root, c, x, xp, t) && Short(c, t) && SameEntries(old(nodes), nodes)
      ensures c.RightOf? && !Red(c.left) && Red(c.left.left) && Depth(c) == Depth(c0)
      ensures Inorder(Plug(c, t)) == Inorder(Plug(c0, t))
    {
      hide Inorder, Focused, Short, Plug, Linked, Balanced, CtxBalanced, TopBlack, Height;
      AroundHole(nodes, root, c0, x, xp, t);
      ShortInner(c0, t);
      InnerRightFocus(nodes, root, c0, x, xp, t);
      ghost var s := Fork(c0.left.left, c0.left.e, true, c0.left.right.(red := false));
      ghost var u := RotatedLeft(s);
      c := c0.(left := u);
      InnerWalk(Sibling(c0));
      RotateLeftInorder(s);
      SiblingWalkSame(c0, u, t);
      var wl := nodes[w].right;
      nodes := nodes[wl := nodes[wl].(red := false)];
      nodes := nodes[w := nodes[w].(red := true)];
      var y := LeftRotate(w, LeftOf(c0.e, c0.red, t, c0.up), xp, s);
      InnerRightRotated(nodes, root, c0, y, xp, t, u);
    }

    /** Case 4: the parent rotates down and the shortage is paid. */
    method LastRight(x0: int, xp0: int, w: int, ghost c0: Ctx<V>, ghost t0: Tree<V>)
        returns (x: int, xp: int, ghost c: Ctx<V>, ghost t: Tree<V>)
      requires Focused(nodes, root, c0, x0, xp0, t0) && Short(c0, t0) && c0.RightOf? && !Red(t0)
      requires c0.left.Fork? && !Red(c0.left) && Red(c0.left.left)
      requires 0 <= xp0 < |nodes| && w == nodes[xp0].left
      modifies this`nodes, this`root
      ensures Focused(nodes, root, c, x, xp, t) && Short(c, t) && SameEntries(old(nodes), nodes)
      ensures c == Top && Inorder(Plug(c, t)) == Inorder(Plug(c0, t0))
    {
      hide Inorder, Focused, Short, Plug, Linked, Balanced, CtxBalanced, TopBlack, Height;
      AroundHole(nodes, root, c0, x0, xp0, t0);
      ShortPaid(c0, t0);
      LastRightFocus(nodes, root, c0, x0, xp0, t0);
      ghost var g := LastColours(c0, t0);
      ghost var u := RotatedRight(g);
      LastWalk(c0, t0);
      RotateRightInorder(g);
      SameWalk(c0.up, u, Parent(c0, t0));
      PlugUp(c0, t0);
      nodes := nodes[w := nodes[w].(red := nodes[xp0].red)];
      nodes := nodes[xp0 := nodes[xp0].(red := false)];
      if nodes[w].left != NIL {
        var wr := nodes[w].left;
        nodes := nodes[wr := nodes[wr].(red := false)];
      }
      ghost var q := nodes[xp0].parent;
      var y := RightRotate(xp0, c0.up, q, g);
      FocusWhole(nodes, root, c0.up, y, q, u);
      c, t := Top, Plug(c0.up, u);
      PlugFork(c0.up, u);
      PlugTop(t);
      Around(nodes, root, Top, root, NIL, t);
      x := root;
      xp := nodes[x].parent;
    }

    /** remove_fixup. */
    method RemoveFixup(x0: int, xp0: int, ghost c0: Ctx<V>, ghost t0: Tree<V>) returns (ghost whole: Tree<V>)
      requires Focused(nodes, root, c0, x0, xp0, t0) && Short(c0, t0)
      modifies this`nodes, this`root
      ensures Focused(nodes, root, Top, root, NIL, whole) && SameEntries(old(nodes), nodes)
      ensures Balanced(whole) && !Red(whole) && Inorder(whole) == Inorder(Plug(c0, t0))
    {
      hide Inorder, Focused, Short, Plug, Linked, Balanced, CtxBalanced, TopBlack, Height;
      var x, xp := x0, xp0;
      ghost var c, t := c0, t0;
      RootTest(nodes, root, c, x, xp, t);
      while x != root && (x == NIL || !nodes[x].red)
        invariant Focused(nodes, root, c, x, xp, t) && Short(c, t) && SameEntries(old(nodes), nodes)
        invariant Inorder(Plug(c, t)) == Inorder(Plug(c0, t0))
        invariant -1 <= x < |nodes| && (x != NIL ==> t.Fork? && nodes[x].red == t.red) && (x == NIL ==> t.Leaf?)
        invariant x == root <==> c.Top?
        decreases Measure(c, t)
      {
        SiblingExists(c, t);
        AroundHole(nodes, root, c, x, xp, t);
        if x == nodes[xp].left {
          x, xp, c, t := FixShortLeft(x, xp, c, t);
        } else {
          x, xp, c, t := FixShortRight(x, xp, c, t);
        }
        RootTest(nodes, root, c, x, xp, t);
      }
      ShortDone(c, t);
      BlackenedWalk(c, t);
      whole := Plug(c, Blackened(t));
      if x != NIL {
        PaintFocus(nodes, root, c, x, xp, t, false);
        nodes := nodes[x := nodes[x].(red := false)];
      }
      FocusWhole(nodes, root, c, x, xp, Blackened(t));
    }

    // ── Walking in order ──────────────────────────────────────────────

    /** tree_minimum: down the left links. */
    method TreeMinimum(x: int, ghost c0: Ctx<V>, ghost p0: int, ghost t0: Tree<V>)
        returns (m: int, ghost c: Ctx<V>, ghost p: int, ghost t: Tree<V>)
      requires Focused(nodes, root, c0, x, p0, t0) && t0.Fork?
      ensures Focused(nodes, root, c, m, p, t) && t.Fork? && t.left.Leaf? && 0 <= m < |nodes|
      ensures Plug(c, t) == Plug(c0, t0) && Before(c) == Before(c0)
    {
      hide Focused, Plug;
      m, c, p, t := x, c0, p0, t0;
      ChildSlots(nodes, root, c, m, p, t);
      while nodes[m].left != NIL
        invariant Focused(nodes, root, c, m, p, t) && t.Fork? && 0 <= m < |nodes|
        invariant nodes[m].left == NIL <==> t.left.Leaf?
        invariant Plug(c, t) == Plug(c0, t0) && Before(c) == Before(c0)
        decreases t
      {
        FocusDown(nodes, root, c, m, p, t);
        PlugDown(c, t);
        c, p, m, t := LeftOf(t.e, t.red, t.right, c), m, nodes[m].left, t.left;
        ChildSlots(nodes, root, c, m, p, t);
      }
    }

    /** successor: the next entry of the in-order walk, or NIL after the last. */
    method Successor(x0: int, ghost c0: Ctx<V>, ghost p0: int, ghost t0: Tree<V>)
        returns (y: int, ghost c: Ctx<V>, ghost p: int, ghost t: Tree<V>)
      requires Focused(nodes, root, c0, x0, p0, t0) && t0.Fork?
      ensures y == NIL <==> Inorder(t0.right) + After(c0) == []
      ensures y != NIL ==>
                && Focused(nodes, root, c, y, p, t) && t.Fork? && 0 <= y < |nodes| && Plug(c, t) == Plug(c0, t0)
                && Before(c) + Inorder(t.left) == Before(c0) + Inorder(t0.left) + [t0.e]
                && (t0.right.Fork? ==> t.left.Leaf?)
    {
      hide Focused, Plug, Inorder, Before, After, Climbing;
      var x := x0;
      Around(nodes, root, c0, x, p0, t0);
      ChildSlots(nodes, root, c0, x, p0, t0);
      InorderEmpty(t0.right);
      if nodes[x].right != NIL {
        FocusDown(nodes, root, c0, x, p0, t0);
        PlugDown(c0, t0);
        y, c, p, t := TreeMinimum(nodes[x].right, RightOf(t0.left, t0.e, t0.red, c0), x, t0.right);
        MinimumWalk(c0, t0, t);
        return;
      }
      c, p, t := c0, p0, t0;
      y := nodes[x].parent;
      Around(nodes, root, c, x, y, t);
      ClimbStart(c0, t0);
      while y != NIL && x == nodes[y].right
        invariant Focused(nodes, root, c, x, y, t) && t.Fork? && Plug(c, t) == Plug(c0, t0) && Climbing(c, t, c0, t0)
        invariant y != NIL ==> 0 <= y < |nodes|
        decreases Depth(c)
      {
        Around(nodes, root, c, x, y, t);
        FocusUp(nodes, root, c, x, y, t);
        PlugUp(c, t);
        ClimbUp(c, t, c0, t0);
        x := y;
        y := nodes[y].parent;
        c, t := c.up, Parent(c, t);
        Around(nodes, root, c, x, y, t);
      }
      Around(nodes, root, c, x, y, t);
      ClimbEnd(c, t, c0, t0);
      if y != NIL {
        FocusUp(nodes, root, c, x, y, t);
        PlugUp(c, t);
        c, p, t := c.up, nodes[y].parent, Parent(c, t);
      }
    }

    /** for_each, recording what it passes to its callback. */
    method ForEach() returns (visited: seq<(int, V)>)
      requires Valid()
      ensures forall i, j :: 0 <= i < j < |visited| ==> visited[i].0 < visited[j].0
      ensures forall i :: 0 <= i < |visited| ==> visited[i].0 in Map() && Map()[visited[i].0] == visited[i].1
      ensures forall k :: k in Map() ==> exists i :: 0 <= i < |visited| && visited[i].0 == k
    {
      hide Focused, Plug, Contents, Inorder;
      visited := [];
      RootTest(nodes, root, Top, root, NIL, shape);
      InorderEmpty(shape);
      if root == NIL {
        PairsVisited(Inorder(shape), visited);
        return;
      }
      ghost var cur, p, t;
      var c;
      c, cur, p, t := TreeMinimum(root, Top, NIL, shape);
      PlugTop(shape);
      ghost var done := Before(cur) + Inorder(t.left);
      InorderEmpty(t.left);
      while c != NIL
        invariant c != NIL ==>
                    && Focused(nodes, root, cur, c, p, t) && t.Fork? && 0 <= c < |nodes| && Plug(cur, t) == shape
                    && done == Before(cur) + Inorder(t.left)
        invariant c == NIL ==> done == Inorder(shape)
        invariant done <= Inorder(shape) && visited == Pairs(done)
        decreases |Inorder(shape)| - |done|, if c == NIL then 0 else 1
      {
        Around(nodes, root, cur, c, p, t);
        visited := visited + [(nodes[c].key, nodes[c].value)];
        FocusEntry(nodes, root, cur, c, p, t);
        WalkAt(cur, t);
        PairsSnoc(done, t.e);
        ghost var next := done + [t.e];
        ghost var cur0, t0 := cur, t;
        c, cur, p, t := Successor(c, cur, p, t);
        done := next;
        if c != NIL { WalkAt(cur, t); }
      }
      PairsVisited(Inorder(shape), visited);
    }

    // ── Removal ───────────────────────────────────────────────────────

    /** Linking past y, which has at most one child. */
    method Splice(y: int, ghost c: Ctx<V>, ghost p: int, ghost t: Tree<V>) returns (x: int, xp: int, ghost u: Tree<V>)
      requires Focused(nodes, root, c, y, p, t) && t.Fork? && (t.left.Leaf? || t.right.Leaf?)
      modifies this`nodes, this`root
      ensures u == if t.left.Fork? then t.left else t.right
      ensures Focused(nodes, root, c, x, xp, u) && y !in Ids(Plug(c, u)) && SameEntries(old(nodes), nodes)
      ensures 0 <= y < |nodes| && nodes[y].red == t.red
    {
      hide SameEntries, Ids, Plug;
      Around(nodes, root, c, y, p, t);
      FocusDown(nodes, root, c, y, p, t);
      RootTest(nodes, root, LeftOf(t.e, t.red, t.right, c), nodes[y].left, y, t.left);
      u := if t.left.Fork? then t.left else t.right;
      x := if nodes[y].left != NIL then nodes[y].left else nodes[y].right;
      ghost var n0 := nodes;
      SpliceFocus(nodes, root, if c.Top? then x else root, c, y, p, t, x, u);
      if x != NIL {
        nodes := nodes[x := nodes[x].(parent := nodes[y].parent)];
        xp := nodes[x].parent;
      } else {
        xp := nodes[y].parent;
      }
      var yp := nodes[y].parent;
      if yp == NIL {
        root := x;
      } else if y == nodes[yp].left {
        nodes := nodes[yp := nodes[yp].(left := x)];
      } else {
        nodes := nodes[yp := nodes[yp].(right := x)];
      }
      assert nodes == SpliceLinks(n0, c, p, x);
    }

    /** y copies z's links and colour, and z's children take y for their parent. */
    method AdoptChildren(z: int, y: int)
      requires 0 <= z < |nodes| && 0 <= y < |nodes| && y != z
      requires -1 <= nodes[z].left < |nodes| && -1 <= nodes[z].right < |nodes|
      modifies this`nodes
      ensures nodes == AdoptedLinks(old(nodes), z, y)
    {
      nodes := nodes[y := nodes[y].(parent := nodes[z].parent)];
      nodes := nodes[y := nodes[y].(red := nodes[z].red)];
      nodes := nodes[y := nodes[y].(left := nodes[z].left)];
      nodes := nodes[y := nodes[y].(right := nodes[z].right)];
      assert nodes == CopiedLinks(old(nodes), z, y);
      if nodes[z].left != NIL {
        var l := nodes[z].left;
        nodes := nodes[l := nodes[l].(parent := y)];
      }
      if nodes[z].right != NIL {
        var r := nodes[z].right;
        nodes := nodes[r := nodes[r].(parent := y)];
      }
    }

    /** y, outside the tree, takes over z's links and colour. */
    method Transplant(z: int, y: int, ghost c: Ctx<V>, ghost p: int, ghost t: Tree<V>)
      requires Focused(nodes, root, c, z, p, t) && t.Fork?
      requires 0 <= y < |nodes| && y !in Ids(t) && y !in CtxIds(c)
      modifies this`nodes, this`root
      ensures Focused(nodes, root, c, y, p, t.(e := Entry(y, old(nodes[y].key), old(nodes[y].value))))
      ensures SameEntries(old(nodes), nodes)
    {
      hide SameEntries, Focused, Ids, CtxIds, Linked, LinkedCtx, Apart, Plug, RootId, AdoptedLinks;
      Around(nodes, root, c, z, p, t);
      AdoptedAbove(nodes, root, c, z, p, t, y);
      TransplantFocus(nodes, root, if c.Top? then y else root, c, z, p, t, y);
      AdoptChildren(z, y);
      var zp := nodes[z].parent;
      if zp != NIL {
        if nodes[zp].left == z {
          nodes := nodes[zp := nodes[zp].(left := y)];
        } else {
          nodes := nodes[zp := nodes[zp].(right := y)];
        }
      } else {
        root := y;
      }
    }

    /** y leaves the tree: linked past, and the fixup run if it was black. */
    method TakeOut(y: int, ghost c: Ctx<V>, ghost p: int, ghost t: Tree<V>) returns (ghost whole: Tree<V>)
      requires Focused(nodes, root, c, y, p, t) && t.Fork? && (t.left.Leaf? || t.right.Leaf?)
      requires Balanced(Plug(c, t)) && !Red(Plug(c, t))
      modifies this`nodes, this`root
      ensures Focused(nodes, root, Top, root, NIL, whole) && Balanced(whole) && !Red(whole)
      ensures Inorder(whole) == (Before(c) + Inorder(t.left)) + (Inorder(t.right) + After(c))
      ensures y !in Ids(whole) && SameEntries(old(nodes), nodes)
    {
      hide Ids, Inorder, Focused, Plug, Balanced, Short, SameEntries;
      var x, xp;
      ghost var u;
      x, xp, u := Splice(y, c, p, t);
      ghost var n1 := nodes;
      SpliceColours(c, t, u);
      SpliceWalk(c, t, u);
      whole := Plug(c, u);
      if !nodes[y].red {
        whole := RemoveFixup(x, xp, c, u);
        WalkSame(whole, Plug(c, u));
      } else {
        FocusWhole(nodes, root, c, x, xp, u);
      }
      SameTrans(old(nodes), n1, nodes);
    }

    /** z, still in the tree, gives its place to y, which has left it. */
    method Replace(z: int, y: int, ghost e: Entry<V>, ghost f: Entry<V>, ghost whole: Tree<V>, ghost b: seq<Entry<V>>,
                   ghost a: seq<Entry<V>>)
      requires Focused(nodes, root, Top, root, NIL, whole) && Balanced(whole) && !Red(whole)
      requires Inorder(whole) == (b + [e]) + a && y !in Ids(whole) && Sorted(b + [e] + [f] + a)
      requires 0 <= z < |nodes| && z == e.id && nodes[z].key == e.key && nodes[z].value == e.value
      requires 0 <= y < |nodes| && y == f.id && nodes[y].key == f.key && nodes[y].value == f.value
      modifies this
      ensures Valid() && SameEntries(old(nodes), nodes)
      ensures Map() == Contents(b + [e] + [f] + a) - {e.key}
    {
      hide Contents, Ids, CtxIds, Inorder, RedBlack, Focused, Plug, Sorted, Balanced, SameEntries;
      ghost var i, p, c, t;
      WalkHolds(whole, e, b, a);
      c, t := FocusIn(Top, whole, z);
      PlugTop(whole);
      i, p := FocusPlug(nodes, root, c, t);
      FocusEntry(nodes, root, c, i, p, t);
      PlugIds(c, t);
      Transplant(z, y, c, p, t);
      shape := Plug(c, t.(e := f));
      FocusWhole(nodes, root, c, y, p, t.(e := f));
      TransplantLaws(whole, b, f, a, c, t);
      ValidFrom(nodes, root, shape);
    }

    /** remove: the node y physically taken out is z itself or its successor,
        which takes z's place after the fixup has run on the tree holding z. */
    method Remove(key: int) returns (r: Option<V>)
      requires Valid()
      modifies this
      ensures Valid()
      ensures Map() == old(Map()) - {key}
      ensures r == if key in old(Map()) then Some(old(Map())[key]) else None
    {
      hide Contents, Ids, CtxIds, Inorder, RedBlack, Focused, Plug, Sorted, Balanced, Short, SameEntries, KeySet;
      var z;
      ghost var c, p, t;
      z, c, p, t := FindNode(key);
      if z == NIL {
        MissingKey(Contents(Inorder(shape)), key);
        return None;
      }
      Laws(shape);
      FocusEntry(nodes, root, c, z, p, t);
      ChildSlots(nodes, root, c, z, p, t);
      ghost var n0 := nodes;
      ghost var whole;
      if nodes[z].left == NIL || nodes[z].right == NIL {
        WalkAt(c, t);
        whole := TakeOut(z, c, p, t);
        RemovedLaws(shape, whole, Before(c) + Inorder(t.left), t.e, Inorder(t.right) + After(c));
        shape := whole;
        ValidFrom(nodes, root, shape);
      } else {
        var y;
        ghost var cy, py, ty;
        InorderEmpty(t.right);
        y, cy, py, ty := Successor(z, c, p, t);
        FocusEntry(nodes, root, cy, y, py, ty);
        SuccessorWalk(c, t, cy, ty);
        whole := TakeOut(y, cy, py, ty);
        EntryStays(n0, nodes, z);
        EntryStays(n0, nodes, y);
        ghost var n1 := nodes;
        Replace(z, y, t.e, ty.e, whole, Before(c) + Inorder(t.left), Inorder(ty.right) + After(cy));
        SameTrans(n0, n1, nodes);
      }
      EntryStays(n0, nodes, z);
      r := Some(nodes[z].value);
    }
  }

  // ── Steps of the search ─────────────────────────────────────────────

  /** A search for key has narrowed shape down to the subtree t at x. */
  ghost predicate Searching<V>(nodes: seq<Node<V>>, root: int, shape: Tree<V>, c: Ctx<V>, x: int, p: int, t: Tree<V>,
                               key: int)
  {
    && RedBlack(shape) && Plug(c, t) == shape && Focused(nodes, root, c, x, p, t)
    && KeysBelow(Before(c), key) && KeysAbove(After(c), key)
  }

  lemma SearchFocus<V>(nodes: seq<Node<V>>, root: int, shape: Tree<V>, c: Ctx<V>, x: int, p: int, t: Tree<V>, key: int)
    requires Searching(nodes, root, shape, c, x, p, t, key)
    ensures Focused(nodes, root, c, x, p, t) && Plug(c, t) == shape
  {}

  lemma StartSearch<V>(nodes: seq<Node<V>>, root: int, shape: Tree<V>, key: int)
    requires RedBlack(shape) && Focused(nodes, root, Top, root, NIL, shape)
    ensures Searching(nodes, root, shape, Top, root, NIL, shape, key)
  {}

  /** One comparison: the entry is at x, or the search goes on below it. */
  lemma SearchStep<V>(nodes: seq<Node<V>>, root: int, shape: Tree<V>, c: Ctx<V>, x: int, p: int, t: Tree<V>, key: int)
    requires Searching(nodes, root, shape, c, x, p, t, key) && x != NIL
    ensures t.Fork? && 0 <= x < |nodes| && nodes[x].key == t.e.key && nodes[x].value == t.e.value && x in Ids(shape)
    ensures t.e.key in Contents(Inorder(shape)) && Contents(Inorder(shape))[t.e.key] == t.e.value
    ensures key < t.e.key ==>
        Searching(nodes, root, shape, LeftOf(t.e, t.red, t.right, c), nodes[x].left, x, t.left, key)
    ensures key > t.e.key ==>
        Searching(nodes, root, shape, RightOf(t.left, t.e, t.red, c), nodes[x].right, x, t.right, key)
  {
    hide Contents, KeysBelow, KeysAbove;
    NodeEntry(c, t);
    PlugIds(c, t);
    FocusDown(nodes, root, c, x, p, t);
    if key < t.e.key { DescendLeft(c, t, key); }
    if key > t.e.key { DescendRight(c, t, key); }
  }

  lemma SearchFails<V>(nodes: seq<Node<V>>, root: int, shape: Tree<V>, c: Ctx<V>, p: int, t: Tree<V>, key: int)
    requires Searching(nodes, root, shape, c, NIL, p, t, key)
    ensures t.Leaf? && key !in Contents(Inorder(shape))
  {
    InorderPlug(c, t);
    assert t.Leaf?;
    assert Inorder(shape) == Before(c) + After(c);
    AbsentKey(Before(c), After(c), key);
  }

  lemma PaintLaws<V>(nodes: seq<Node<V>>, root: int, t: Tree<V>)
    requires t.Fork? && Sorted(Inorder(t)) && Balanced(t.(red := false))
    requires Focused(nodes, root, Top, root, NIL, t.(red := false))
    ensures RedBlack(t.(red := false)) && Inorder(t.(red := false)) == Inorder(t)
  {}

  lemma PutRed<V>(c: Ctx<V>, t: Tree<V>)
    requires PutState(c, t)
    ensures t.Fork? && t.red
  {}

  lemma FocusRoot<V>(nodes: seq<Node<V>>, root: int, c: Ctx<V>, x: int, p: int, t: Tree<V>)
    requires Focused(nodes, root, c, x, p, t)
    ensures x == RootId(t)
  {
    LinkedIds(nodes, x, p, t);
  }

  lemma NodeEntry<V>(c: Ctx<V>, t: Tree<V>)
    requires t.Fork? && Sorted(Inorder(Plug(c, t)))
    ensures t.e.key in Contents(Inorder(Plug(c, t))) && Contents(Inorder(Plug(c, t)))[t.e.key] == t.e.value
  {
    InorderPlug(c, t);
    var s := Inorder(Plug(c, t));
    var i := |Before(c)| + |Inorder(t.left)|;
    assert s[i] == t.e;
    ContentsAt(s, i);
  }

  lemma DescendLeft<V>(c: Ctx<V>, t: Tree<V>, key: int)
    requires t.Fork? && Sorted(Inorder(Plug(c, t))) && key < t.e.key && KeysAbove(After(c), key)
    ensures KeysAbove(After(LeftOf(t.e, t.red, t.right, c)), key)
  {
    InorderPlug(c, t);
    var s := Inorder(Plug(c, t));
    var n := |Before(c)| + |Inorder(t.left)|;
    var a := [t.e] + Inorder(t.right) + After(c);
    forall i | 0 <= i < |a| ensures key < a[i].key {
      assert a[i] == s[n + i] && s[n] == t.e;
    }
  }

  lemma DescendRight<V>(c: Ctx<V>, t: Tree<V>, key: int)
    requires t.Fork? && Sorted(Inorder(Plug(c, t))) && t.e.key < key && KeysBelow(Before(c), key)
    ensures KeysBelow(Before(RightOf(t.left, t.e, t.red, c)), key)
  {
    InorderPlug(c, t);
    var s := Inorder(Plug(c, t));
    var b := Before(c) + Inorder(t.left) + [t.e];
    assert b <= s && s[|b| - 1] == t.e;
    forall i | 0 <= i < |b| ensures b[i].key < key {
      assert b[i] == s[i];
    }
  }

  lemma AbsentKey<V>(b: seq<Entry<V>>, a: seq<Entry<V>>, key: int)
    requires KeysBelow(b, key) && KeysAbove(a, key)
    ensures key !in Contents(b + a)
  {
    forall i | 0 <= i < |b + a| ensures (b + a)[i].key != key {
      assert (b + a)[i] == if i < |b| then b[i] else a[i - |b|];
    }
  }

  /** Replacing a value in place keeps every law and updates the map. */
  lemma ReplaceValue<V>(nodes: seq<Node<V>>, root: int, shape: Tree<V>, c: Ctx<V>, x: int, p: int, t: Tree<V>,
                        key: int, value: V)
    requires Searching(nodes, root, shape, c, x, p, t, key) && t.Fork?
    ensures 0 <= x < |nodes|
    ensures var whole := Plug(c, t.(e := t.e.(value := value)));
            && Focused(nodes[x := nodes[x].(value := value)], root, Top, root, NIL, whole)
            && RedBlack(whole)
            && Contents(Inorder(whole)) == Contents(Inorder(shape))[t.e.key := value]
  {
    hide Contents, Sorted;
    var u := t.(e := t.e.(value := value));
    ReplaceFocus(nodes, root, c, x, p, t, value);
    FocusWhole(nodes[x := nodes[x].(value := value)], root, c, x, p, u);
    PlugBalanced(c, t);
    PlugBalanced(c, u);
    PlugRoot(c, t);
    PlugRoot(c, u);
    ReplaceContents(c, t, u);
  }

  lemma ReplaceFocus<V>(nodes: seq<Node<V>>, root: int, c: Ctx<V>, x: int, p: int, t: Tree<V>, value: V)
    requires Focused(nodes, root, c, x, p, t) && t.Fork?
    ensures 0 <= x < |nodes|
    ensures Focused(nodes[x := nodes[x].(value := value)], root, c, x, p, t.(e := t.e.(value := value)))
  {
    var nodes' := nodes[x := nodes[x].(value := value)];
    LinkedFrame(nodes, nodes', nodes[x].left, x, t.left);
    LinkedFrame(nodes, nodes', nodes[x].right, x, t.right);
    CtxFrame(nodes, nodes', root, c, x, p);
  }

  lemma ReplaceContents<V>(c: Ctx<V>, t: Tree<V>, u: Tree<V>)
    requires t.Fork? && u.Fork? && u.left == t.left && u.right == t.right && u.e.key == t.e.key
    requires Sorted(Inorder(Plug(c, t)))
    ensures Sorted(Inorder(Plug(c, u)))
    ensures Contents(Inorder(Plug(c, u))) == Contents(Inorder(Plug(c, t)))[u.e.key := u.e.value]
  {
    hide Contents, Sorted, Plug, Before, After;
    InorderPlug(c, t);
    InorderPlug(c, u);
    Reassociate(Before(c), Inorder(t.left), t.e, Inorder(t.right), After(c));
    Reassociate(Before(c), Inorder(t.left), u.e, Inorder(t.right), After(c));
    var b, a := Before(c) + Inorder(t.left), Inorder(t.right) + After(c);
    ContentsReplaced(b, t.e, u.e, a);
  }

  lemma Reassociate<T>(b: seq<T>, l: seq<T>, e: T, r: seq<T>, a: seq<T>)
    ensures b + (l + [e] + r) + a == (b + l) + [e] + (r + a)
  {}

  lemma ContentsReplaced<V>(b: seq<Entry<V>>, e: Entry<V>, f: Entry<V>, a: seq<Entry<V>>)
    requires Sorted(b + [e] + a) && e.key == f.key
    ensures Sorted(b + [f] + a) && Contents(b + [f] + a) == Contents(b + [e] + a)[f.key := f.value]
  {
    hide Contents;
    assert forall i :: 0 <= i < |b + [e] + a| ==> (b + [e] + a)[i].key == (b + [f] + a)[i].key;
    ContentsSplit(b, e, a);
    ContentsSplit(b, f, a);
  }

  /** Hanging a new red leaf in the empty hole the search ends in. */
  lemma InsertLeaf<V>(nodes: seq<Node<V>>, root: int, shape: Tree<V>, c: Ctx<V>, y: int, key: int, value: V)
    requires Searching(nodes, root, shape, c, NIL, y, Leaf, key)
    ensures y == NIL <==> c.Top?
    ensures y != NIL ==> 0 <= y < |nodes| && (key < nodes[y].key <==> c.LeftOf?)
    ensures var z := |nodes|;
            var t := Fork(Leaf, Entry(z, key, value), true, Leaf);
            && Focused(Relinked(nodes + [Node(key, value, NIL, NIL, y, true)], c, y, z), if c.Top? then z
               else root, c, z, y, t)
            && Sorted(Inorder(Plug(c, t))) && PutState(c, t)
            && Contents(Inorder(Plug(c, t))) == Contents(Inorder(shape))[key := value]
  {
    hide Contents, KeysBelow, KeysAbove, Sorted, Inorder;
    LeafLinks(nodes, root, c, y, key, value);
    if !c.Top? { LeafSide(c, key); }
    LeafContents(c, Entry(|nodes|, key, value));
    PlugBalanced(c, Leaf);
    PlugRoot(c, Leaf);
  }

  lemma LeafLinks<V>(nodes: seq<Node<V>>, root: int, c: Ctx<V>, y: int, key: int, value: V)
    requires Focused(nodes, root, c, NIL, y, Leaf)
    ensures y == NIL <==> c.Top?
    ensures y != NIL ==> 0 <= y < |nodes| && nodes[y].key == c.e.key
    ensures var z := |nodes|;
            Focused(Relinked(nodes + [Node(key, value, NIL, NIL, y, true)], c, y, z), if c.Top? then z
              else root, c, z, y,
                    Fork(Leaf, Entry(z, key, value), true, Leaf))
  {
    var z := |nodes|;
    var n1 := nodes + [Node(key, value, NIL, NIL, y, true)];
    CtxLinks(nodes, root, c, NIL, y);
    CtxFrame(nodes, n1, root, c, NIL, y);
    CtxRelink(n1, root, if c.Top? then z else root, c, NIL, y, z);
  }

  lemma LeafSide<V>(c: Ctx<V>, key: int)
    requires KeysBelow(Before(c), key) && KeysAbove(After(c), key) && !c.Top?
    ensures key < c.e.key <==> c.LeftOf?
  {
    if c.LeftOf? { assert After(c)[0] == c.e; } else { assert Before(c)[|Before(c)| - 1] == c.e; }
  }

  lemma LeafContents<V>(c: Ctx<V>, e: Entry<V>)
    requires Sorted(Inorder(Plug(c, Leaf))) && KeysBelow(Before(c), e.key) && KeysAbove(After(c), e.key)
    ensures var t := Fork(Leaf, e, true, Leaf);
            && Sorted(Inorder(Plug(c, t)))
            && Contents(Inorder(Plug(c, t))) == Contents(Inorder(Plug(c, Leaf)))[e.key := e.value]
  {
    var b, a := Before(c), After(c);
    InorderPlug(c, Leaf);
    InorderPlug(c, Fork(Leaf, e, true, Leaf));
    assert Inorder(Plug(c, Leaf)) == b + a;
    assert Inorder(Plug(c, Fork(Leaf, e, true, Leaf))) == b + [e] + a;
    SortedInsert(b, e, a);
    ContentsSplit(b, e, a);
  }

  // ── Walks of removal's steps ────────────────────────────────────────

  lemma PlugUp<V>(c: Ctx<V>, t: Tree<V>)
    requires !c.Top?
    ensures Plug(c, t) == Plug(c.up, Parent(c, t))
  {}

  function Pairs<V>(s: seq<Entry<V>>): seq<(int, V)>
  {
    seq(|s|, i requires 0 <= i < |s| => (s[i].key, s[i].value))
  }

  lemma PairsSnoc<V>(s: seq<Entry<V>>, e: Entry<V>)
    ensures Pairs(s + [e]) == Pairs(s) + [(e.key, e.value)]
  {}

  lemma PairsVisited<V>(s: seq<Entry<V>>, visited: seq<(int, V)>)
    requires Sorted(s) && visited == Pairs(s)
    ensures forall i, j :: 0 <= i < j < |visited| ==> visited[i].0 < visited[j].0
    ensures forall i :: 0 <= i < |visited| ==> visited[i].0 in Contents(s) && Contents(s)[visited[i].0] == visited[i].1
    ensures forall k :: k in Contents(s) ==> exists i :: 0 <= i < |visited| && visited[i].0 == k
  {
    forall i | 0 <= i < |visited| ensures visited[i].0 in Contents(s) && Contents(s)[visited[i].0] == visited[i].1 {
      ContentsAt(s, i);
    }
    forall k | k in Contents(s) ensures exists i :: 0 <= i < |visited| && visited[i].0 == k {
      var i := ContentsIndex(s, k);
      assert visited[i].0 == k;
    }
  }

  /** The focused entry's place in the whole walk. */
  lemma WalkAt<V>(c: Ctx<V>, t: Tree<V>)
    requires t.Fork?
    ensures Inorder(Plug(c, t)) == (Before(c) + Inorder(t.left)) + [t.e] + (Inorder(t.right) + After(c))
  {
    InorderPlug(c, t);
    Reassociate(Before(c), Inorder(t.left), t.e, Inorder(t.right), After(c));
  }

  lemma FocusEntry<V>(nodes: seq<Node<V>>, root: int, c: Ctx<V>, x: int, p: int, t: Tree<V>)
    requires Focused(nodes, root, c, x, p, t) && t.Fork?
    ensures 0 <= x < |nodes| && x == t.e.id && nodes[x].key == t.e.key && nodes[x].value == t.e.value
  {}

  // ── Walks and laws of removal ───────────────────────────────────────

  lemma Laws<V>(t: Tree<V>)
    requires RedBlack(t)
    ensures Balanced(t) && !Red(t) && Sorted(Inorder(t))
  {}

  lemma ValidFrom<V>(nodes: seq<Node<V>>, root: int, t: Tree<V>)
    requires Focused(nodes, root, Top, root, NIL, t) && Balanced(t) && !Red(t) && Sorted(Inorder(t))
    ensures RedBlack(t)
  {}

  lemma MissingKey<V>(m: map<int, V>, key: int)
    requires key !in m
    ensures m - {key} == m
  {}

  lemma SameTrans<V>(a: seq<Node<V>>, b: seq<Node<V>>, c: seq<Node<V>>)
    requires SameEntries(a, b) && (b == c || SameEntries(b, c))
    ensures SameEntries(a, c)
  {}

  lemma EntryStays<V>(a: seq<Node<V>>, b: seq<Node<V>>, z: int)
    requires SameEntries(a, b) && 0 <= z < |a|
    ensures z < |b| && b[z].key == a[z].key && b[z].value == a[z].value
  {}

  lemma ChildSlots<V>(nodes: seq<Node<V>>, root: int, c: Ctx<V>, z: int, p: int, t: Tree<V>)
    requires Focused(nodes, root, c, z, p, t) && t.Fork?
    ensures 0 <= z < |nodes|
    ensures nodes[z].left == NIL <==> t.left.Leaf?
    ensures nodes[z].right == NIL <==> t.right.Leaf?
  {
    FocusDown(nodes, root, c, z, p, t);
    RootTest(nodes, root, LeftOf(t.e, t.red, t.right, c), nodes[z].left, z, t.left);
    RootTest(nodes, root, RightOf(t.left, t.e, t.red, c), nodes[z].right, z, t.right);
  }

  /** The successor's entry follows z's in the walk. */
  lemma SuccessorWalk<V>(cz: Ctx<V>, tz: Tree<V>, c: Ctx<V>, t: Tree<V>)
    requires tz.Fork? && t.Fork? && t.left.Leaf? && Plug(c, t) == Plug(cz, tz) && Sorted(Inorder(Plug(c, t)))
    requires Before(c) + Inorder(t.left) == Before(cz) + Inorder(tz.left) + [tz.e]
    ensures t.e.key != tz.e.key && Before(c) + Inorder(t.left) == Before(cz) + Inorder(tz.left) + [tz.e]
    ensures Inorder(Plug(c, t)) == Before(cz) + Inorder(tz.left) + [tz.e] + [t.e] + (Inorder(t.right) + After(c))
  {
    hide Inorder, Plug, Before, After;
    WalkAt(c, t);
    NextKey(Before(cz) + Inorder(tz.left), tz.e, t.e, Inorder(t.right) + After(c));
  }

  lemma NextKey<V>(b: seq<Entry<V>>, e: Entry<V>, f: Entry<V>, a: seq<Entry<V>>)
    requires Sorted((b + [e]) + [f] + a)
    ensures e.key != f.key
  {
    var s := (b + [e]) + [f] + a;
    assert s[|b|] == e && s[|b| + 1] == f;
  }

  lemma SpliceWalk<V>(c: Ctx<V>, t: Tree<V>, u: Tree<V>)
    requires t.Fork? && (t.left.Leaf? || t.right.Leaf?) && u == if t.left.Fork? then t.left else t.right
    ensures Inorder(Plug(c, t)) == (Before(c) + Inorder(t.left)) + [t.e] + (Inorder(t.right) + After(c))
    ensures Inorder(Plug(c, u)) == (Before(c) + Inorder(t.left)) + (Inorder(t.right) + After(c))
  {
    WalkAt(c, t);
    hide Inorder, Plug, Before, After;
    InorderPlug(c, u);
    InorderEmpty(t.left);
    InorderEmpty(t.right);
    OneSide(Before(c), Inorder(t.left), Inorder(t.right), After(c));
  }

  lemma OneSide<T>(b: seq<T>, l: seq<T>, r: seq<T>, a: seq<T>)
    ensures r == [] ==> (b + l) + (r + a) == b + l + a
    ensures l == [] ==> (b + l) + (r + a) == b + r + a
  {}

  /** The slots of a tree are those of its walk. */
  lemma {:induction false} IdsWalk<V>(t: Tree<V>, id: nat)
    ensures id in Ids(t) <==> exists i :: 0 <= i < |Inorder(t)| && Inorder(t)[i].id == id
    decreases t
  {
    if t.Fork? {
      IdsWalk(t.left, id);
      IdsWalk(t.right, id);
      var l, s := Inorder(t.left), Inorder(t);
      if id in Ids(t.left) {
        var i :| 0 <= i < |l| && l[i].id == id;
        assert s[i].id == id;
      } else if id == t.e.id {
        assert s[|l|].id == id;
      } else if id in Ids(t.right) {
        var i :| 0 <= i < |Inorder(t.right)| && Inorder(t.right)[i].id == id;
        assert s[|l| + 1 + i].id == id;
      } else {
        forall i | 0 <= i < |s| ensures s[i].id != id {
          if i < |l| { assert s[i] == l[i]; } else if i > |l| { assert s[i] == Inorder(t.right)[i - |l| - 1]; }
        }
      }
    }
  }

  /** Trees with one walk have the same slots. */
  lemma WalkSame<V>(t: Tree<V>, u: Tree<V>)
    requires Inorder(t) == Inorder(u)
    ensures Ids(t) == Ids(u)
  {
    forall id: nat ensures id in Ids(t) <==> id in Ids(u) {
      IdsWalk(t, id);
      IdsWalk(u, id);
    }
  }

  /** z is still in the tree after the fixup. */
  lemma WalkHolds<V>(whole: Tree<V>, e: Entry<V>, b: seq<Entry<V>>, a: seq<Entry<V>>)
    requires Inorder(whole) == (b + [e]) + a
    ensures e.id in Ids(whole)
  {
    assert Inorder(whole)[|b|] == e;
    IdsWalk(whole, e.id);
  }

  lemma SortedInjective<V>(s: seq<Entry<V>>, i: nat, j: nat)
    requires Sorted(s) && i < |s| && j < |s| && s[i].key == s[j].key
    ensures i == j
  {}

  /** A sorted walk splits at an entry in one way only. */
  lemma SplitUnique<V>(b: seq<Entry<V>>, a: seq<Entry<V>>, b': seq<Entry<V>>, a': seq<Entry<V>>, e: Entry<V>)
    requires Sorted(b + [e] + a) && b + [e] + a == b' + [e] + a'
    ensures b == b' && a == a'
  {
    var s := b + [e] + a;
    assert s[|b|] == e && s[|b'|] == e;
    SortedInjective(s, |b|, |b'|);
    assert b == s[..|b|] && b' == s[..|b'|] && a == s[|b| + 1..] && a' == s[|b'| + 1..];
  }

  lemma RemovedLaws<V>(whole0: Tree<V>, whole: Tree<V>, b: seq<Entry<V>>, e: Entry<V>, a: seq<Entry<V>>)
    requires Sorted(Inorder(whole0)) && Inorder(whole0) == b + [e] + a && Inorder(whole) == b + a
    ensures Sorted(Inorder(whole)) && Contents(Inorder(whole)) == Contents(Inorder(whole0)) - {e.key}
  {
    hide Contents, Inorder, Sorted;
    ContentsSplit(b, e, a);
  }

  lemma TransplantLaws<V>(whole: Tree<V>, b: seq<Entry<V>>, f: Entry<V>, a: seq<Entry<V>>, c: Ctx<V>, t: Tree<V>)
    requires t.Fork? && Plug(c, t) == whole && Balanced(whole) && !Red(whole)
    requires Sorted(b + [t.e] + [f] + a) && Inorder(whole) == (b + [t.e]) + a
    ensures var u := Plug(c, t.(e := f));
            && Balanced(u) && !Red(u) && Sorted(Inorder(u))
            && Contents(Inorder(u)) == Contents(b + [t.e] + [f] + a) - {t.e.key}
  {
    hide Contents, Sorted, Inorder, Plug;
    PlugBalanced(c, t);
    PlugBalanced(c, t.(e := f));
    PlugRoot(c, t);
    PlugRoot(c, t.(e := f));
    WalkAt(c, t);
    WalkAt(c, t.(e := f));
    ReplacedWalk(b, t.e, f, a, Before(c) + Inorder(t.left), Inorder(t.right) + After(c));
  }

  lemma ReplacedWalk<V>(b: seq<Entry<V>>, e: Entry<V>, f: Entry<V>, a: seq<Entry<V>>, b': seq<Entry<V>>,
                        a': seq<Entry<V>>)
    requires Sorted(b + [e] + [f] + a) && (b + [e]) + a == b' + [e] + a'
    ensures Sorted(b' + [f] + a') && Contents(b' + [f] + a') == Contents(b + [e] + [f] + a) - {e.key}
  {
    hide Contents, Sorted;
    ContentsSplit(b + [e], f, a);
    SplitUnique(b, a, b', a', e);
    FirstRemoved(b, e, f, a);
  }

  lemma FirstRemoved<V>(b: seq<Entry<V>>, e: Entry<V>, f: Entry<V>, a: seq<Entry<V>>)
    requires Sorted(b + [e] + [f] + a)
    ensures Sorted(b + [f] + a) && Contents(b + [f] + a) == Contents(b + [e] + [f] + a) - {e.key}
  {
    hide Contents, Sorted;
    assert b + [e] + [f] + a == b + [e] + ([f] + a);
    ContentsSplit(b, e, [f] + a);
    assert b + [f] + a == b + ([f] + a);
  }

  /** The successor's climb: everything up to t0's entry is in or before t. */
  ghost predicate Climbing<V>(c: Ctx<V>, t: Tree<V>, c0: Ctx<V>, t0: Tree<V>)
    requires t0.Fork?
  {
    After(c) == After(c0) && Before(c) + Inorder(t) == Before(c0) + Inorder(t0.left) + [t0.e]
  }

  lemma ClimbStart<V>(c: Ctx<V>, t: Tree<V>)
    requires t.Fork? && t.right.Leaf?
    ensures Climbing(c, t, c, t)
  {
    assert Before(c) + (Inorder(t.left) + [t.e] + []) == Before(c) + Inorder(t.left) + [t.e];
  }

  lemma ClimbUp<V>(c: Ctx<V>, t: Tree<V>, c0: Ctx<V>, t0: Tree<V>)
    requires t0.Fork? && Climbing(c, t, c0, t0) && c.RightOf?
    ensures Climbing(c.up, Parent(c, t), c0, t0)
  {
    assert Before(c.up) + (Inorder(c.left) + [c.e] + Inorder(t)) == Before(c) + Inorder(t);
  }

  lemma ClimbEnd<V>(c: Ctx<V>, t: Tree<V>, c0: Ctx<V>, t0: Tree<V>)
    requires t0.Fork? && t0.right.Leaf? && Climbing(c, t, c0, t0)
    ensures c.Top? ==> Inorder(t0.right) + After(c0) == []
    ensures c.LeftOf? ==>
              && Inorder(t0.right) + After(c0) != []
              && Before(c.up) + Inorder(Parent(c, t).left) == Before(c0) + Inorder(t0.left) + [t0.e]
  {
    if c.LeftOf? { assert After(c)[0] == c.e; }
  }

  lemma MinimumWalk<V>(c0: Ctx<V>, t0: Tree<V>, t: Tree<V>)
    requires t0.Fork? && t.Fork? && t.left.Leaf? && Inorder(t0.right) != []
    ensures Inorder(t0.right) + After(c0) != []
    ensures Before(RightOf(t0.left, t0.e, t0.red, c0)) + Inorder(t.left) == Before(c0) + Inorder(t0.left) + [t0.e]
  {}

  lemma PlugDown<V>(c: Ctx<V>, t: Tree<V>)
    requires t.Fork?
    ensures Plug(c, t) == Plug(RightOf(t.left, t.e, t.red, c), t.right) == Plug(LeftOf(t.e, t.red, t.right, c), t.left)
  {}

  lemma InorderEmpty<V>(t: Tree<V>)
    ensures t.Leaf? <==> Inorder(t) == []
  {}

  lemma PlugTop<V>(t: Tree<V>)
    ensures Plug(Top, t) == t
  {}

  lemma PaintedWalk<V>(c: Ctx<V>, a: bool, b: bool, t: Tree<V>)
    requires !c.Top? && Sibling(c).Fork?
    ensures Inorder(Parent(PaintedAround(c, a, b), t)) == Inorder(Parent(c, t))
  {}

  lemma LastWalk<V>(c: Ctx<V>, t: Tree<V>)
    requires !c.Top? && Sibling(c).Fork?
    ensures Inorder(LastColours(c, t)) == Inorder(Parent(c, t))
  {
    BlackenedInorder(Sibling(c).left);
    BlackenedInorder(Sibling(c).right);
    var u := LastColours(c, t);
    if c.LeftOf? { assert Inorder(u.right) == Inorder(c.right); } else { assert Inorder(u.left) == Inorder(c.left); }
  }

  lemma BlackenedInorder<V>(t: Tree<V>)
    ensures Inorder(Blackened(t)) == Inorder(t)
  {}

  lemma BlackenedWalk<V>(c: Ctx<V>, t: Tree<V>)
    ensures Inorder(Plug(c, Blackened(t))) == Inorder(Plug(c, t))
  {
    BlackenedInorder(t);
    SameWalk(c, Blackened(t), t);
  }

  lemma InnerWalk<V>(w: Tree<V>)
    requires w.Fork?
    ensures w.left.Fork? ==> Inorder(Fork(w.left.(red := false), w.e, true, w.right)) == Inorder(w)
    ensures w.right.Fork? ==> Inorder(Fork(w.left, w.e, true, w.right.(red := false))) == Inorder(w)
  {
    BlackenedInorder(w.left);
    BlackenedInorder(w.right);
  }

  /** Replacing the sibling by a tree with the same walk. */
  lemma SiblingWalkSame<V>(c: Ctx<V>, s: Tree<V>, t: Tree<V>)
    requires !c.Top? && Inorder(s) == Inorder(Sibling(c))
    ensures c.LeftOf? ==> Inorder(Plug(c.(right := s), t)) == Inorder(Plug(c, t))
    ensures c.RightOf? ==> Inorder(Plug(c.(left := s), t)) == Inorder(Plug(c, t))
  {
    var c' := if c.LeftOf? then c.(right := s) else c.(left := s);
    assert Inorder(Parent(c', t)) == Inorder(Parent(c, t));
    SameWalk(c.up, Parent(c', t), Parent(c, t));
  }
}
