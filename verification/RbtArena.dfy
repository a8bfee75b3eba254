/** How an arena of index-linked nodes represents a tree in its context. */
module RbtArena {
  import opened RedBlackTree

  datatype Node<V> = Node(key: int, value: V, left: int, right: int, parent: int, red: bool)

  function RootId<V>(t: Tree<V>): int { if t.Leaf? then NIL else t.e.id }

  /** Slot j holds entry e with colour red. */
  ghost predicate Holds<V>(nodes: seq<Node<V>>, j: int, e: Entry<V>, red: bool)
  {
    0 <= j < |nodes| && j == e.id && nodes[j].key == e.key && nodes[j].value == e.value && nodes[j].red == red
  }

  /** Index i is the root of t, whose parent link is p. */
  ghost predicate Linked<V>(nodes: seq<Node<V>>, i: int, p: int, t: Tree<V>)
    decreases t
  {
    match t
    case Leaf => i == NIL
    case Fork(l, e, red, r) =>
      && Holds(nodes, i, e, red) && nodes[i].parent == p
      && Linked(nodes, nodes[i].left, i, l) && Linked(nodes, nodes[i].right, i, r)
  }

  /** The context c hangs from root, and its hole holds i under p. */
  ghost predicate LinkedCtx<V>(nodes: seq<Node<V>>, root: int, c: Ctx<V>, i: int, p: int)
    decreases c
  {
    match c
    case Top => root == i && p == NIL
    case LeftOf(e, red, r, up) =>
      && Holds(nodes, p, e, red) && nodes[p].left == i
      && Linked(nodes, nodes[p].right, p, r) && LinkedCtx(nodes, root, up, p, nodes[p].parent)
    case RightOf(l, e, red, up) =>
      && Holds(nodes, p, e, red) && nodes[p].right == i
      && Linked(nodes, nodes[p].left, p, l) && LinkedCtx(nodes, root, up, p, nodes[p].parent)
  }

  /** The arena represents t at index i in the hole of c. */
  ghost predicate Focused<V>(nodes: seq<Node<V>>, root: int, c: Ctx<V>, i: int, p: int, t: Tree<V>)
  {
    Apart(c, t) && Linked(nodes, i, p, t) && LinkedCtx(nodes, root, c, i, p)
  }

  ghost predicate SameOn<V>(nodes: seq<Node<V>>, nodes': seq<Node<V>>, ids: set<nat>)
  {
    |nodes| <= |nodes'| && forall j :: j in ids && j < |nodes| ==> nodes'[j] == nodes[j]
  }

  /** Keys and values stay in their slots. */
  ghost predicate SameEntries<V>(nodes: seq<Node<V>>, nodes': seq<Node<V>>)
  {
    |nodes'| == |nodes| && forall j :: 0 <= j < |nodes| ==>
      nodes'[j].key == nodes[j].key && nodes'[j].value == nodes[j].value
  }

  // ── Frames ────────────────────────────────────────────────────────

  lemma {:induction false} LinkedIds<V>(nodes: seq<Node<V>>, i: int, p: int, t: Tree<V>)
    requires Linked(nodes, i, p, t)
    ensures i == RootId(t) && forall j :: j in Ids(t) ==> j < |nodes|
    decreases t
  {
    if t.Fork? {
      LinkedIds(nodes, nodes[i].left, i, t.left);
      LinkedIds(nodes, nodes[i].right, i, t.right);
    }
  }

  lemma {:induction false} LinkedFrame<V>(nodes: seq<Node<V>>, nodes': seq<Node<V>>, i: int, p: int, t: Tree<V>)
    requires Linked(nodes, i, p, t) && SameOn(nodes, nodes', Ids(t))
    ensures Linked(nodes', i, p, t)
    decreases t
  {
    if t.Fork? {
      LinkedFrame(nodes, nodes', nodes[i].left, i, t.left);
      LinkedFrame(nodes, nodes', nodes[i].right, i, t.right);
    }
  }

  /** Moving a subtree under another parent changes only its root's parent link. */
  lemma LinkedMove<V>(nodes: seq<Node<V>>, nodes': seq<Node<V>>, i: int, p: int, p': int, t: Tree<V>)
    requires Linked(nodes, i, p, t) && Distinct(t)
    requires SameOn(nodes, nodes', Ids(t) - if t.Fork? then {t.e.id} else {})
    requires t.Fork? ==> i < |nodes'| && nodes'[i] == nodes[i].(parent := p')
    ensures Linked(nodes', i, p', t)
  {
    if t.Fork? {
      LinkedFrame(nodes, nodes', nodes[i].left, i, t.left);
      LinkedFrame(nodes, nodes', nodes[i].right, i, t.right);
    }
  }

  lemma {:induction false} CtxFrame<V>(nodes: seq<Node<V>>, nodes': seq<Node<V>>, root: int, c: Ctx<V>, i: int, p: int)
    requires LinkedCtx(nodes, root, c, i, p) && SameOn(nodes, nodes', CtxIds(c))
    ensures LinkedCtx(nodes', root, c, i, p)
    decreases c
  {
    match c
    case Top =>
    case LeftOf(e, red, r, up) =>
      LinkedFrame(nodes, nodes', nodes[p].right, p, r);
      CtxFrame(nodes, nodes', root, up, p, nodes[p].parent);
    case RightOf(l, e, red, up) =>
      LinkedFrame(nodes, nodes', nodes[p].left, p, l);
      CtxFrame(nodes, nodes', root, up, p, nodes[p].parent);
  }

  lemma {:induction false} CtxLinks<V>(nodes: seq<Node<V>>, root: int, c: Ctx<V>, i: int, p: int)
    requires LinkedCtx(nodes, root, c, i, p)
    ensures c.Top? <==> p == NIL
    ensures !c.Top? ==> p == c.e.id && p in CtxIds(c)
    ensures forall j :: j in CtxIds(c) ==> j < |nodes|
    decreases c
  {
    match c
    case Top =>
    case LeftOf(e, red, r, up) =>
      LinkedIds(nodes, nodes[p].right, p, r);
      CtxLinks(nodes, root, up, p, nodes[p].parent);
    case RightOf(l, e, red, up) =>
      LinkedIds(nodes, nodes[p].left, p, l);
      CtxLinks(nodes, root, up, p, nodes[p].parent);
  }

  /** The arena after the hole's parent (or the root) is pointed at j. */
  function Relinked<V>(nodes: seq<Node<V>>, c: Ctx<V>, p: int, j: int): seq<Node<V>>
    requires !c.Top? ==> 0 <= p < |nodes|
  {
    match c
    case Top => nodes
    case LeftOf(_, _, _, _) => nodes[p := nodes[p].(left := j)]
    case RightOf(_, _, _, _) => nodes[p := nodes[p].(right := j)]
  }

  /** Putting j in the hole: only the link down from p (or the root) changes. */
  lemma CtxRelink<V>(nodes: seq<Node<V>>, root: int, root': int, c: Ctx<V>, i: int, p: int, j: int)
    requires LinkedCtx(nodes, root, c, i, p) && CtxDistinct(c)
    requires root' == if c.Top? then j else root
    ensures !c.Top? ==> 0 <= p < |nodes|
    ensures LinkedCtx(Relinked(nodes, c, p, j), root', c, j, p)
  {
    var nodes' := Relinked(nodes, c, p, j);
    match c
    case Top =>
    case LeftOf(e, red, r, up) =>
      LinkedFrame(nodes, nodes', nodes[p].right, p, r);
      CtxFrame(nodes, nodes', root, up, p, nodes[p].parent);
    case RightOf(l, e, red, up) =>
      LinkedFrame(nodes, nodes', nodes[p].left, p, l);
      CtxFrame(nodes, nodes', root, up, p, nodes[p].parent);
  }

  /** The test `i == nodes[p].left` tells which side of p the hole is on. */
  lemma HoleSide<V>(nodes: seq<Node<V>>, root: int, c: Ctx<V>, i: int, p: int, t: Tree<V>)
    requires Focused(nodes, root, c, i, p, t) && !c.Top? && t.Fork?
    ensures 0 <= p < |nodes|
    ensures i == nodes[p].left <==> c.LeftOf?
    ensures i == nodes[p].right <==> c.RightOf?
  {
    LinkedIds(nodes, i, p, t);
    if c.LeftOf? { LinkedIds(nodes, nodes[p].right, p, c.right); } else { LinkedIds(nodes, nodes[p].left, p, c.left); }
  }

  /** The slot on the other side of the hole's parent. */
  function SiblingSlot<V>(nodes: seq<Node<V>>, c: Ctx<V>, p: int): int
    requires 0 <= p < |nodes|
  {
    if c.LeftOf? then nodes[p].right else nodes[p].left
  }

  lemma {:induction false} RootInCtx<V>(nodes: seq<Node<V>>, root: int, c: Ctx<V>, i: int, p: int)
    requires LinkedCtx(nodes, root, c, i, p) && !c.Top?
    ensures root in CtxIds(c)
    decreases c
  {
    if !c.up.Top? { RootInCtx(nodes, root, c.up, p, nodes[p].parent); }
  }

  /** What the links and colours around the focus say. */
  lemma Around<V>(nodes: seq<Node<V>>, root: int, c: Ctx<V>, x: int, p: int, t: Tree<V>)
    requires Focused(nodes, root, c, x, p, t) && t.Fork?
    ensures 0 <= x < |nodes| && p == nodes[x].parent && nodes[x].red == t.red && 0 <= root < |nodes|
    ensures c.Top? <==> p == NIL
    ensures c.Top? <==> x == root
    ensures !c.Top? ==>
              && 0 <= p < |nodes| && nodes[p].red == c.red
              && (x == nodes[p].left <==> c.LeftOf?) && (x == nodes[p].right <==> c.RightOf?)
              && var s := SiblingSlot(nodes, c, p);
                 -1 <= s < |nodes| && (s == NIL <==> Sibling(c).Leaf?) && (s != NIL ==> nodes[s].red == Sibling(c).red)
  {
    CtxLinks(nodes, root, c, x, p);
    if !c.Top? {
      RootInCtx(nodes, root, c, x, p);
      HoleSide(nodes, root, c, x, p, t);
      LinkedIds(nodes, SiblingSlot(nodes, c, p), p, Sibling(c));
    }
  }

  /** The same for a focus that may be empty, with a sibling. */
  lemma AroundHole<V>(nodes: seq<Node<V>>, root: int, c: Ctx<V>, x: int, p: int, t: Tree<V>)
    requires Focused(nodes, root, c, x, p, t) && !c.Top? && Sibling(c).Fork?
    ensures x == RootId(t) && p == c.e.id && 0 <= p < |nodes| && nodes[p].red == c.red
    ensures x == nodes[p].left <==> c.LeftOf?
    ensures x == if c.LeftOf? then nodes[p].left else nodes[p].right
    ensures var w, s := SiblingSlot(nodes, c, p), Sibling(c);
            && 0 <= w < |nodes| && w == s.e.id && nodes[w].red == s.red && Linked(nodes, w, p, s)
            && var l, r := nodes[w].left, nodes[w].right;
               && l == RootId(s.left) && -1 <= l < |nodes| && (l != NIL ==> nodes[l].red == s.left.red)
               && r == RootId(s.right) && -1 <= r < |nodes| && (r != NIL ==> nodes[r].red == s.right.red)
  {
    LinkedIds(nodes, x, p, t);
    var w, s := SiblingSlot(nodes, c, p), Sibling(c);
    LinkedIds(nodes, w, p, s);
    LinkedIds(nodes, nodes[w].left, w, s.left);
    LinkedIds(nodes, nodes[w].right, w, s.right);
  }

  lemma RootTest<V>(nodes: seq<Node<V>>, root: int, c: Ctx<V>, x: int, p: int, t: Tree<V>)
    requires Focused(nodes, root, c, x, p, t)
    ensures x == root <==> c.Top?
    ensures -1 <= x < |nodes| && (x == NIL <==> t.Leaf?) && (x != NIL ==> nodes[x].red == t.red && nodes[x].parent == p)
    ensures c.Top? ==> p == NIL
  {
    LinkedIds(nodes, x, p, t);
    if !c.Top? { RootInCtx(nodes, root, c, x, p); }
  }

  /** Moving the focus along the tree's own links. */
  lemma FocusDown<V>(nodes: seq<Node<V>>, root: int, c: Ctx<V>, i: int, p: int, t: Tree<V>)
    requires Focused(nodes, root, c, i, p, t) && t.Fork?
    ensures Focused(nodes, root, LeftOf(t.e, t.red, t.right, c), nodes[i].left, i, t.left)
    ensures Focused(nodes, root, RightOf(t.left, t.e, t.red, c), nodes[i].right, i, t.right)
  {}

  /** The subtree of which the hole's subtree t is a child. */
  function Parent<V>(c: Ctx<V>, t: Tree<V>): Tree<V>
    requires !c.Top?
  {
    if c.LeftOf? then Fork(t, c.e, c.red, c.right) else Fork(c.left, c.e, c.red, t)
  }

  lemma FocusUp<V>(nodes: seq<Node<V>>, root: int, c: Ctx<V>, i: int, p: int, t: Tree<V>)
    requires Focused(nodes, root, c, i, p, t) && !c.Top?
    ensures 0 <= p < |nodes| && Focused(nodes, root, c.up, p, nodes[p].parent, Parent(c, t))
  {}

  /** A whole tree seen at any of its slots. */
  lemma {:induction false} FocusPlug<V>(nodes: seq<Node<V>>, root: int, c: Ctx<V>, t: Tree<V>) returns (i: int, p: int)
    requires Focused(nodes, root, Top, root, NIL, Plug(c, t))
    ensures Focused(nodes, root, c, i, p, t)
    decreases c
  {
    if c.Top? {
      i, p := root, NIL;
    } else {
      var j, q := FocusPlug(nodes, root, c.up, Parent(c, t));
      FocusDown(nodes, root, c.up, j, q, Parent(c, t));
      i, p := if c.LeftOf? then nodes[j].left else nodes[j].right, j;
    }
  }

  lemma {:induction false} FocusWhole<V>(nodes: seq<Node<V>>, root: int, c: Ctx<V>, i: int, p: int, t: Tree<V>)
    requires Focused(nodes, root, c, i, p, t)
    ensures Focused(nodes, root, Top, root, NIL, Plug(c, t))
    decreases c
  {
    if !c.Top? {
      FocusUp(nodes, root, c, i, p, t);
      FocusWhole(nodes, root, c.up, p, nodes[p].parent, Parent(c, t));
    }
  }

  // ── Recolouring ───────────────────────────────────────────────────

  function Painted<V>(nodes: seq<Node<V>>, i: int, red: bool): seq<Node<V>>
    requires 0 <= i < |nodes|
  {
    nodes[i := nodes[i].(red := red)]
  }

  lemma PaintFocus<V>(nodes: seq<Node<V>>, root: int, c: Ctx<V>, i: int, p: int, t: Tree<V>, red: bool)
    requires Focused(nodes, root, c, i, p, t) && t.Fork?
    ensures Focused(Painted(nodes, i, red), root, c, i, p, t.(red := red))
  {
    var nodes' := Painted(nodes, i, red);
    LinkedFrame(nodes, nodes', nodes[i].left, i, t.left);
    LinkedFrame(nodes, nodes', nodes[i].right, i, t.right);
    CtxFrame(nodes, nodes', root, c, i, p);
  }

  lemma PaintParent<V>(nodes: seq<Node<V>>, root: int, c: Ctx<V>, i: int, p: int, t: Tree<V>, red: bool)
    requires Focused(nodes, root, c, i, p, t) && !c.Top?
    ensures 0 <= p < |nodes| && Focused(Painted(nodes, p, red), root, c.(red := red), i, p, t)
  {
    FocusUp(nodes, root, c, i, p, t);
    PaintFocus(nodes, root, c.up, p, nodes[p].parent, Parent(c, t), red);
    var nodes' := Painted(nodes, p, red);
    FocusDown(nodes', root, c.up, p, nodes[p].parent, Parent(c, t).(red := red));
  }

  lemma PaintLeft<V>(nodes: seq<Node<V>>, root: int, c: Ctx<V>, i: int, p: int, t: Tree<V>, red: bool)
    requires Focused(nodes, root, c, i, p, t) && t.Fork? && t.left.Fork?
    ensures 0 <= nodes[i].left < |nodes|
    ensures Focused(Painted(nodes, nodes[i].left, red), root, c, i, p, t.(left := t.left.(red := red)))
  {
    FocusDown(nodes, root, c, i, p, t);
    var c' := LeftOf(t.e, t.red, t.right, c);
    PaintFocus(nodes, root, c', nodes[i].left, i, t.left, red);
    FocusUp(Painted(nodes, nodes[i].left, red), root, c', nodes[i].left, i, t.left.(red := red));
  }

  lemma PaintRight<V>(nodes: seq<Node<V>>, root: int, c: Ctx<V>, i: int, p: int, t: Tree<V>, red: bool)
    requires Focused(nodes, root, c, i, p, t) && t.Fork? && t.right.Fork?
    ensures 0 <= nodes[i].right < |nodes|
    ensures Focused(Painted(nodes, nodes[i].right, red), root, c, i, p, t.(right := t.right.(red := red)))
  {
    FocusDown(nodes, root, c, i, p, t);
    var c' := RightOf(t.left, t.e, t.red, c);
    PaintFocus(nodes, root, c', nodes[i].right, i, t.right, red);
    FocusUp(Painted(nodes, nodes[i].right, red), root, c', nodes[i].right, i, t.right.(red := red));
  }

  // ── Rotations ─────────────────────────────────────────────────────

  function RotatedLeft<V>(t: Tree<V>): Tree<V>
    requires t.Fork? && t.right.Fork?
  {
    Fork(Fork(t.left, t.e, t.red, t.right.left), t.right.e, t.right.red, t.right.right)
  }

  function RotatedRight<V>(t: Tree<V>): Tree<V>
    requires t.Fork? && t.left.Fork?
  {
    Fork(t.left.left, t.left.e, t.left.red, Fork(t.left.right, t.e, t.red, t.right))
  }

  /** Rotations keep the in-order walk. */
  lemma RotateLeftInorder<V>(t: Tree<V>)
    requires t.Fork? && t.right.Fork?
    ensures Inorder(RotatedLeft(t)) == Inorder(t)
  {
    var a, b, d := Inorder(t.left), Inorder(t.right.left), Inorder(t.right.right);
    assert Inorder(RotatedLeft(t)) == (a + [t.e] + b) + [t.right.e] + d;
    assert Inorder(t) == a + [t.e] + (b + [t.right.e] + d);
  }

  lemma RotateRightInorder<V>(t: Tree<V>)
    requires t.Fork? && t.left.Fork?
    ensures Inorder(RotatedRight(t)) == Inorder(t)
  {
    RotateLeftInorder(RotatedRight(t));
  }

  lemma RotateLeftApart<V>(t: Tree<V>)
    requires t.Fork? && t.right.Fork? && Distinct(t)
    ensures Distinct(RotatedLeft(t)) && Ids(RotatedLeft(t)) == Ids(t)
  {
    var u := RotatedLeft(t);
    assert Distinct(t.right) && Ids(t.right) == Ids(t.right.left) + {t.right.e.id} + Ids(t.right.right);
    assert Distinct(u.left) && Ids(u.left) == Ids(t.left) + {t.e.id} + Ids(t.right.left);
  }

  lemma RotateRightApart<V>(t: Tree<V>)
    requires t.Fork? && t.left.Fork? && Distinct(t)
    ensures Distinct(RotatedRight(t)) && Ids(RotatedRight(t)) == Ids(t)
  {
    var u := RotatedRight(t);
    assert Distinct(t.left) && Ids(t.left) == Ids(t.left.left) + {t.left.e.id} + Ids(t.left.right);
    assert Distinct(u.right) && Ids(u.right) == Ids(t.left.right) + {t.e.id} + Ids(t.right);
  }

  /** The arena after left_rotate at x, its writes in the source's order. */
  function RotateLeftLinks<V>(nodes: seq<Node<V>>, c: Ctx<V>, x: int): seq<Node<V>>
    requires 0 <= x < |nodes| && 0 <= nodes[x].right < |nodes|
    requires -1 <= nodes[nodes[x].right].left < |nodes|
    requires !c.Top? ==> 0 <= nodes[x].parent < |nodes|
  {
    var y := nodes[x].right;
    var yl := nodes[y].left;
    var n1 := nodes[x := nodes[x].(right := yl)];
    var n2 := if yl != NIL then n1[yl := n1[yl].(parent := x)] else n1;
    var n3 := n2[y := n2[y].(parent := nodes[x].parent)];
    var n4 := Relinked(n3, c, nodes[x].parent, y);
    var n5 := n4[y := n4[y].(left := x)];
    n5[x := n5[x].(parent := y)]
  }

  function RotateRightLinks<V>(nodes: seq<Node<V>>, c: Ctx<V>, y: int): seq<Node<V>>
    requires 0 <= y < |nodes| && 0 <= nodes[y].left < |nodes|
    requires -1 <= nodes[nodes[y].left].right < |nodes|
    requires !c.Top? ==> 0 <= nodes[y].parent < |nodes|
  {
    var x := nodes[y].left;
    var xr := nodes[x].right;
    var n1 := nodes[y := nodes[y].(left := xr)];
    var n2 := if xr != NIL then n1[xr := n1[xr].(parent := y)] else n1;
    var n3 := n2[x := n2[x].(parent := nodes[y].parent)];
    var n4 := Relinked(n3, c, nodes[y].parent, x);
    var n5 := n4[x := n4[x].(right := y)];
    n5[y := n5[y].(parent := x)]
  }

  lemma OneSlot<V>(a: seq<Node<V>>, nodes: seq<Node<V>>, j: int, n: Node<V>)
    requires SameEntries(a, nodes) && 0 <= j < |nodes| && n.key == nodes[j].key && n.value == nodes[j].value
    ensures SameEntries(a, nodes[j := n])
  {}

  lemma RotateLeftEntries<V>(nodes: seq<Node<V>>, c: Ctx<V>, x: int)
    requires 0 <= x < |nodes| && 0 <= nodes[x].right < |nodes|
    requires -1 <= nodes[nodes[x].right].left < |nodes|
    requires !c.Top? ==> 0 <= nodes[x].parent < |nodes|
    ensures SameEntries(nodes, RotateLeftLinks(nodes, c, x))
  {
    var y := nodes[x].right;
    var yl, p := nodes[y].left, nodes[x].parent;
    OneSlot(nodes, nodes, x, nodes[x].(right := yl));
    hide SameEntries;
    var n1 := nodes[x := nodes[x].(right := yl)];
    if yl != NIL { OneSlot(nodes, n1, yl, n1[yl].(parent := x)); }
    var n2 := if yl != NIL then n1[yl := n1[yl].(parent := x)] else n1;
    OneSlot(nodes, n2, y, n2[y].(parent := p));
    var n3 := n2[y := n2[y].(parent := p)];
    if !c.Top? { OneSlot(nodes, n3, p, if c.LeftOf? then n3[p].(left := y) else n3[p].(right := y)); }
    var n4 := Relinked(n3, c, p, y);
    OneSlot(nodes, n4, y, n4[y].(left := x));
    var n5 := n4[y := n4[y].(left := x)];
    OneSlot(nodes, n5, x, n5[x].(parent := y));
  }

  lemma RotateRightEntries<V>(nodes: seq<Node<V>>, c: Ctx<V>, y: int)
    requires 0 <= y < |nodes| && 0 <= nodes[y].left < |nodes|
    requires -1 <= nodes[nodes[y].left].right < |nodes|
    requires !c.Top? ==> 0 <= nodes[y].parent < |nodes|
    ensures SameEntries(nodes, RotateRightLinks(nodes, c, y))
  {
    var x := nodes[y].left;
    var xr, p := nodes[x].right, nodes[y].parent;
    OneSlot(nodes, nodes, y, nodes[y].(left := xr));
    hide SameEntries;
    var n1 := nodes[y := nodes[y].(left := xr)];
    if xr != NIL { OneSlot(nodes, n1, xr, n1[xr].(parent := y)); }
    var n2 := if xr != NIL then n1[xr := n1[xr].(parent := y)] else n1;
    OneSlot(nodes, n2, x, n2[x].(parent := p));
    var n3 := n2[x := n2[x].(parent := p)];
    if !c.Top? { OneSlot(nodes, n3, p, if c.LeftOf? then n3[p].(left := x) else n3[p].(right := x)); }
    var n4 := Relinked(n3, c, p, x);
    OneSlot(nodes, n4, x, n4[x].(right := y));
    var n5 := n4[x := n4[x].(right := y)];
    OneSlot(nodes, n5, y, n5[y].(parent := x));
  }

  /** The net effect of rotate_left's writes, slot by slot. */
  lemma RotateLeftEffect<V>(nodes: seq<Node<V>>, c: Ctx<V>, x: int, y: int, yl: int, p: int)
    requires 0 <= x < |nodes| && y == nodes[x].right && 0 <= y < |nodes| && yl == nodes[y].left && -1 <= yl < |nodes|
    requires p == nodes[x].parent && (!c.Top? ==> 0 <= p < |nodes| && p != x && p != y && p != yl)
    requires x != y && yl != x && yl != y
    ensures var nodes' := RotateLeftLinks(nodes, c, x);
            && |nodes'| == |nodes|
            && nodes'[x] == nodes[x].(right := yl, parent := y)
            && nodes'[y] == nodes[y].(left := x, parent := p)
            && (yl != NIL ==> nodes'[yl] == nodes[yl].(parent := x))
            && (forall j :: 0 <= j < |nodes| && j != x && j != y && j != yl ==>
               nodes'[j] == Relinked(nodes, c, p, y)[j])
  {}

  lemma RotateLeftFocus<V>(nodes: seq<Node<V>>, root: int, root': int, c: Ctx<V>, x: int, p: int, t: Tree<V>)
    requires Focused(nodes, root, c, x, p, t) && t.Fork? && t.right.Fork?
    requires root' == if c.Top? then nodes[x].right else root
    ensures 0 <= nodes[x].right < |nodes| && -1 <= nodes[nodes[x].right].left < |nodes|
    ensures p == nodes[x].parent && (!c.Top? ==> 0 <= p < |nodes|)
    ensures Focused(RotateLeftLinks(nodes, c, x), root', c, nodes[x].right, p, RotatedLeft(t))
  {
    var y := nodes[x].right;
    assert Distinct(t.right) && Linked(nodes, y, x, t.right);
    var yl := nodes[y].left;
    LinkedIds(nodes, yl, y, t.right.left);
    LinkedIds(nodes, x, p, t);
    CtxLinks(nodes, root, c, x, p);
    RotateLeftApart(t);
    RotateLeftEffect(nodes, c, x, y, yl, p);
    CtxRelink(nodes, root, root', c, x, p, y);
    RotateLeftLinked(nodes, RotateLeftLinks(nodes, c, x), root', c, x, y, yl, p, t);
  }

  lemma RotateLeftLinked<V>(nodes: seq<Node<V>>, nodes': seq<Node<V>>, root': int, c: Ctx<V>, x: int, y: int, yl: int,
                            p: int, t: Tree<V>)
    requires t.Fork? && t.right.Fork? && Apart(c, t) && Linked(nodes, x, p, t)
    requires y == nodes[x].right && 0 <= y < |nodes| && yl == nodes[y].left && yl == RootId(t.right.left)
    requires !c.Top? ==> 0 <= p < |nodes| && p in CtxIds(c)
    requires |nodes'| == |nodes|
    requires nodes'[x] == nodes[x].(right := yl, parent := y)
    requires nodes'[y] == nodes[y].(left := x, parent := p)
    requires yl != NIL ==> 0 <= yl < |nodes| && nodes'[yl] == nodes[yl].(parent := x)
    requires forall j :: 0 <= j < |nodes| && j != x && j != y && j != yl ==> nodes'[j] == Relinked(nodes, c, p, y)[j]
    requires LinkedCtx(Relinked(nodes, c, p, y), root', c, y, p)
    ensures Linked(nodes', y, p, RotatedLeft(t)) && LinkedCtx(nodes', root', c, y, p)
  {
    assert Distinct(t.right) && Linked(nodes, y, x, t.right) && y in Ids(t.right);
    assert yl != NIL ==> yl in Ids(t.right.left) && yl in Ids(t.right);
    assert SameOn(nodes, nodes', Ids(t.left));
    assert SameOn(nodes, nodes', Ids(t.right.right));
    assert SameOn(nodes, nodes', Ids(t.right.left) - if yl == NIL then {} else {yl});
    assert SameOn(Relinked(nodes, c, p, y), nodes', CtxIds(c));
    hide SameOn;
    LinkedFrame(nodes, nodes', nodes[x].left, x, t.left);
    LinkedMove(nodes, nodes', yl, y, x, t.right.left);
    LinkedFrame(nodes, nodes', nodes[y].right, y, t.right.right);
    CtxFrame(Relinked(nodes, c, p, y), nodes', root', c, y, p);
    assert Linked(nodes', x, y, RotatedLeft(t).left);
  }

  /** The net effect of rotate_right's writes, slot by slot. */
  lemma RotateRightEffect<V>(nodes: seq<Node<V>>, c: Ctx<V>, y: int, x: int, xr: int, p: int)
    requires 0 <= y < |nodes| && x == nodes[y].left && 0 <= x < |nodes| && xr == nodes[x].right && -1 <= xr < |nodes|
    requires p == nodes[y].parent && (!c.Top? ==> 0 <= p < |nodes| && p != y && p != x && p != xr)
    requires y != x && xr != y && xr != x
    ensures var nodes' := RotateRightLinks(nodes, c, y);
            && |nodes'| == |nodes|
            && nodes'[y] == nodes[y].(left := xr, parent := x)
            && nodes'[x] == nodes[x].(right := y, parent := p)
            && (xr != NIL ==> nodes'[xr] == nodes[xr].(parent := y))
            && (forall j :: 0 <= j < |nodes| && j != y && j != x && j != xr ==>
               nodes'[j] == Relinked(nodes, c, p, x)[j])
  {}

  lemma RotateRightFocus<V>(nodes: seq<Node<V>>, root: int, root': int, c: Ctx<V>, y: int, p: int, t: Tree<V>)
    requires Focused(nodes, root, c, y, p, t) && t.Fork? && t.left.Fork?
    requires root' == if c.Top? then nodes[y].left else root
    ensures 0 <= nodes[y].left < |nodes| && -1 <= nodes[nodes[y].left].right < |nodes|
    ensures p == nodes[y].parent && (!c.Top? ==> 0 <= p < |nodes|)
    ensures Focused(RotateRightLinks(nodes, c, y), root', c, nodes[y].left, p, RotatedRight(t))
  {
    var x := nodes[y].left;
    assert Distinct(t.left) && Linked(nodes, x, y, t.left);
    var xr := nodes[x].right;
    LinkedIds(nodes, xr, x, t.left.right);
    LinkedIds(nodes, y, p, t);
    CtxLinks(nodes, root, c, y, p);
    RotateRightApart(t);
    RotateRightEffect(nodes, c, y, x, xr, p);
    CtxRelink(nodes, root, root', c, y, p, x);
    RotateRightLinked(nodes, RotateRightLinks(nodes, c, y), root', c, y, x, xr, p, t);
  }

  lemma RotateRightLinked<V>(nodes: seq<Node<V>>, nodes': seq<Node<V>>, root': int, c: Ctx<V>, y: int, x: int, xr: int,
                             p: int, t: Tree<V>)
    requires t.Fork? && t.left.Fork? && Apart(c, t) && Linked(nodes, y, p, t)
    requires x == nodes[y].left && 0 <= x < |nodes| && xr == nodes[x].right && xr == RootId(t.left.right)
    requires !c.Top? ==> 0 <= p < |nodes| && p in CtxIds(c)
    requires |nodes'| == |nodes|
    requires nodes'[y] == nodes[y].(left := xr, parent := x)
    requires nodes'[x] == nodes[x].(right := y, parent := p)
    requires xr != NIL ==> 0 <= xr < |nodes| && nodes'[xr] == nodes[xr].(parent := y)
    requires forall j :: 0 <= j < |nodes| && j != y && j != x && j != xr ==> nodes'[j] == Relinked(nodes, c, p, x)[j]
    requires LinkedCtx(Relinked(nodes, c, p, x), root', c, x, p)
    ensures Linked(nodes', x, p, RotatedRight(t)) && LinkedCtx(nodes', root', c, x, p)
  {
    assert Distinct(t.left) && Linked(nodes, x, y, t.left) && x in Ids(t.left);
    assert xr != NIL ==> xr in Ids(t.left.right) && xr in Ids(t.left);
    assert SameOn(nodes, nodes', Ids(t.right));
    assert SameOn(nodes, nodes', Ids(t.left.left));
    assert SameOn(nodes, nodes', Ids(t.left.right) - if xr == NIL then {} else {xr});
    assert SameOn(Relinked(nodes, c, p, x), nodes', CtxIds(c));
    hide SameOn;
    LinkedFrame(nodes, nodes', nodes[y].right, y, t.right);
    LinkedMove(nodes, nodes', xr, x, y, t.left.right);
    LinkedFrame(nodes, nodes', nodes[x].left, x, t.left.left);
    CtxFrame(Relinked(nodes, c, p, x), nodes', root', c, x, p);
    assert Linked(nodes', y, x, RotatedRight(t).right);
  }

  // ── Taking a node out ─────────────────────────────────────────────

  /** The arena after y, which has at most the child x, is linked past. */
  function SpliceLinks<V>(nodes: seq<Node<V>>, c: Ctx<V>, p: int, x: int): seq<Node<V>>
    requires -1 <= x < |nodes| && (!c.Top? ==> 0 <= p < |nodes|)
  {
    Relinked(if x != NIL then nodes[x := nodes[x].(parent := p)] else nodes, c, p, x)
  }

  lemma SpliceFocus<V>(nodes: seq<Node<V>>, root: int, root': int, c: Ctx<V>, y: int, p: int, t: Tree<V>, x: int,
                       u: Tree<V>)
    requires Focused(nodes, root, c, y, p, t) && t.Fork?
    requires (t.left.Leaf? && u == t.right && x == nodes[y].right)
        || (t.right.Leaf? && u == t.left && x == nodes[y].left)
    requires root' == if c.Top? then x else root
    ensures -1 <= x < |nodes| && x == RootId(u) && (!c.Top? ==> 0 <= p < |nodes|)
    ensures Focused(SpliceLinks(nodes, c, p, x), root', c, x, p, u)
    ensures 0 <= y < |nodes| && p == nodes[y].parent && SpliceLinks(nodes, c, p, x)[y].red == nodes[y].red
    ensures y !in Ids(Plug(c, u)) && SameEntries(nodes, SpliceLinks(nodes, c, p, x))
  {
    LinkedIds(nodes, y, p, t);
    LinkedIds(nodes, x, y, u);
    CtxLinks(nodes, root, c, y, p);
    PlugIds(c, u);
    var n1 := if x != NIL then nodes[x := nodes[x].(parent := p)] else nodes;
    LinkedMove(nodes, n1, x, y, p, u);
    CtxFrame(nodes, n1, root, c, y, p);
    CtxRelink(n1, root, root', c, y, p, x);
    LinkedFrame(n1, Relinked(n1, c, p, x), x, p, u);
    SpliceEntries(nodes, c, p, x);
    hide Linked, LinkedCtx, SameEntries;
  }

  lemma SpliceEntries<V>(nodes: seq<Node<V>>, c: Ctx<V>, p: int, x: int)
    requires -1 <= x < |nodes| && (!c.Top? ==> 0 <= p < |nodes|)
    ensures SameEntries(nodes, SpliceLinks(nodes, c, p, x))
  {}

  /** The arena after y, outside the tree, takes the place of z. */
  function TransplantLinks<V>(nodes: seq<Node<V>>, c: Ctx<V>, z: int, y: int): seq<Node<V>>
    requires 0 <= z < |nodes| && 0 <= y < |nodes| && y != z && (!c.Top? ==> 0 <= nodes[z].parent < |nodes|)
    requires -1 <= nodes[z].left < |nodes| && -1 <= nodes[z].right < |nodes|
  {
    Relinked(AdoptedLinks(nodes, z, y), c, nodes[z].parent, y)
  }

  /** y has z's links, and z's children have y for a parent. */
  function AdoptedLinks<V>(nodes: seq<Node<V>>, z: int, y: int): (r: seq<Node<V>>)
    requires 0 <= z < |nodes| && 0 <= y < |nodes| && y != z
    requires -1 <= nodes[z].left < |nodes| && -1 <= nodes[z].right < |nodes|
    ensures |r| == |nodes|
  {
    var n := nodes[z];
    var n1 := CopiedLinks(nodes, z, y);
    var n2 := if n.left != NIL then n1[n.left := n1[n.left].(parent := y)] else n1;
    if n.right != NIL then n2[n.right := n2[n.right].(parent := y)] else n2
  }

  /** Above z nothing has changed yet. */
  lemma AdoptedAbove<V>(nodes: seq<Node<V>>, root: int, c: Ctx<V>, z: int, p: int, t: Tree<V>, y: nat)
    requires Focused(nodes, root, c, z, p, t) && t.Fork? && y < |nodes| && y !in Ids(t) && y !in CtxIds(c)
    ensures 0 <= z < |nodes| && y != z && p == nodes[z].parent && (!c.Top? ==> 0 <= p < |nodes|)
    ensures -1 <= nodes[z].left < |nodes| && -1 <= nodes[z].right < |nodes|
    ensures var n3 := AdoptedLinks(nodes, z, y);
            && n3[z].parent == p
            && (!c.Top? ==> n3[p].left == nodes[p].left && n3[p].right == nodes[p].right)
  {
    LinkedIds(nodes, z, p, t);
    LinkedIds(nodes, nodes[z].left, z, t.left);
    LinkedIds(nodes, nodes[z].right, z, t.right);
    CtxLinks(nodes, root, c, z, p);
  }

  /** y copies z's links and colour, one field at a time. */
  function CopiedLinks<V>(nodes: seq<Node<V>>, z: int, y: int): (r: seq<Node<V>>)
    requires 0 <= z < |nodes| && 0 <= y < |nodes| && y != z
    ensures r == nodes[y := nodes[y].(parent := nodes[z].parent, red := nodes[z].red, left := nodes[z].left,
        right := nodes[z].right)]
  {
    var n1 := nodes[y := nodes[y].(parent := nodes[z].parent)];
    var n2 := n1[y := n1[y].(red := n1[z].red)];
    var n3 := n2[y := n2[y].(left := n2[z].left)];
    n3[y := n3[y].(right := n3[z].right)]
  }

  lemma TransplantEntries<V>(nodes: seq<Node<V>>, c: Ctx<V>, z: int, y: int)
    requires 0 <= z < |nodes| && 0 <= y < |nodes| && y != z && (!c.Top? ==> 0 <= nodes[z].parent < |nodes|)
    requires -1 <= nodes[z].left < |nodes| && -1 <= nodes[z].right < |nodes|
    ensures SameEntries(nodes, TransplantLinks(nodes, c, z, y))
  {
    var n, p := nodes[z], nodes[z].parent;
    OneSlot(nodes, nodes, y, nodes[y].(parent := n.parent, red := n.red, left := n.left, right := n.right));
    hide SameEntries;
    var n1 := CopiedLinks(nodes, z, y);
    hide CopiedLinks;
    if n.left != NIL { OneSlot(nodes, n1, n.left, n1[n.left].(parent := y)); }
    var n2 := if n.left != NIL then n1[n.left := n1[n.left].(parent := y)] else n1;
    if n.right != NIL { OneSlot(nodes, n2, n.right, n2[n.right].(parent := y)); }
    var n3 := if n.right != NIL then n2[n.right := n2[n.right].(parent := y)] else n2;
    if !c.Top? { OneSlot(nodes, n3, p, if c.LeftOf? then n3[p].(left := y) else n3[p].(right := y)); }
  }

  lemma TransplantFocus<V>(nodes: seq<Node<V>>, root: int, root': int, c: Ctx<V>, z: int, p: int, t: Tree<V>, y: nat)
    requires Focused(nodes, root, c, z, p, t) && t.Fork?
    requires y < |nodes| && y !in Ids(t) && y !in CtxIds(c)
    requires root' == if c.Top? then y else root
    ensures 0 <= z < |nodes| && y != z && p == nodes[z].parent && (!c.Top? ==> 0 <= p < |nodes|)
    ensures -1 <= nodes[z].left < |nodes| && -1 <= nodes[z].right < |nodes|
    ensures Focused(TransplantLinks(nodes, c, z, y), root', c, y, p, t.(e := Entry(y, nodes[y].key, nodes[y].value)))
    ensures SameEntries(nodes, TransplantLinks(nodes, c, z, y))
  {
    var l, r := nodes[z].left, nodes[z].right;
    LinkedIds(nodes, z, p, t);
    LinkedIds(nodes, l, z, t.left);
    LinkedIds(nodes, r, z, t.right);
    CtxLinks(nodes, root, c, z, p);
    TransplantEntries(nodes, c, z, y);
    TransplantCtx(nodes, root, root', c, z, p, t, y);
    TransplantLinked(nodes, TransplantLinks(nodes, c, z, y), c, z, p, t, y);
    hide Linked, LinkedCtx, Ids, CtxIds, SameEntries, TransplantLinks;
    RenamedApart(c, t, Entry(y, nodes[y].key, nodes[y].value));
  }

  lemma RenamedApart<V>(c: Ctx<V>, t: Tree<V>, e: Entry<V>)
    requires Apart(c, t) && t.Fork? && e.id !in Ids(t) && e.id !in CtxIds(c)
    ensures Apart(c, t.(e := e))
  {}

  lemma TransplantCtx<V>(nodes: seq<Node<V>>, root: int, root': int, c: Ctx<V>, z: int, p: int, t: Tree<V>, y: nat)
    requires Apart(c, t) && t.Fork? && z in Ids(t) && LinkedCtx(nodes, root, c, z, p)
    requires 0 <= z < |nodes| && y != z && y < |nodes| && y !in CtxIds(c) && p == nodes[z].parent
    requires !c.Top? ==> 0 <= p < |nodes|
    requires -1 <= nodes[z].left < |nodes| && (nodes[z].left != NIL ==> nodes[z].left in Ids(t))
    requires -1 <= nodes[z].right < |nodes| && (nodes[z].right != NIL ==> nodes[z].right in Ids(t))
    requires root' == if c.Top? then y else root
    ensures LinkedCtx(TransplantLinks(nodes, c, z, y), root', c, y, p)
  {
    var l, r := nodes[z].left, nodes[z].right;
    var n1 := CopiedLinks(nodes, z, y);
    var n2 := if l != NIL then n1[l := n1[l].(parent := y)] else n1;
    var n3 := if r != NIL then n2[r := n2[r].(parent := y)] else n2;
    assert SameOn(nodes, n3, CtxIds(c));
    hide SameOn, Ids, CtxIds;
    CtxFrame(nodes, n3, root, c, z, p);
    CtxRelink(n3, root, root', c, z, p, y);
  }

  lemma TransplantLinked<V>(nodes: seq<Node<V>>, nodes': seq<Node<V>>, c: Ctx<V>, z: int, p: int, t: Tree<V>, y: nat)
    requires Apart(c, t) && Linked(nodes, z, p, t) && t.Fork? && y < |nodes| && y !in Ids(t) && y !in CtxIds(c)
    requires !c.Top? ==> 0 <= p < |nodes| && p in CtxIds(c)
    requires -1 <= nodes[z].left < |nodes| && -1 <= nodes[z].right < |nodes|
    requires y != z && nodes' == TransplantLinks(nodes, c, z, y) && p == nodes[z].parent
    requires nodes[z].left == RootId(t.left) && nodes[z].right == RootId(t.right)
    ensures Linked(nodes', y, p, t.(e := Entry(y, nodes[y].key, nodes[y].value)))
  {
    var l, r := nodes[z].left, nodes[z].right;
    assert l != NIL ==> l in Ids(t.left);
    assert r != NIL ==> r in Ids(t.right);
    LinkedMove(nodes, nodes', l, z, y, t.left);
    LinkedMove(nodes, nodes', r, z, y, t.right);
  }
}
