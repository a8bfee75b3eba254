/** The loop structure graph: loops by index, each new one after the loops it will hold. */
module HavlakLsg {
  import opened Options

  datatype SimpleLoop = SimpleLoop(basicBlocks: seq<nat>, children: seq<nat>, parent: Option<nat>,
                                   isRoot: bool, nestingLevel: nat, depthLevel: nat)

  function NewLoop(bb: Option<nat>): SimpleLoop {
    SimpleLoop(if bb.Some? then [bb.value] else [], [], None, false, 0, 0)
  }

  /** Loop c may sit inside loop p: p is the artificial root 0, or was made after c. */
  predicate Inside(c: nat, p: nat) { 0 < c && (p == 0 || c < p) }

  /** Parents list their children, every child has a parent, and holding a loop means being made after it. */
  ghost predicate Nested(loops: seq<SimpleLoop>)
    ensures Nested(loops) ==> loops != []
  {
    && loops != []
    && (forall l: nat :: l < |loops| ==> (loops[l].isRoot <==> l == 0))
    && (forall l: nat, p: nat :: HasParent(loops, l, p) ==> Inside(l, p) && HasChild(loops, p, l))
    && (forall p: nat, c: nat :: HasChild(loops, p, c) ==> Inside(c, p) && c < |loops| && loops[c].parent.Some?)
  }

  predicate HasParent(loops: seq<SimpleLoop>, l: nat, p: nat) { l < |loops| && loops[l].parent == Some(p) }

  predicate HasChild(loops: seq<SimpleLoop>, p: nat, c: nat) { p < |loops| && c in loops[p].children }

  function Joined(s: seq<nat>, x: nat): seq<nat> { if x in s then s else s + [x] }

  /** Loop l now has parent p, and p lists it once. */
  function WithParent(loops: seq<SimpleLoop>, l: nat, p: nat): (r: seq<SimpleLoop>)
    requires l < |loops| && p < |loops|
    ensures |r| == |loops|
  {
    var s := loops[l := loops[l].(parent := Some(p))];
    s[p := s[p].(children := Joined(s[p].children, l))]
  }

  function WithNode(loops: seq<SimpleLoop>, l: nat, bb: nat): (r: seq<SimpleLoop>)
    requires l < |loops|
    ensures |r| == |loops|
  {
    loops[l := loops[l].(basicBlocks := Joined(loops[l].basicBlocks, bb))]
  }

  lemma WithParentNested(loops: seq<SimpleLoop>, l: nat, p: nat)
    requires Nested(loops) && l < |loops| && p < |loops| && Inside(l, p)
    ensures Nested(WithParent(loops, l, p))
  {
    var r := WithParent(loops, l, p);
    forall a: nat, b: nat | HasParent(r, a, b) ensures Inside(a, b) && HasChild(r, b, a) {
      if a != l { assert HasParent(loops, a, b) && HasChild(loops, b, a); }
    }
    forall b: nat, a: nat | HasChild(r, b, a) ensures Inside(a, b) && a < |r| && r[a].parent.Some? {
      if !(b == p && a == l) { assert HasChild(loops, b, a); }
    }
  }

  lemma WithNodeNested(loops: seq<SimpleLoop>, l: nat, bb: nat)
    requires Nested(loops) && l < |loops|
    ensures Nested(WithNode(loops, l, bb))
  {
    var r := WithNode(loops, l, bb);
    forall a: nat, b: nat ensures HasParent(r, a, b) <==> HasParent(loops, a, b) {}
    forall a: nat, b: nat ensures HasChild(r, a, b) <==> HasChild(loops, a, b) {}
  }

  lemma NewLoopNested(loops: seq<SimpleLoop>, bb: Option<nat>)
    requires Nested(loops)
    ensures Nested(loops + [NewLoop(bb)])
  {
    var r := loops + [NewLoop(bb)];
    forall a: nat, b: nat ensures HasParent(r, a, b) <==> HasParent(loops, a, b) {}
    forall a: nat, b: nat ensures HasChild(r, a, b) <==> HasChild(loops, a, b) {}
  }

  /** Levels of nesting below loop l. */
  ghost function Height(loops: seq<SimpleLoop>, l: nat): nat
    requires Nested(loops) && l < |loops|
    decreases if l == 0 then |loops| else l, |loops[l].children| + 1
  {
    assert forall c :: c in loops[l].children ==> HasChild(loops, l, c);
    Tallest(loops, l, |loops[l].children|)
  }

  /** One more than the highest among the first k children of l, or zero. */
  ghost function Tallest(loops: seq<SimpleLoop>, l: nat, k: nat): nat
    requires Nested(loops) && l < |loops| && k <= |loops[l].children|
    decreases if l == 0 then |loops| else l, k
  {
    if k == 0 then 0
    else
      assert HasChild(loops, l, loops[l].children[k - 1]);
      var h := 1 + Height(loops, loops[l].children[k - 1]);
      var t := Tallest(loops, l, k - 1);
      if t < h then h else t
  }

  /** A loop without children has height 0, any other one more than its highest child. */
  lemma HeightLaw(loops: seq<SimpleLoop>, l: nat)
    requires Nested(loops) && l < |loops|
    ensures (forall c: nat :: !HasChild(loops, l, c)) ==> Height(loops, l) == 0
    ensures forall c: nat :: HasChild(loops, l, c) ==> c < |loops| && Height(loops, c) < Height(loops, l)
    ensures Height(loops, l) > 0 ==>
              exists c: nat :: HasChild(loops, l, c) && c < |loops| && Height(loops, l) == 1 + Height(loops, c)
  {
    TallestLaw(loops, l, |loops[l].children|);
    forall c: nat | HasChild(loops, l, c) ensures c < |loops| && Height(loops, c) < Height(loops, l) {
      var i: nat :| i < |loops[l].children| && loops[l].children[i] == c;
    }
  }

  lemma {:induction false} TallestLaw(loops: seq<SimpleLoop>, l: nat, k: nat)
    requires Nested(loops) && l < |loops| && k <= |loops[l].children|
    ensures forall i: nat :: i < k ==>
              loops[l].children[i] < |loops| && Height(loops, loops[l].children[i]) < Tallest(loops, l, k)
    ensures Tallest(loops, l, k) > 0 ==>
              exists c: nat :: HasChild(loops, l, c) && c < |loops| && Tallest(loops, l, k) == 1 + Height(loops, c)
  {
    if k > 0 {
      TallestLaw(loops, l, k - 1);
      assert HasChild(loops, l, loops[l].children[k - 1]);
    }
  }

  /** Same loops, children and roots; only levels may differ. */
  ghost predicate SameShape(a: seq<SimpleLoop>, b: seq<SimpleLoop>)
  {
    |a| == |b| && forall l: nat :: l < |a| ==>
      b[l] == a[l].(nestingLevel := b[l].nestingLevel, depthLevel := b[l].depthLevel)
  }

  lemma SameShapeNested(a: seq<SimpleLoop>, b: seq<SimpleLoop>)
    requires Nested(a) && SameShape(a, b)
    ensures Nested(b)
  {
    forall l: nat, p: nat ensures HasParent(a, l, p) <==> HasParent(b, l, p) {}
    forall l: nat, p: nat ensures HasChild(a, l, p) <==> HasChild(b, l, p) {}
  }

  /** c is l or somewhere inside it. */
  ghost predicate Holds(loops: seq<SimpleLoop>, l: nat, c: nat)
    requires Nested(loops) && l < |loops|
    decreases if l == 0 then |loops| else l
  {
    c == l || exists k: nat :: HasChild(loops, l, k) && HeldBy(loops, l, k, c)
  }

  ghost predicate HeldBy(loops: seq<SimpleLoop>, l: nat, k: nat, c: nat)
    requires Nested(loops) && HasChild(loops, l, k)
    decreases if l == 0 then |loops| else l, 0
  {
    Holds(loops, k, c)
  }

  lemma {:induction false} HoldsLess(loops: seq<SimpleLoop>, l: nat, c: nat)
    requires Nested(loops) && l < |loops| && Holds(loops, l, c)
    ensures c < |loops| && (c == l || Inside(c, l))
    decreases if l == 0 then |loops| else l
  {
    if c != l {
      var k: nat :| HasChild(loops, l, k) && HeldBy(loops, l, k, c);
      HoldsLess(loops, k, c);
    }
  }

  lemma {:induction false} HoldsStep(loops: seq<SimpleLoop>, l: nat, p: nat, c: nat)
    requires Nested(loops) && l < |loops| && Holds(loops, l, p) && HasChild(loops, p, c)
    ensures Holds(loops, l, c)
    decreases if l == 0 then |loops| else l
  {
    if p == l {
      assert Holds(loops, c, c);
      assert HeldBy(loops, l, c, c);
    } else {
      var k: nat :| HasChild(loops, l, k) && HeldBy(loops, l, k, p);
      HoldsStep(loops, k, p, c);
      assert HeldBy(loops, l, k, c);
    }
  }

  /** With every loop given a parent, the root holds them all. */
  lemma {:induction false} RootHolds(loops: seq<SimpleLoop>, l: nat)
    requires Nested(loops) && l < |loops|
    requires forall x: nat :: 0 < x < |loops| ==> loops[x].parent.Some?
    ensures Holds(loops, 0, l)
    decreases |loops| - (if l == 0 then |loops| else l)
  {
    if l != 0 {
      var p := loops[l].parent.value;
      assert HasParent(loops, l, p) && HasChild(loops, p, l);
      RootHolds(loops, p);
      HoldsStep(loops, 0, p, l);
    }
  }

  lemma {:induction false} HeightShape(a: seq<SimpleLoop>, b: seq<SimpleLoop>, l: nat)
    requires Nested(a) && Nested(b) && SameShape(a, b) && l < |a|
    ensures Height(a, l) == Height(b, l)
    decreases if l == 0 then |a| else l, |a[l].children| + 1
  {
    TallestShape(a, b, l, |a[l].children|);
  }

  lemma {:induction false} TallestShape(a: seq<SimpleLoop>, b: seq<SimpleLoop>, l: nat, k: nat)
    requires Nested(a) && Nested(b) && SameShape(a, b) && l < |a| && k <= |a[l].children|
    ensures Tallest(a, l, k) == Tallest(b, l, k)
    decreases if l == 0 then |a| else l, k
  {
    if k > 0 {
      assert HasChild(a, l, a[l].children[k - 1]);
      HeightShape(a, b, a[l].children[k - 1]);
      TallestShape(a, b, l, k - 1);
    }
  }

  /** More children at the root, and nothing else. */
  ghost predicate RootGrown(a: seq<SimpleLoop>, b: seq<SimpleLoop>)
  {
    && |a| == |b| && a != [] && a[0].children <= b[0].children
    && forall l: nat :: 0 < l < |a| ==> b[l].children == a[l].children
  }

  /** They raise no height but the root's. */
  lemma {:induction false} HeightGrown(a: seq<SimpleLoop>, b: seq<SimpleLoop>, l: nat)
    requires Nested(a) && Nested(b) && RootGrown(a, b) && l < |a|
    ensures Height(a, l) <= Height(b, l) && (l != 0 ==> Height(a, l) == Height(b, l))
    decreases if l == 0 then |a| else l, |a[l].children| + 1
  {
    TallestGrown(a, b, l, |a[l].children|);
    TallestMono(b, l, |a[l].children|, |b[l].children|);
  }

  lemma {:induction false} TallestGrown(a: seq<SimpleLoop>, b: seq<SimpleLoop>, l: nat, k: nat)
    requires Nested(a) && Nested(b) && RootGrown(a, b) && l < |a| && k <= |a[l].children|
    ensures |a[l].children| <= |b[l].children| && Tallest(a, l, k) == Tallest(b, l, k)
    decreases if l == 0 then |a| else l, k
  {
    if k > 0 {
      assert HasChild(a, l, a[l].children[k - 1]);
      ChildLess(a, l, a[l].children[k - 1]);
      HeightGrown(a, b, a[l].children[k - 1]);
      TallestGrown(a, b, l, k - 1);
    }
  }

  /** Hanging a loop from the root keeps levels low. */
  lemma HungLow(loops: seq<SimpleLoop>, l: nat)
    requires Nested(loops) && 0 < l < |loops| && Low(loops, loops)
    ensures Nested(WithParent(loops, l, 0)) && Low(WithParent(loops, l, 0), WithParent(loops, l, 0))
  {
    var r := WithParent(loops, l, 0);
    WithParentNested(loops, l, 0);
    forall x: nat | x < |r| ensures r[x].nestingLevel <= Height(r, x) { HeightGrown(loops, r, x); }
  }

  /** No level exceeds the height of its loop. */
  ghost predicate Low(shape: seq<SimpleLoop>, loops: seq<SimpleLoop>)
    requires Nested(shape) && |loops| == |shape|
  {
    forall x: nat :: x < |loops| ==> loops[x].nestingLevel <= Height(shape, x)
  }

  ghost predicate Leveled(shape: seq<SimpleLoop>, loops: seq<SimpleLoop>, x: nat)
    requires Nested(shape) && |loops| == |shape|
  {
    x < |loops| && loops[x].nestingLevel == Height(shape, x)
  }

  /** Loop x is one deeper than some loop that lists it. */
  ghost predicate Deep(shape: seq<SimpleLoop>, loops: seq<SimpleLoop>, x: nat)
    requires |loops| == |shape|
  {
    x < |loops| && exists p: nat :: HasChild(shape, p, x) && loops[x].depthLevel == loops[p].depthLevel + 1
  }

  /** The state after the first k children of l are done. */
  ghost predicate KidsDone(shape: seq<SimpleLoop>, was: seq<SimpleLoop>, loops: seq<SimpleLoop>, l: nat, depth: nat,
                           k: nat)
    requires Nested(shape) && |was| == |loops| == |shape| && l < |loops| && k <= |shape[l].children|
  {
    && SameShape(shape, loops) && Low(shape, loops)
    && loops[l].depthLevel == depth && Tallest(shape, l, k) <= loops[l].nestingLevel
    && (forall x: nat :: Leveled(shape, was, x) ==> Leveled(shape, loops, x))
    && (forall x: nat :: HeldByFirst(shape, l, k, x) ==> Leveled(shape, loops, x) && Deep(shape, loops, x))
    && (forall x: nat :: x < |loops| && x != l && !HeldByFirst(shape, l, k, x) ==> loops[x] == was[x])
  }

  ghost predicate HeldByFirst(shape: seq<SimpleLoop>, l: nat, k: nat, x: nat)
    requires Nested(shape) && l < |shape| && k <= |shape[l].children|
  {
    exists j: nat :: j < k && HasChild(shape, l, shape[l].children[j]) && Holds(shape, shape[l].children[j], x)
  }

  lemma KidsNone(shape: seq<SimpleLoop>, was: seq<SimpleLoop>, l: nat, depth: nat)
    requires Nested(shape) && SameShape(shape, was) && Low(shape, was) && l < |was|
    ensures KidsDone(shape, was, was[l := was[l].(depthLevel := depth)], l, depth, 0)
  {
    forall x: nat ensures !HeldByFirst(shape, l, 0, x) {}
  }

  lemma HeldByNext(shape: seq<SimpleLoop>, l: nat, k: nat, x: nat)
    requires Nested(shape) && l < |shape| && k < |shape[l].children|
    ensures HasChild(shape, l, shape[l].children[k])
    ensures HeldByFirst(shape, l, k + 1, x) <==> HeldByFirst(shape, l, k, x) || Holds(shape, shape[l].children[k], x)
  {
    assert HasChild(shape, l, shape[l].children[k]);
    if HeldByFirst(shape, l, k + 1, x) {
      var j: nat :| j < k + 1 && HasChild(shape, l, shape[l].children[j]) && Holds(shape, shape[l].children[j], x);
      if j < k { assert HeldByFirst(shape, l, k, x); }
    }
    if HeldByFirst(shape, l, k, x) {
      var j: nat :| j < k && HasChild(shape, l, shape[l].children[j]) && Holds(shape, shape[l].children[j], x);
      assert j < k + 1;
    }
  }

  /** One more child c, visited from mid to next, and l raised above it. */
  lemma KidsNext(shape: seq<SimpleLoop>, was: seq<SimpleLoop>, mid: seq<SimpleLoop>, next: seq<SimpleLoop>,
                 loops: seq<SimpleLoop>, l: nat, depth: nat, k: nat)
    requires Nested(shape) && |was| == |mid| == |next| == |shape| && l < |shape| && k < |shape[l].children|
    requires KidsDone(shape, was, mid, l, depth, k)
    requires var c := shape[l].children[k];
             HasChild(shape, l, c) && Relevelled(shape, mid, next, c, depth + 1)
             && var h := 1 + next[c].nestingLevel;
                loops == next[l := next[l].(nestingLevel :=
                                              if h < next[l].nestingLevel then next[l].nestingLevel else h)]
    ensures KidsDone(shape, was, loops, l, depth, k + 1)
  {
    hide Holds, HeldByFirst, Nested;
    var c := shape[l].children[k];
    NotHeld(shape, l, c);
    HeldByNext(shape, l, k, c);
    forall x: nat ensures HeldByFirst(shape, l, k + 1, x) <==> HeldByFirst(shape, l, k, x) || Holds(shape, c, x) {
      HeldByNext(shape, l, k, x);
    }
    KidHeight(shape, l, k);
    forall x: nat | HeldByFirst(shape, l, k + 1, x) ensures Leveled(shape, loops, x) && Deep(shape, loops, x) {
      if x == c {
        assert HasChild(shape, l, c);
      } else if Holds(shape, c, x) {
        var p: nat :| HasChild(shape, p, x) && next[x].depthLevel == next[p].depthLevel + 1;
      } else {
        var p: nat :| HasChild(shape, p, x) && mid[x].depthLevel == mid[p].depthLevel + 1;
        if Holds(shape, c, p) { HoldsStep(shape, c, p, x); }
      }
    }
  }

  lemma NotHeld(shape: seq<SimpleLoop>, l: nat, c: nat)
    requires Nested(shape) && HasChild(shape, l, c)
    ensures !Holds(shape, c, l) && Holds(shape, c, c) && c != l
  {
    if Holds(shape, c, l) { HoldsLess(shape, c, l); }
  }

  lemma KidHeight(shape: seq<SimpleLoop>, l: nat, k: nat)
    requires Nested(shape) && l < |shape| && k < |shape[l].children|
    ensures HasChild(shape, l, shape[l].children[k]) && shape[l].children[k] < |shape|
    ensures var h := 1 + Height(shape, shape[l].children[k]);
            Tallest(shape, l, k + 1) == if Tallest(shape, l, k) < h then h else Tallest(shape, l, k)
    ensures Tallest(shape, l, k + 1) <= Height(shape, l)
  {
    assert HasChild(shape, l, shape[l].children[k]);
    TallestMono(shape, l, k + 1, |shape[l].children|);
  }

  lemma {:induction false} TallestMono(shape: seq<SimpleLoop>, l: nat, k: nat, m: nat)
    requires Nested(shape) && l < |shape| && k <= m <= |shape[l].children|
    ensures Tallest(shape, l, k) <= Tallest(shape, l, m)
    decreases m
  {
    if k < m { TallestMono(shape, l, k, m - 1); }
  }

  /** What a visit of loop c does. */
  ghost predicate Relevelled(shape: seq<SimpleLoop>, was: seq<SimpleLoop>, loops: seq<SimpleLoop>, c: nat, depth: nat)
    requires Nested(shape) && |was| == |loops| == |shape| && c < |shape|
  {
    && SameShape(shape, loops) && Low(shape, loops) && loops[c].depthLevel == depth
    && (forall x: nat :: Leveled(shape, was, x) ==> Leveled(shape, loops, x))
    && (forall x: nat :: Holds(shape, c, x) ==> Leveled(shape, loops, x) && (x != c ==> Deep(shape, loops, x)))
    && (forall x: nat :: x < |loops| && !Holds(shape, c, x) ==> loops[x] == was[x])
  }

  lemma KidsAll(shape: seq<SimpleLoop>, was: seq<SimpleLoop>, loops: seq<SimpleLoop>, l: nat, depth: nat)
    requires Nested(shape) && |was| == |loops| == |shape| && l < |shape|
    requires KidsDone(shape, was, loops, l, depth, |shape[l].children|)
    ensures Relevelled(shape, was, loops, l, depth)
  {
    hide Low, SameShape, Deep;
    forall x: nat ensures Holds(shape, l, x) <==> x == l || HeldByFirst(shape, l, |shape[l].children|, x) {
      if Holds(shape, l, x) && x != l {
        var k: nat :| HasChild(shape, l, k) && HeldBy(shape, l, k, x);
        var j: nat :| j < |shape[l].children| && shape[l].children[j] == k;
      }
      if HeldByFirst(shape, l, |shape[l].children|, x) {
        var j: nat :| j < |shape[l].children| && HasChild(shape, l, shape[l].children[j])
            && Holds(shape, shape[l].children[j], x);
        assert HeldBy(shape, l, shape[l].children[j], x);
      }
    }
    LowAt(shape, loops, l);
  }

  lemma ChildLess(shape: seq<SimpleLoop>, l: nat, c: nat)
    requires Nested(shape) && HasChild(shape, l, c)
    ensures 0 < c < |shape| && (l == 0 || c < l)
  {}

  lemma RootFirst(shape: seq<SimpleLoop>, l: nat)
    requires Nested(shape) && l < |shape|
    ensures shape[l].isRoot <==> l == 0
  {}

  lemma KidsShape(shape: seq<SimpleLoop>, was: seq<SimpleLoop>, loops: seq<SimpleLoop>, l: nat, depth: nat, k: nat)
    requires Nested(shape) && |was| == |loops| == |shape| && l < |shape| && k <= |shape[l].children|
    requires KidsDone(shape, was, loops, l, depth, k)
    ensures SameShape(shape, loops) && Low(shape, loops)
  {}

  lemma LowAt(shape: seq<SimpleLoop>, loops: seq<SimpleLoop>, x: nat)
    requires Nested(shape) && |loops| == |shape| && x < |loops| && Low(shape, loops)
    ensures loops[x].nestingLevel <= Height(shape, x) == Tallest(shape, x, |shape[x].children|)
  {}

  class Lsg {
    var loops: seq<SimpleLoop>
    var loopCounter: int

    ghost predicate Valid()
      reads this
    {
      Nested(loops) && loopCounter == |loops|
    }

    constructor ()
      ensures Valid() && loops == [NewLoop(None).(isRoot := true)]
    {
      loops := [SimpleLoop([], [], None, true, 0, 0)];
      loopCounter := 1;
    }

    method CreateNewLoop(bb: Option<nat>) returns (l: nat)
      requires Valid()
      modifies this
      ensures Valid() && loops == old(loops) + [NewLoop(bb)] && l == |old(loops)|
    {
      NewLoopNested(loops, bb);
      var made := SimpleLoop([], [], None, false, 0, 0);
      if bb.Some? { made := made.(basicBlocks := made.basicBlocks + [bb.value]); }
      assert made.basicBlocks == NewLoop(bb).basicBlocks;
      loopCounter := loopCounter + 1;
      loops := loops + [made];
      l := |loops| - 1;
    }

    /**
     * The parent changes and lists the child once; a child made before its parent, or under the root, keeps
     * the nesting.
     */
    method SetParent(l: nat, p: nat)
      requires l < |loops| && p < |loops|
      modifies `loops
      ensures loops == WithParent(old(loops), l, p)
      ensures old(Valid()) && Inside(l, p) ==> Valid()
    {
      hide Nested, Inside;
      ghost var before := loops;
      if Nested(loops) && Inside(l, p) { WithParentNested(loops, l, p); }
      loops := loops[l := loops[l].(parent := Some(p))];
      if l !in loops[p].children {
        loops := loops[p := loops[p].(children := loops[p].children + [l])];
      }
      assert loops == WithParent(before, l, p);
    }

    method AddNode(l: nat, bb: nat)
      requires l < |loops|
      modifies `loops
      ensures loops == WithNode(old(loops), l, bb)
      ensures old(Valid()) ==> Valid()
    {
      hide Nested;
      ghost var before := loops;
      if Nested(loops) { WithNodeNested(loops, l, bb); }
      if bb !in loops[l].basicBlocks {
        loops := loops[l := loops[l].(basicBlocks := loops[l].basicBlocks + [bb])];
      }
      assert loops == WithNode(before, l, bb);
    }

    /** Levels of l and of all inside it. */
    method NestingRec(l: nat, depth: nat, ghost shape: seq<SimpleLoop>)
      requires Nested(shape) && SameShape(shape, loops) && l < |loops| && Low(shape, loops)
      modifies `loops
      ensures |loops| == |shape| && Relevelled(shape, old(loops), loops, l, depth)
      decreases if l == 0 then |shape| else l
    {
      hide Low, Leveled, Deep, Holds, KidsDone, Nested, HeldByFirst;
      KidsNone(shape, loops, l, depth);
      loops := loops[l := loops[l].(depthLevel := depth)];
      KidsShape(shape, old(loops), loops, l, depth, 0);
      var kids := loops[l].children;
      for k := 0 to |kids|
        invariant |loops| == |shape| && SameShape(shape, loops) && Low(shape, loops)
        invariant KidsDone(shape, old(loops), loops, l, depth, k)
      {
        KidHeight(shape, l, k);
        ghost var mid := loops;
        ChildLess(shape, l, kids[k]);
        NestingRec(kids[k], depth + 1, shape);
        ghost var next := loops;
        var lvl := if loops[l].nestingLevel < 1 + loops[kids[k]].nestingLevel then 1 + loops[kids[k]].nestingLevel
                   else loops[l].nestingLevel;
        loops := loops[l := loops[l].(nestingLevel := lvl)];
        KidsNext(shape, old(loops), mid, next, loops, l, depth, k);
        KidsShape(shape, old(loops), loops, l, depth, k + 1);
      }
      KidsAll(shape, old(loops), loops, l, depth);
    }

    /**
     * Hang parentless loops from the root and level everything; levels given before may stand, as long as
     * they are low.
     */
    method CalculateNestingLevel()
      requires Valid() && Low(loops, loops)
      modifies `loops
      ensures Valid() && |loops| == |old(loops)| && loops[0].depthLevel == 0
      ensures forall x: nat :: 0 < x < |loops| ==>
                loops[x].parent == if old(loops)[x].parent.Some? then old(loops)[x].parent else Some(0)
      ensures forall x: nat :: x < |loops| ==> loops[x].nestingLevel == Height(loops, x)
      ensures forall x: nat :: 0 < x < |loops| ==> Deep(loops, loops, x)
    {
      hide Nested, Height, Holds, Low;
      for i := 0 to |loops|
        invariant Valid() && |loops| == |old(loops)| && Low(loops, loops)
        invariant forall x: nat :: 0 < x < |loops| ==>
                    loops[x].parent == if old(loops)[x].parent.None? && x < i then Some(0) else old(loops)[x].parent
      {
        RootFirst(loops, i);
        if !loops[i].isRoot && loops[i].parent.None? {
          HungLow(loops, i);
          SetParent(i, 0);
        }
      }
      ghost var shape := loops;
      RootFirst(loops, 0);
      NestingRec(0, 0, shape);
      SameShapeNested(shape, loops);
      forall x: nat | x < |loops|
        ensures loops[x].nestingLevel == Height(loops, x) && (x != 0 ==> Deep(loops, loops, x))
      {
        RootHolds(shape, x);
        HeightShape(shape, loops, x);
        if x != 0 {
          var p: nat :| HasChild(shape, p, x) && loops[x].depthLevel == loops[p].depthLevel + 1;
          assert HasChild(loops, p, x);
        }
      }
    }
  }
}
