/** Whole additions to a chain: none of them fails, and where each leaves the flow of data. */
module DeltaBlueRuns {
  import opened DeltaBlueChain
  import opened DeltaBlueGrow
  import opened DeltaBlueNet
  import opened DeltaBlueSteps
  import opened Options

  /** n variables joined by the first m equalities, nothing held at either end. */
  ghost predicate Built(vars: seq<Var>, cons: seq<Con>, n: nat, m: nat)
  {
    |cons| == m && RightNet(NetOf(vars, cons), n, m, false, false, m, None, None)
  }

  /** The chain flows left from the stay on its last variable. */
  ghost predicate Held(vars: seq<Var>, cons: seq<Con>, n: nat) { LeftNet(NetOf(vars, cons), n, 0) }

  /** The chain flows right from the edit on its first variable; the stay is off. */
  ghost predicate Driven(vars: seq<Var>, cons: seq<Con>, n: nat)
  {
    RightNet(NetOf(vars, cons), n, n, true, true, n, Some(n + 1), Some(n))
  }

  // ── What cannot happen on a chain ─────────────────────────────────

  /** On a chain an addition never meets a cycle or a division. */
  lemma NoCycle(f: Frame, mark: int, outcome: Outcome, trace: seq<Frame>, vars: seq<Var>, cons: seq<Con>,
                n: nat, m: nat, stay: bool, edit: bool)
    requires Shape(NetOf(f.vars, f.cons), n, m, stay, edit) && Added(f, mark, outcome, trace, vars, cons)
    ensures outcome == Fine || outcome == Unsatisfiable
  {
    hide Shape, RankedBut;
    var net, net' := NetOf(f.vars, f.cons), NetOf(vars, cons);
    if outcome == DividedByZero { NoScale(net, n, m, stay, edit); }
    if outcome == Cycle {
      MethodsSize(f.vars, f.cons, vars, cons);
      ShapeKept(net, net', n, m, stay, edit);
      ChainAcyclic(net', n, m, stay, edit);
    }
  }

  lemma NoScale(net: Net, n: nat, m: nat, stay: bool, edit: bool)
    requires Shape(net, n, m, stay, edit)
    ensures !HasScale(net.cons)
  {
    forall c: nat | c < |net.cons| ensures !net.cons[c].kind.Scale? {
      if c < m { EqualityAt(net, n, m, stay, edit, c); }
    }
  }

  /** No variable of a chain is easier to change than what holds it. */
  lemma ChainFloor(f: Frame, n: nat, m: nat, stay: bool, edit: bool, floor: int, v: nat)
    requires Settled(f) && Shape(NetOf(f.vars, f.cons), n, m, stay, edit) && v <= n && floor <= WEAKEST
    requires forall c: nat :: c < |f.cons| && Sat(f.cons[c]) && Unary(f.cons[c]) ==> f.cons[c].strength >= floor
    ensures |f.vars| == n + 1 && f.vars[v].walk >= floor
  {
    var net := NetOf(f.vars, f.cons);
    ChainAcyclic(net, n, m, stay, edit);
    var rank := SomeRank(net);
    WalkFloor(f.vars, f.cons, rank, floor, v);
  }

  lemma ChainCeiling(f: Frame, n: nat, m: nat, v: nat)
    requires Settled(f) && Shape(NetOf(f.vars, f.cons), n, m, false, false) && |f.cons| == m && v <= n
    ensures |f.vars| == n + 1 && f.vars[v].walk <= WEAKEST
  {
    var net := NetOf(f.vars, f.cons);
    ChainAcyclic(net, n, m, false, false);
    var rank := SomeRank(net);
    forall c: nat | c < |f.cons| ensures f.cons[c].strength <= WEAKEST { EqualityAt(net, n, m, false, false, c); }
    WalkCeiling(f.vars, f.cons, rank, v);
  }

  // ── Traces ────────────────────────────────────────────────────────

  /** Nothing follows a frame in which nothing waits. */
  lemma TraceEnds(trace: seq<Frame>, mark: int, i: nat)
    requires Overrides(trace, mark) && i < |trace|
    ensures i + 1 < |trace| ==> trace[i].todo.Some? && FrameStep(trace[i], trace[i + 1], mark)
    ensures i + 1 < |trace| && Settled(trace[i]) ==> Settled(trace[i + 1])
    ensures trace[i].todo.None? ==> i + 1 == |trace|
  {
    if i + 1 < |trace| { assert FrameStep(trace[i], trace[i + 1], mark); }
  }

  /** Extending the chain by one equality: it computes rightward, and nothing waits. */
  lemma Builds(f: Frame, mark: int, outcome: Outcome, trace: seq<Frame>, vars: seq<Var>, cons: seq<Con>, n: nat, m: nat)
    requires RightNet(NetOf(f.vars, f.cons), n, m + 1, false, false, m, None, None) && |f.cons| == m + 1
        && f.todo == Some(m)
    requires Settled(f) && MarkedTo(f.vars, mark, 0) && Added(f, mark, outcome, trace, vars, cons)
    ensures outcome == Fine && Built(vars, cons, n, m + 1)
  {
    hide RightNet, Overrides, Settled, Matched, FreshBut, Stuck, OnlyMethods, FrameStep, Shape, MarkedTo, HasScale,
        Acyclic;
    RightParts(NetOf(f.vars, f.cons), n, m + 1, false, false, m, None, None);
    NoCycle(f, mark, outcome, trace, vars, cons, n, m + 1, false, false);
    NoneHeld(NetOf(f.vars, f.cons), n, m + 1, m);
    ChainFloor(f, n, m + 1, false, false, WEAKEST, m);
    ChainFloor(f, n, m + 1, false, false, WEAKEST, m + 1);
    ChainCeiling(f, n, m + 1, m);
    RightOpen(f, n, m + 1, false, false, m, None, None, mark, 0);
    TraceEnds(trace, mark, 0);
    if |trace| > 1 {
      RightStep(f, trace[1], n, m + 1, false, false, m, None, None, mark, 0);
      TraceEnds(trace, mark, 1);
      NothingWaits(trace[1], mark);
    }
    MethodsSize(f.vars, f.cons, vars, cons);
  }

  lemma RightParts(net: Net, n: nat, m: nat, stay: bool, edit: bool, j: nat, src: Option<nat>, end: Option<nat>)
    requires RightNet(net, n, m, stay, edit, j, src, end)
    ensures Shape(net, n, m, stay, edit) && m <= n && m <= |net.cons| && |net.det| == n + 1
    ensures forall c: nat :: c < |net.cons| && Sat(net.cons[c]) && Unary(net.cons[c]) ==>
              (stay && c == n && IsStay(net.cons[c], n)) || (edit && c == n + 1 && IsEdit(net.cons[c]))
    ensures stay ==> n < |net.cons| && IsStay(net.cons[n], n) && (net.cons[n].satisfied <==> j < m && end == Some(n))
    ensures edit ==> n + 1 < |net.cons| && IsEdit(net.cons[n + 1])
  {
    forall c: nat | c < m ensures !Unary(net.cons[c]) { EqualityAt(net, n, m, stay, edit, c); }
  }

  lemma NoneHeld(net: Net, n: nat, m: nat, j: nat)
    requires RightNet(net, n, m, false, false, j, None, None)
    ensures forall c: nat :: c < |net.cons| && Unary(net.cons[c]) ==> !Sat(net.cons[c])
  {
    RightParts(net, n, m, false, false, j, None, None);
  }

  // ── The stay turns the chain left ─────────────────────────────────

  /** A frame on the way left: j is the leftmost variable reached. */
  ghost predicate LeftAt(f: Frame, n: nat, j: nat, mark: int)
  {
    LeftNet(NetOf(f.vars, f.cons), n, j) && f.todo == LeftTodo(j) && Settled(f) && MarkedFrom(f.vars, mark, j)
  }

  lemma LeftParts(net: Net, n: nat, j: nat)
    requires LeftNet(net, n, j)
    ensures Shape(net, n, n, true, false) && j <= n && n < |net.cons| && |net.det| == n + 1
    ensures forall c: nat :: c < |net.cons| && Sat(net.cons[c]) && Unary(net.cons[c]) ==>
        net.cons[c].strength == STRONG_DEFAULT
  {
    StayAt(net, n, n, true, false);
    forall c: nat | c < n ensures !Unary(net.cons[c]) { EqualityAt(net, n, n, true, false, c); }
  }

  lemma LeftFloor(f: Frame, n: nat, j: nat, mark: int, v: nat)
    requires LeftAt(f, n, j, mark) && v <= n
    ensures |f.vars| == n + 1 && f.vars[v].walk >= STRONG_DEFAULT
  {
    LeftParts(NetOf(f.vars, f.cons), n, j);
    ChainFloor(f, n, n, true, false, STRONG_DEFAULT, v);
  }

  lemma {:induction false} LeftRun(trace: seq<Frame>, mark: int, n: nat, i: nat)
    requires Overrides(trace, mark) && |trace| > 1 && LeftAt(trace[1], n, n, mark) && 1 <= i < |trace|
    ensures i <= n + 1 && LeftAt(trace[i], n, n + 1 - i, mark)
  {
    hide Overrides, FrameStep, Settled, LeftNet, MarkedFrom;
    if i > 1 {
      LeftRun(trace, mark, n, i - 1);
      var j := n + 2 - i;
      TraceEnds(trace, mark, i - 1);
      LeftFloor(trace[i - 1], n, j, mark, j - 1);
      LeftStep(trace[i - 1], trace[i], n, j, mark);
    }
  }

  /** Adding a stay to the free chain turns every equality leftward. */
  lemma Anchors(f: Frame, mark: int, outcome: Outcome, trace: seq<Frame>, vars: seq<Var>, cons: seq<Con>, n: nat)
    requires RightNet(NetOf(f.vars, f.cons), n, n, true, false, n, None, None) && f.todo == Some(n)
    requires Settled(f) && MarkedTo(f.vars, mark, 0) && Added(f, mark, outcome, trace, vars, cons)
    ensures outcome == Fine && Held(vars, cons, n)
  {
    hide RightNet, LeftNet, Overrides, Settled, Matched, FreshBut, Stuck, OnlyMethods, FrameStep, Shape, MarkedTo,
        MarkedFrom, HasScale, Acyclic;
    var net := NetOf(f.vars, f.cons);
    RightParts(net, n, n, true, false, n, None, None);
    NoCycle(f, mark, outcome, trace, vars, cons, n, n, true, false);
    ChainFloor(f, n, n, true, false, WEAKEST, n);
    NotRequired(f, mark);
    TraceEnds(trace, mark, 0);
    if |trace| > 1 {
      LeftStart(f, trace[1], n, mark);
      var i := |trace| - 1;
      LeftRun(trace, mark, n, i);
      var j := n + 1 - i;
      NothingWaits(trace[i], mark);
      if j > 0 {
        LeftFloor(trace[i], n, j, mark, j - 1);
        LeftOpen(trace[i], n, j, mark);
      }
    }
  }

  /** Only a required constraint is stuck. */
  lemma NotRequired(f: Frame, mark: int)
    ensures Stuck(f, mark) ==> f.todo.Some? && f.todo.value < |f.cons| && f.cons[f.todo.value].strength == REQUIRED
  {}

  lemma NothingWaits(f: Frame, mark: int)
    ensures f.todo.None? ==> !Stuck(f, mark)
  {}

  // ── The edit turns it right ───────────────────────────────────────

  /** A frame on the way right: j is the rightmost variable reached. */
  ghost predicate RightAt(f: Frame, n: nat, j: nat, mark: int)
  {
    && RightNet(NetOf(f.vars, f.cons), n, n, true, true, j, Some(n + 1), Some(n)) && f.todo == RightTodo(n, j, Some(n))
    && Settled(f) && MarkedTo(f.vars, mark, j + 1)
  }

  lemma RightFloor(f: Frame, n: nat, j: nat, mark: int, v: nat)
    requires RightAt(f, n, j, mark) && v <= n
    ensures |f.vars| == n + 1 && f.vars[v].walk >= PREFERRED
  {
    RightParts(NetOf(f.vars, f.cons), n, n, true, true, j, Some(n + 1), Some(n));
    ChainFloor(f, n, n, true, true, PREFERRED, v);
  }

  lemma {:induction false} RightRun(trace: seq<Frame>, mark: int, n: nat, i: nat)
    requires Overrides(trace, mark) && |trace| > 1 && RightAt(trace[1], n, 0, mark) && 1 <= i < |trace| && i <= n + 1
    ensures RightAt(trace[i], n, i - 1, mark)
  {
    hide Overrides, FrameStep, Settled, RightNet, MarkedTo;
    if i > 1 {
      RightRun(trace, mark, n, i - 1);
      var j := i - 2;
      TraceEnds(trace, mark, i - 1);
      RightFloor(trace[i - 1], n, j, mark, j + 1);
      RightStep(trace[i - 1], trace[i], n, n, true, true, j, Some(n + 1), Some(n), mark, j + 1);
    }
  }

  /** The stay, overridden last, finds its variable marked and stays off. */
  lemma StayGivesWay(f: Frame, g: Frame, n: nat, mark: int)
    requires RightAt(f, n, n, mark) && FrameStep(f, g, mark)
    ensures g.todo.None? && Driven(g.vars, g.cons, n)
  {
    hide Settled;
    var net := NetOf(f.vars, f.cons);
    hide RightNet;
    RightParts(net, n, n, true, true, n, Some(n + 1), Some(n));
    assert Chosen(f.vars, f.cons[n], mark) == f.cons[n];
    assert g.vars == f.vars && g.cons == f.cons;
  }

  /** Adding an edit to the held chain turns every equality rightward and puts the stay off. */
  lemma Drives(f: Frame, mark: int, outcome: Outcome, trace: seq<Frame>, vars: seq<Var>, cons: seq<Con>, n: nat)
    requires Edited(NetOf(f.vars, f.cons), n) && f.todo == Some(n + 1)
    requires Settled(f) && MarkedTo(f.vars, mark, 0) && Added(f, mark, outcome, trace, vars, cons)
    ensures outcome == Fine && Driven(vars, cons, n)
  {
    hide RightNet, LeftNet, Edited, Overrides, Settled, Matched, FreshBut, Stuck, OnlyMethods, FrameStep, Shape,
        MarkedTo, HasScale, Acyclic;
    var net := NetOf(f.vars, f.cons);
    EditedParts(net, n);
    NoCycle(f, mark, outcome, trace, vars, cons, n, n, true, true);
    ChainFloor(f, n, n, true, true, STRONG_DEFAULT, 0);
    NotRequired(f, mark);
    TraceEnds(trace, mark, 0);
    if |trace| > 1 {
      RightStart(f, trace[1], n, mark);
      assert RightAt(trace[1], n, 0, mark);
      var i := |trace| - 1;
      if i <= n + 1 {
        RightRun(trace, mark, n, i);
        var j := i - 1;
        RightParts(NetOf(trace[i].vars, trace[i].cons), n, n, true, true, j, Some(n + 1), Some(n));
        NotRequired(trace[i], mark);
        if j < n {
          RightFloor(trace[i], n, j, mark, j + 1);
          RightOpen(trace[i], n, n, true, true, j, Some(n + 1), Some(n), mark, j + 1);
        }
      } else {
        RightRun(trace, mark, n, n + 1);
        TraceEnds(trace, mark, n + 1);
        StayGivesWay(trace[n + 1], trace[n + 2], n, mark);
        TraceEnds(trace, mark, n + 2);
        NothingWaits(trace[n + 2], mark);
      }
    }
  }

  lemma EditedParts(net: Net, n: nat)
    requires Edited(net, n)
    ensures Shape(net, n, n, true, true) && n + 1 < |net.cons| && |net.det| == n + 1 && IsEdit(net.cons[n + 1])
    ensures forall c: nat :: c < |net.cons| && Sat(net.cons[c]) && Unary(net.cons[c]) ==>
        net.cons[c].strength == STRONG_DEFAULT
  {
    StayAt(net, n, n, true, true);
    forall c: nat | c < n ensures !Unary(net.cons[c]) { EqualityAt(net, n, n, true, true, c); }
  }
}
