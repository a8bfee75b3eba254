/** A chain of equalities: which way data flows along it, and why nothing on it can fail. */
module DeltaBlueChain {
  import opened DeltaBlueGrow
  import opened DeltaBlueNet
  import opened DeltaBlueSteps
  import opened Options

  // ── Shape ─────────────────────────────────────────────────────────

  predicate IsEq(k: Con, i: nat) { k.kind.Equality? && k.strength == REQUIRED && k.v1 == i && k.v2 == i + 1 }

  predicate IsStay(k: Con, v: nat) { k.kind.Stay? && k.strength == STRONG_DEFAULT && k.v1 == v && k.v2 == v }

  predicate IsEdit(k: Con) { k.kind.Edit? && k.strength == PREFERRED && k.v1 == 0 && k.v2 == 0 }

  /** Who is on the list of v: the equality before, the one after, the stay at n, the edit at 0. */
  function ListOf(n: nat, m: nat, stay: bool, edit: bool, v: nat): seq<nat>
  {
    (if 1 <= v <= m then [v - 1] else []) + (if v < m then [v] else [])
    + (if stay && v == n then [n] else []) + (if edit && v == 0 then [n + 1] else [])
  }

  /** Variables 0 .. n; constraint i < m is the equality of i and i + 1; then a stay on n and an edit on 0. */
  ghost predicate Shape(net: Net, n: nat, m: nat, stay: bool, edit: bool)
  {
    && m <= n && |net.det| == |net.lists| == n + 1 && m <= |net.cons|
    && (forall i: nat :: i < m ==> IsEq(net.cons[i], i))
    && (stay ==> m == n < |net.cons| && IsStay(net.cons[n], n))
    && (edit ==> stay && n + 1 < |net.cons| && IsEdit(net.cons[n + 1]))
    && (forall c: nat :: m <= c < |net.cons| ==> Unary(net.cons[c]) && net.cons[c].strength > REQUIRED)
    && (forall v: nat :: v <= n ==> net.lists[v] == ListOf(n, m, stay, edit, v))
  }

  // ── No cycle on a chain ───────────────────────────────────────────

  /** How many forward equalities end at v in a row. */
  ghost function Fore(net: Net, m: nat, v: nat): nat
    requires m <= |net.cons|
  {
    if 1 <= v <= m && net.cons[v - 1].dir == Forward then 1 + Fore(net, m, v - 1) else 0
  }

  /** How many backward equalities start at v in a row. */
  ghost function Back(net: Net, m: nat, v: nat): nat
    requires m <= |net.cons|
    decreases if v <= m then m - v else 0
  {
    if v < m && net.cons[v].dir == Backward then 1 + Back(net, m, v + 1) else 0
  }

  /** How high v stands: the longer the run of data into it, the higher. */
  ghost function Rise(net: Net, m: nat, v: nat): nat
    requires m <= |net.cons|
  {
    Fore(net, m, v) + Back(net, m, v)
  }

  /** However its equalities are directed, a chain whose links match has no cycle. */
  lemma ChainAcyclic(net: Net, n: nat, m: nat, stay: bool, edit: bool)
    requires Matched(net) && Shape(net, n, m, stay, edit)
    ensures Acyclic(net)
  {
    ShapeSizes(net, n, m, stay, edit);
    hide Rise, Matched, Shape;
    var rank := seq(n + 1, v requires 0 <= v <= n => Rise(net, m, v));
    forall c: nat, v: nat | SatAt(net, c) && c !in {} && Feeds(net.cons[c], v)
      ensures v < |rank| && Output(net.cons[c]) < |rank| && rank[v] < rank[Output(net.cons[c])]
    {
      RiseStep(net, n, m, stay, edit, c, v);
    }
    RankedHere(net, rank);
  }

  lemma RankedHere(net: Net, rank: seq<nat>)
    requires Matched(net) && |rank| == |net.det|
    requires forall c: nat, v: nat :: SatAt(net, c) && c !in {} && Feeds(net.cons[c], v) ==>
               v < |rank| && Output(net.cons[c]) < |rank| && rank[v] < rank[Output(net.cons[c])]
    ensures Acyclic(net)
  {
    hide Matched, SatAt, Feeds;
    MatchedRange(net);
    assert RankedBut(net, rank, {});
  }

  lemma MatchedRange(net: Net)
    requires Matched(net)
    ensures InRange(net)
  {}

  /** What a satisfied constraint computes stands higher than what it computes it from. */
  lemma RiseStep(net: Net, n: nat, m: nat, stay: bool, edit: bool, c: nat, v: nat)
    requires Matched(net) && Shape(net, n, m, stay, edit) && SatAt(net, c) && Feeds(net.cons[c], v)
    ensures m <= |net.cons| && v <= n && Output(net.cons[c]) <= n && Rise(net, m, v) < Rise(net, m, Output(net.cons[c]))
  {
    ShapeSizes(net, n, m, stay, edit);
    if c < m {
      EqualityAt(net, n, m, stay, edit, c);
      OutputKnown(net, c);
      if net.cons[c].dir == Forward {
        if c + 1 < m { EqualityAt(net, n, m, stay, edit, c + 1); OneWriter(net, c, c + 1); }
      } else if c > 0 {
        EqualityAt(net, n, m, stay, edit, c - 1);
        OneWriter(net, c - 1, c);
      }
    }
  }

  /** Two satisfied constraints never have one output. */
  lemma OneWriter(net: Net, c: nat, d: nat)
    requires Matched(net) && c < |net.cons| && d < |net.cons| && c != d
    ensures SatAt(net, c) && SatAt(net, d) ==> Output(net.cons[c]) != Output(net.cons[d])
  {
    if SatAt(net, c) { OutputKnown(net, c); }
    if SatAt(net, d) { OutputKnown(net, d); }
  }

  // ── Strengths along a chain ───────────────────────────────────────

  /** No variable is easier to change than the weakest satisfied unary constraint allows. */
  lemma {:induction false} WalkFloor(vars: seq<Var>, cons: seq<Con>, rank: seq<nat>, floor: int, v: nat)
    requires Matched(NetOf(vars, cons)) && RankedBut(NetOf(vars, cons), rank, {}) && FreshBut(vars, cons, [])
        && v < |vars|
    requires floor <= WEAKEST && forall c: nat :: c < |cons| && Sat(cons[c]) && Unary(cons[c]) ==>
        cons[c].strength >= floor
    ensures vars[v].walk >= floor
    decreases rank[v]
  {
    var n := NetOf(vars, cons);
    if vars[v].determinedBy.Some? {
      assert n.det[v].Some?;
      DetKnown(n, v);
      var c := n.det[v].value;
      OutputKnown(n, c);
      assert Fresh(vars, cons[c]);
      if !Unary(cons[c]) {
        RankAt(n, rank, {}, c, Input(cons[c]));
        WalkFloor(vars, cons, rank, floor, Input(cons[c]));
      }
    }
  }

  /** No variable is harder to change than everything on the chain. */
  lemma {:induction false} WalkCeiling(vars: seq<Var>, cons: seq<Con>, rank: seq<nat>, v: nat)
    requires Matched(NetOf(vars, cons)) && RankedBut(NetOf(vars, cons), rank, {}) && FreshBut(vars, cons, [])
        && v < |vars|
    requires forall c: nat :: c < |cons| && Sat(cons[c]) ==> cons[c].strength <= WEAKEST
    ensures vars[v].walk <= WEAKEST
    decreases rank[v]
  {
    var n := NetOf(vars, cons);
    if vars[v].determinedBy.Some? {
      assert n.det[v].Some?;
      DetKnown(n, v);
      var c := n.det[v].value;
      OutputKnown(n, c);
      assert Fresh(vars, cons[c]);
      if !Unary(cons[c]) {
        RankAt(n, rank, {}, c, Input(cons[c]));
        WalkCeiling(vars, cons, rank, Input(cons[c]));
      }
    }
  }

  // ── Data flowing right ────────────────────────────────────────────

  /** The first j equalities compute rightward from 0, the j-th is off, the rest compute leftward. */
  ghost predicate RightNet(net: Net, n: nat, m: nat, stay: bool, edit: bool, j: nat, src: Option<nat>, end: Option<nat>)
  {
    && Shape(net, n, m, stay, edit) && j <= m
    && (forall i: nat :: i < m ==> net.cons[i].dir == if i < j then Forward else if i == j then Unset else Backward)
    && (forall v: nat :: v <= n ==> net.det[v] == RightDet(m, j, src, end, v))
    && (stay ==> (net.cons[n].satisfied <==> j < m && end == Some(n)))
    && (edit ==> (net.cons[n + 1].satisfied <==> src == Some(n + 1)))
    && (forall c: nat :: m <= c < |net.cons| && Sat(net.cons[c]) ==> (stay && c == n) || (edit && c == n + 1))
  }

  function RightDet(m: nat, j: nat, src: Option<nat>, end: Option<nat>, v: nat): Option<nat>
  {
    if v <= j then (if v == 0 then src else Some(v - 1))
    else if v < m then Some(v) else if v == m then end else None
  }

  /** Exactly the variables below k carry the mark. */
  ghost predicate MarkedTo(vars: seq<Var>, mark: int, k: nat)
  {
    forall v: nat :: v < |vars| ==> (vars[v].mark == mark <==> v < k)
  }

  /** What was overridden last waits. */
  function RightTodo(m: nat, j: nat, end: Option<nat>): Option<nat> { if j < m then Some(j) else end }

  /** Overriding changes the constraint that takes over, and the one it overrides. */
  lemma OverridingAt(net: Net, c: nat, k: Con)
    requires c < |net.cons| && Output(k) < |net.det| && net.det[Output(k)] != Some(c)
    ensures var net', o := Overriding(net, c, k), net.det[Output(k)];
            && |net'.cons| == |net.cons| && net'.lists == net.lists && |net'.det| == |net.det|
            && (forall d: nat :: d < |net.cons| ==>
                  net'.cons[d] == if d == c then k else if o == Some(d) then Off(net.cons[d]) else net.cons[d])
            && (forall v: nat :: v < |net.det| ==> net'.det[v] == if v == Output(k) then Some(c) else net.det[v])
  {}

  /** Methods are no part of the shape. */
  lemma ShapeKept(net: Net, net': Net, n: nat, m: nat, stay: bool, edit: bool)
    requires Shape(net, n, m, stay, edit) && net'.lists == net.lists && |net'.det| == |net.det|
        && |net'.cons| == |net.cons|
    requires forall d: nat :: d < |net.cons| ==> Remethod(net.cons[d], net'.cons[d])
    ensures Shape(net', n, m, stay, edit)
  {
    forall i: nat | i < m ensures IsEq(net'.cons[i], i) {
      assert IsEq(net.cons[i], i) && Remethod(net.cons[i], net'.cons[i]);
    }
    forall c: nat | m <= c < |net'.cons| ensures Unary(net'.cons[c]) && net'.cons[c].strength > REQUIRED {
      assert Remethod(net.cons[c], net'.cons[c]);
    }
    if stay { assert Remethod(net.cons[n], net'.cons[n]); }
    if edit { assert Remethod(net.cons[n + 1], net'.cons[n + 1]); }
  }

  /** Taking over leaves the shape. */
  lemma ShapeTurn(net: Net, n: nat, m: nat, stay: bool, edit: bool, c: nat, k: Con)
    requires Shape(net, n, m, stay, edit) && c < |net.cons| && Remethod(net.cons[c], k)
    requires Output(k) <= n && net.det[Output(k)] != Some(c)
    ensures Shape(Overriding(net, c, k), n, m, stay, edit)
  {
    OverridingAt(net, c, k);
    hide Shape, Overriding;
    ShapeKept(net, Overriding(net, c, k), n, m, stay, edit);
  }

  /** The part of RightNet about links. */
  lemma RightTurnDet(net: Net, det: seq<Option<nat>>, n: nat, m: nat, stay: bool, edit: bool, j: nat,
                     src: Option<nat>, end: Option<nat>)
    requires RightNet(net, n, m, stay, edit, j, src, end) && j < m && |net.det| == n + 1
    requires j < n && det == net.det[j + 1 := Some(j)]
    ensures net.det[j + 1] == RightTodo(m, j + 1, end)
    ensures forall v: nat :: v <= n ==> det[v] == RightDet(m, j + 1, src, end, v)
  {
    ShapeSizes(net, n, m, stay, edit);
    assert net.det[j + 1] == RightDet(m, j, src, end, j + 1);
    forall v: nat | v <= n ensures det[v] == RightDet(m, j + 1, src, end, v) {
      assert net.det[v] == RightDet(m, j, src, end, v);
    }
  }

  lemma RightTurn(net: Net, n: nat, m: nat, stay: bool, edit: bool, j: nat, src: Option<nat>, end: Option<nat>, c: Con)
    requires RightNet(net, n, m, stay, edit, j, src, end) && j < m && c == net.cons[j].(dir := Forward)
    requires end.Some? ==> stay && end == Some(n) && m == n
    ensures Output(c) == j + 1 && net.det[j + 1] == RightTodo(m, j + 1, end)
    ensures RightNet(Overriding(net, j, c), n, m, stay, edit, j + 1, src, end)
  {
    EqualityAt(net, n, m, stay, edit, j);
    ShapeSizes(net, n, m, stay, edit);
    RightTurnDet(net, net.det[j + 1 := Some(j)], n, m, stay, edit, j, src, end);
    ShapeTurn(net, n, m, stay, edit, j, c);
    hide Shape, RightDet;
    var net', o := Overriding(net, j, c), RightTodo(m, j + 1, end);
    assert net'.det == net.det[j + 1 := Some(j)];
    assert net'.cons == if o.Some? then net.cons[j := c][o.value := Off(net.cons[o.value])] else net.cons[j := c];
    hide Overriding;
    assert forall d: nat :: m <= d < |net.cons| && o != Some(d) ==> net'.cons[d] == net.cons[d];
  }

  lemma EqualityAt(net: Net, n: nat, m: nat, stay: bool, edit: bool, i: nat)
    requires Shape(net, n, m, stay, edit) && i < m
    ensures m <= |net.cons| && IsEq(net.cons[i], i)
  {}

  lemma ShapeSizes(net: Net, n: nat, m: nat, stay: bool, edit: bool)
    requires Shape(net, n, m, stay, edit)
    ensures m <= n && |net.det| == |net.lists| == n + 1 && m <= |net.cons| && (stay ==> m == n < |net.cons|)
        && (edit ==> n + 1 < |net.cons|)
    ensures (stay ==> Unary(net.cons[n])) && (edit ==> Unary(net.cons[n + 1]))
  {}

  /** The equality that waits turns forward, and the next one is overridden. */
  lemma RightStep(f: Frame, g: Frame, n: nat, m: nat, stay: bool, edit: bool, j: nat, src: Option<nat>,
                  end: Option<nat>, mark: int, k: nat)
    requires RightNet(NetOf(f.vars, f.cons), n, m, stay, edit, j, src, end) && j < m && f.todo == Some(j)
    requires FrameStep(f, g, mark) && MarkedTo(f.vars, mark, k)
        && (k == j + 1 || (k == 0 && f.vars[j].walk <= f.vars[j + 1].walk))
    requires f.vars[j + 1].walk > REQUIRED && (end.Some? ==> stay && end == Some(n) && m == n)
    ensures RightNet(NetOf(g.vars, g.cons), n, m, stay, edit, j + 1, src, end) && g.todo == RightTodo(m, j + 1, end)
    ensures k == j + 1 ==> MarkedTo(g.vars, mark, j + 2)
  {
    var net := NetOf(f.vars, f.cons);
    EqualityAt(net, n, m, stay, edit, j);
    ShapeSizes(net, n, m, stay, edit);
    hide RightNet, Settled;
    var c := Chosen(f.vars, f.cons[j], mark);
    assert c == f.cons[j].(dir := Forward);
    RightTurn(net, n, m, stay, edit, j, src, end, c);
  }

  /** No equality that waits on the way right is stuck. */
  lemma RightOpen(f: Frame, n: nat, m: nat, stay: bool, edit: bool, j: nat, src: Option<nat>, end: Option<nat>,
                  mark: int, k: nat)
    requires RightNet(NetOf(f.vars, f.cons), n, m, stay, edit, j, src, end) && j < m && f.todo == Some(j)
    requires MarkedTo(f.vars, mark, k) && k <= j + 1 && f.vars[j + 1].walk > REQUIRED
    ensures !Stuck(f, mark)
  {
    assert IsEq(f.cons[j], j);
    assert KnownCon(f.vars, f.cons[j]) && Open(f.vars, f.cons[j], mark, j + 1);
  }

  // ── Data flowing left ─────────────────────────────────────────────

  /**
   * The equalities from j on compute leftward from the stay on n, the one before is off, the rest compute
   * rightward.
   */
  ghost predicate LeftNet(net: Net, n: nat, j: nat)
  {
    && Shape(net, n, n, true, false) && j <= n
    && (forall i: nat :: i < n ==>
       net.cons[i].dir == if i >= j then Backward else if i + 1 == j then Unset else Forward)
    && (forall v: nat :: v <= n ==> net.det[v] == LeftDet(n, j, v))
    && net.cons[n].satisfied && forall c: nat :: n < c < |net.cons| ==> !Sat(net.cons[c])
  }

  function LeftDet(n: nat, j: nat, v: nat): Option<nat>
  {
    if v >= j then Some(v) else if v == 0 then None else Some(v - 1)
  }

  function LeftTodo(j: nat): Option<nat> { if j == 0 then None else Some(j - 1) }

  ghost predicate MarkedFrom(vars: seq<Var>, mark: int, k: nat)
  {
    forall v: nat :: v < |vars| ==> (vars[v].mark == mark <==> v >= k)
  }

  lemma LeftTurn(net: Net, n: nat, j: nat, c: Con)
    requires LeftNet(net, n, j) && j > 0 && c == net.cons[j - 1].(dir := Backward)
    ensures Output(c) == j - 1 && net.det[j - 1] == LeftTodo(j - 1)
    ensures LeftNet(Overriding(net, j - 1, c), n, j - 1)
  {
    EqualityAt(net, n, n, true, false, j - 1);
    assert net.det[j - 1] == LeftDet(n, j, j - 1);
    ShapeTurn(net, n, n, true, false, j - 1, c);
    ShapeSizes(net, n, n, true, false);
    hide Shape;
    var net' := Overriding(net, j - 1, c);
    assert net'.det == net.det[j - 1 := Some(j - 1)];
    forall v: nat | v <= n ensures net'.det[v] == LeftDet(n, j - 1, v) { assert net.det[v] == LeftDet(n, j, v); }
    assert net'.cons == if j > 1 then net.cons[j - 1 := c][j - 2 := Off(net.cons[j - 2])] else net.cons[j - 1 := c];
    hide Overriding, LeftDet;
    assert forall d: nat :: n <= d < |net.cons| ==> net'.cons[d] == net.cons[d];
  }

  /** The equality that waits turns backward, and the one before is overridden. */
  lemma LeftStep(f: Frame, g: Frame, n: nat, j: nat, mark: int)
    requires LeftNet(NetOf(f.vars, f.cons), n, j) && j > 0 && f.todo == Some(j - 1)
    requires FrameStep(f, g, mark) && MarkedFrom(f.vars, mark, j) && f.vars[j - 1].walk > REQUIRED
    ensures LeftNet(NetOf(g.vars, g.cons), n, j - 1) && g.todo == LeftTodo(j - 1) && MarkedFrom(g.vars, mark, j - 1)
  {
    var net := NetOf(f.vars, f.cons);
    EqualityAt(net, n, n, true, false, j - 1);
    ShapeSizes(net, n, n, true, false);
    hide LeftNet, Settled;
    var c := Chosen(f.vars, f.cons[j - 1], mark);
    assert c == f.cons[j - 1].(dir := Backward);
    LeftTurn(net, n, j, c);
  }

  lemma LeftOpen(f: Frame, n: nat, j: nat, mark: int)
    requires LeftNet(NetOf(f.vars, f.cons), n, j) && j > 0 && f.todo == Some(j - 1)
    requires MarkedFrom(f.vars, mark, j) && f.vars[j - 1].walk > REQUIRED
    ensures !Stuck(f, mark)
  {
    assert IsEq(f.cons[j - 1], j - 1);
    assert KnownCon(f.vars, f.cons[j - 1]) && Open(f.vars, f.cons[j - 1], mark, j - 1);
  }

  /** A stay put on the free end takes it over. */
  lemma LeftStart(f: Frame, g: Frame, n: nat, mark: int)
    requires RightNet(NetOf(f.vars, f.cons), n, n, true, false, n, None, None) && f.todo == Some(n)
    requires FrameStep(f, g, mark) && MarkedTo(f.vars, mark, 0) && f.vars[n].walk > STRONG_DEFAULT
    ensures LeftNet(NetOf(g.vars, g.cons), n, n) && g.todo == LeftTodo(n) && MarkedFrom(g.vars, mark, n)
  {
    var net, net' := NetOf(f.vars, f.cons), NetOf(g.vars, g.cons);
    var c := Chosen(f.vars, f.cons[n], mark);
    assert c == f.cons[n].(satisfied := true);
    assert net' == Overriding(net, n, c);
    assert net.det[n] == RightDet(n, n, None, None, n);
    StayTakes(net, n, c);
  }

  lemma StayTakes(net: Net, n: nat, c: Con)
    requires RightNet(net, n, n, true, false, n, None, None) && c == net.cons[n].(satisfied := true)
    ensures LeftNet(Overriding(net, n, c), n, n)
  {
    assert net.det[n] == RightDet(n, n, None, None, n);
    ShapeTurn(net, n, n, true, false, n, c);
    OverridingAt(net, n, c);
    ShapeSizes(net, n, n, true, false);
    StayAt(net, n, n, true, false);
    hide Shape, Overriding;
    var net' := Overriding(net, n, c);
    forall v: nat | v <= n ensures net'.det[v] == LeftDet(n, n, v) {
      assert net.det[v] == RightDet(n, n, None, None, v);
    }
  }

  lemma StayAt(net: Net, n: nat, m: nat, stay: bool, edit: bool)
    requires Shape(net, n, m, stay, edit)
    ensures stay ==> n < |net.cons| && IsStay(net.cons[n], n)
    ensures edit ==> n + 1 < |net.cons| && IsEdit(net.cons[n + 1])
  {}

  /** An edit, stronger than the stay, takes over the other end. */
  lemma RightStart(f: Frame, g: Frame, n: nat, mark: int)
    requires Edited(NetOf(f.vars, f.cons), n) && f.todo == Some(n + 1)
    requires FrameStep(f, g, mark) && MarkedTo(f.vars, mark, 0) && f.vars[0].walk > PREFERRED
    ensures RightNet(NetOf(g.vars, g.cons), n, n, true, true, 0, Some(n + 1), Some(n))
    ensures g.todo == RightTodo(n, 0, Some(n)) && MarkedTo(g.vars, mark, 1)
  {
    var net, net' := NetOf(f.vars, f.cons), NetOf(g.vars, g.cons);
    var c := Chosen(f.vars, f.cons[n + 1], mark);
    assert c == f.cons[n + 1].(satisfied := true);
    assert net' == Overriding(net, n + 1, c);
    assert net.det[0] == Some(0);
    EditTakes(net, n, c);
  }

  lemma EditTakes(net: Net, n: nat, c: Con)
    requires Edited(net, n) && c == net.cons[n + 1].(satisfied := true)
    ensures RightNet(Overriding(net, n + 1, c), n, n, true, true, 0, Some(n + 1), Some(n))
  {
    assert net.det[0] == Some(0);
    ShapeTurn(net, n, n, true, true, n + 1, c);
    OverridingAt(net, n + 1, c);
    ShapeSizes(net, n, n, true, true);
    StayAt(net, n, n, true, true);
    hide Shape, Overriding;
    var net' := Overriding(net, n + 1, c);
    forall v: nat | v <= n ensures net'.det[v] == RightDet(n, 0, Some(n + 1), Some(n), v) {
      assert net.det[v] == Some(v);
    }
  }

  /** The chain flows left from its stay, and an edit has just been listed. */
  ghost predicate Edited(net: Net, n: nat)
  {
    && Shape(net, n, n, true, true)
    && (forall i: nat :: i < n ==> net.cons[i].dir == Backward)
    && (forall v: nat :: v <= n ==> net.det[v] == Some(v))
    && net.cons[n].satisfied && forall c: nat :: n < c < |net.cons| ==> !Sat(net.cons[c])
  }
}
