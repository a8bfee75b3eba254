/** A chain driven from its first variable: the plan for the edit, what the plan does, and taking the edit away. */
module DeltaBlueDrive {
  import opened DeltaBlueChain
  import opened DeltaBlueGrow
  import opened DeltaBlueNet
  import opened DeltaBluePlan
  import opened DeltaBlueRuns
  import opened DeltaBlueShrink
  import opened DeltaBlueSteps
  import opened Options

  // ── The chain takes shape ─────────────────────────────────────────

  function EqualityOf(m: nat): Con { Con(Equality, REQUIRED, m, m + 1, Unset, false) }
  function StayOn(n: nat): Con { Con(Stay, STRONG_DEFAULT, n, n, Unset, false) }
  function EditOf(): Con { Con(Edit, PREFERRED, 0, 0, Unset, false) }

  /** A new unsatisfied constraint leaves everything settled and nothing marked. */
  lemma FirstFrame(vars: seq<Var>, cons: seq<Con>, k: Con, mark: int)
    requires Matched(NetOf(vars, cons)) && Acyclic(NetOf(vars, cons)) && FreshBut(vars, cons, [])
        && MarksBelow(vars, mark - 1)
    requires KnownCon(vars, k) && !Sat(k)
    ensures Settled(Frame(Enlisted(vars, k, |cons|), cons + [k], Some(|cons|)))
        && MarkedTo(Enlisted(vars, k, |cons|), mark, 0)
  {
    hide Matched, Acyclic, FreshBut, Enlisted, Listed, Longer;
    EnlistedLonger(vars, k, |cons|);
    ConstraintAdded(vars, cons, k, Enlisted(vars, k, |cons|));
    EnlistedMarks(vars, k, |cons|, mark - 1);
  }

  lemma EqualityJoins(vars: seq<Var>, cons: seq<Con>, n: nat, m: nat)
    requires Built(vars, cons, n, m) && m < n
    ensures var k := EqualityOf(m);
            KnownCon(vars, k) && RightNet(NetOf(Enlisted(vars, k, m), cons + [k]), n, m + 1, false, false, m, None,
              None)
  {
    var k := EqualityOf(m);
    var net, net' := NetOf(vars, cons), NetOf(Enlisted(vars, k, m), cons + [k]);
    forall i: nat | i < m + 1 ensures IsEq(net'.cons[i], i) { if i < m { assert IsEq(net.cons[i], i); } }
    forall v: nat | v <= n
        ensures net'.lists[v] == ListOf(n, m + 1, false, false, v) && net'.det[v] == RightDet(m + 1, m, None, None, v) {
      assert net.lists[v] == ListOf(n, m, false, false, v) && net.det[v] == RightDet(m, m, None, None, v);
    }
  }

  lemma StayJoins(vars: seq<Var>, cons: seq<Con>, n: nat)
    requires Built(vars, cons, n, n)
    ensures var k := StayOn(n);
            KnownCon(vars, k) && RightNet(NetOf(Enlisted(vars, k, n), cons + [k]), n, n, true, false, n, None, None)
  {
    var k := StayOn(n);
    var net, net' := NetOf(vars, cons), NetOf(Enlisted(vars, k, n), cons + [k]);
    forall i: nat | i < n ensures IsEq(net'.cons[i], i) { assert IsEq(net.cons[i], i); }
    forall v: nat | v <= n
        ensures net'.lists[v] == ListOf(n, n, true, false, v) && net'.det[v] == RightDet(n, n, None, None, v) {
      assert net.lists[v] == ListOf(n, n, false, false, v) && net.det[v] == RightDet(n, n, None, None, v);
    }
  }

  lemma EditJoins(vars: seq<Var>, cons: seq<Con>, n: nat)
    requires Held(vars, cons, n) && |cons| == n + 1
    ensures var k := EditOf();
            KnownCon(vars, k) && Edited(NetOf(Enlisted(vars, k, n + 1), cons + [k]), n)
  {
    var k := EditOf();
    var net, net' := NetOf(vars, cons), NetOf(Enlisted(vars, k, n + 1), cons + [k]);
    forall i: nat | i < n ensures IsEq(net'.cons[i], i) { assert IsEq(net.cons[i], i); }
    forall v: nat | v <= n ensures net'.lists[v] == ListOf(n, n, true, true, v) && net'.det[v] == Some(v) {
      assert net.lists[v] == ListOf(n, n, true, false, v) && net.det[v] == LeftDet(n, 0, v);
    }
  }

  // ── What consumes a variable of the chain ─────────────────────────

  lemma {:induction false} ConsumingConcat(net: Net, det: Option<nat>, a: seq<nat>, b: seq<nat>)
    ensures Consuming(net, det, a + b) == Consuming(net, det, a) + Consuming(net, det, b)
  {
    if b == [] {
      assert a + b == a;
    } else {
      var l := |b| - 1;
      assert (a + b)[..|a + b| - 1] == a + b[..l];
      ConsumingConcat(net, det, a, b[..l]);
      ConsumingLast(net, det, a + b, b[l]);
      ConsumingLast(net, det, b, b[l]);
      var x := if det != Some(b[l]) && SatAt(net, b[l]) then [b[l]] else [];
      assert Consuming(net, det, a) + (Consuming(net, det, b[..l]) + x) == Consuming(net, det, a) + Consuming(net, det,
          b[..l]) + x;
    }
  }

  /** The chain flows right to its end, past a stay that is off. */
  ghost predicate Rightward(net: Net, n: nat, edit: bool)
  {
    RightNet(net, n, n, true, edit, n, if edit then Some(n + 1) else None, if edit then Some(n) else None)
  }

  /** The list of v in four parts, what determines v, and which of the parts are satisfied. */
  lemma RightList(net: Net, n: nat, edit: bool, v: nat)
    requires Rightward(net, n, edit) && v <= n
    ensures |net.lists| == |net.det| == n + 1
    ensures net.lists[v] == (if 1 <= v <= n then [v - 1] else []) + (if v < n then [v] else [])
                            + (if v == n then [n] else []) + (if edit && v == 0 then [n + 1] else [])
    ensures net.det[v] == if v > 0 then Some(v - 1) else if edit then Some(n + 1) else None
    ensures (v < n ==> SatAt(net, v)) && !SatAt(net, n)
  {
    RightParts(net, n, n, true, edit, n, if edit then Some(n + 1) else None, if edit then Some(n) else None);
    if v < n { EqualityAt(net, n, n, true, edit, v); }
  }

  /** Only the equality after v computes from v. */
  lemma RightConsumers(net: Net, n: nat, edit: bool, v: nat)
    requires Rightward(net, n, edit) && v <= n
    ensures |net.lists| == |net.det| == n + 1 && Consumers(net, v) == if v < n then [v] else []
  {
    hide Rightward, SatAt, Consuming;
    RightList(net, n, edit, v);
    var det := net.det[v];
    var a: seq<nat> := if 1 <= v <= n then [v - 1] else [];
    var b: seq<nat> := if v < n then [v] else [];
    var c: seq<nat> := if v == n then [n] else [];
    var d: seq<nat> := if edit && v == 0 then [n + 1] else [];
    ConsumingConcat(net, det, a + b + c, d);
    ConsumingConcat(net, det, a + b, c);
    ConsumingConcat(net, det, a, b);
    ConsumingOne(net, det, a);
    ConsumingOne(net, det, b);
    ConsumingOne(net, det, c);
    ConsumingOne(net, det, d);
  }

  lemma ConsumingOne(net: Net, det: Option<nat>, a: seq<nat>)
    requires |a| <= 1
    ensures Consuming(net, det, a) == if a != [] && det != Some(a[0]) && SatAt(net, a[0]) then a else []
  {
    if a != [] {
      ConsumingLast(net, det, a, a[0]);
      assert a[..0] == [] && a == [a[0]];
    }
  }

  lemma RightwardAt(net: Net, n: nat, edit: bool, v: nat)
    requires Rightward(net, n, edit) && v < n
    ensures SatAt(net, v) && IsEq(net.cons[v], v) && net.cons[v].dir == Forward && Output(net.cons[v]) == v + 1
    ensures |net.lists| == |net.det| == n + 1
  {
    EqualityAt(net, n, n, true, edit, v);
  }

  // ── The plan ──────────────────────────────────────────────────────

  /** The equalities from v on, in order. */
  function Along(v: nat, n: nat): (s: seq<nat>)
    requires v <= n
    ensures |s| == n - v && forall i: nat :: i < n - v ==> s[i] == v + i
  {
    seq(n - v, i requires 0 <= i => v + i)
  }

  lemma AlongStep(v: nat, n: nat)
    requires v < n
    ensures Along(v, n) == [v] + Along(v + 1, n) && Along(v, n)[1..] == Along(v + 1, n)
  {}

  lemma {:induction false} PlanAlong(net: Net, n: nat, free: set<nat>, rank: seq<nat>, top: nat, done: set<nat>, v: nat)
    requires Rightward(net, n, true) && Bounded(net, rank, top, {}) && v < n
    requires forall u: nat :: u in done <==> u <= v
    ensures SatAt(net, v) && PlanOf(net, free, rank, top, done, [v]) == Along(v, n)
    decreases n - v
  {
    hide Rightward, Bounded, QueueCost, Consumers;
    RightwardAt(net, n, true, v);
    RightConsumers(net, n, true, v + 1);
    assert [v][1..] == [];
    TurnCost(net, rank, top, {}, v, []);
    var done' := done + {v + 1};
    AlongStep(v, n);
    if v + 1 < n {
      PlanAlong(net, n, free, rank, top, done', v + 1);
      assert [] + [v + 1] == [v + 1];
    } else {
      assert [] + Consumers(net, v + 1) == [];
    }
  }

  /** The plan for the edit runs the equalities from left to right. */
  lemma EditPlan(net: Net, n: nat, free: set<nat>, rank: seq<nat>, top: nat)
    requires Rightward(net, n, true) && Bounded(net, rank, top, {})
    ensures SatAt(net, n + 1) && PlanOf(net, free, rank, top, {}, [n + 1]) == [n + 1] + Along(0, n)
  {
    assert SatAt(net, n + 1) && Output(net.cons[n + 1]) == 0 && Unary(net.cons[n + 1]) by {
      RightParts(net, n, n, true, true, n, Some(n + 1), Some(n));
    }
    RightConsumers(net, n, true, 0);
    hide Rightward, Bounded, QueueCost, Consumers;
    assert [n + 1][1..] == [];
    TurnCost(net, rank, top, {}, n + 1, []);
    assert {} + {0} == {0};
    if n > 0 {
      PlanAlong(net, n, free, rank, top, {0}, 0);
      assert [] + [0] == [0];
    } else {
      assert [] + Consumers(net, 0) == [];
    }
  }

  // ── Running it ────────────────────────────────────────────────────

  /** Running the equalities from v on copies the value of v to the end. */
  lemma {:induction false} RanAlong(vars: seq<Var>, cons: seq<Con>, n: nat, v: nat)
    requires |vars| == n + 1 && n <= |cons| && v <= n
    requires forall i: nat :: i < n ==> IsEq(cons[i], i) && cons[i].dir == Forward
    ensures PlanKnown(|vars|, cons, Along(v, n)) && CanRun(vars, cons, Along(v, n))
    ensures Ran(vars, cons, Along(v, n))[n].value == vars[v].value
    decreases n - v
  {
    AlongKnown(cons, n, v);
    if v < n {
      AlongStep(v, n);
      assert IsEq(cons[v], v);
      RanAlong(Executed(vars, cons[v]), cons, n, v + 1);
    }
  }

  lemma AlongKnown(cons: seq<Con>, n: nat, v: nat)
    requires n <= |cons| && v <= n && forall i: nat :: i < n ==> IsEq(cons[i], i)
    ensures PlanKnown(n + 1, cons, Along(v, n))
  {
    var p := Along(v, n);
    forall i: nat | i < |p| ensures p[i] < |cons| && ConInRange(cons[p[i]], n + 1) { assert IsEq(cons[p[i]], p[i]); }
  }

  /** The plan for the edit carries the first variable's value to the last. */
  lemma EditRuns(vars: seq<Var>, cons: seq<Con>, n: nat)
    requires Driven(vars, cons, n)
    ensures var plan := [n + 1] + Along(0, n);
            && PlanKnown(|vars|, cons, plan) && CanRun(vars, cons, plan)
            && |vars| == n + 1 && Ran(vars, cons, plan)[n].value == vars[0].value
  {
    var plan, net := [n + 1] + Along(0, n), NetOf(vars, cons);
    RightParts(net, n, n, true, true, n, Some(n + 1), Some(n));
    forall i: nat | i < n ensures IsEq(cons[i], i) && cons[i].dir == Forward { EqualityAt(net, n, n, true, true, i); }
    hide RightNet, Shape;
    AlongKnown(cons, n, 0);
    assert plan[1..] == Along(0, n);
    forall i: nat | i < |plan| ensures plan[i] < |cons| && ConInRange(cons[plan[i]], n + 1) {
      if i > 0 { assert plan[i] == Along(0, n)[i - 1]; }
    }
    assert Executed(vars, cons[n + 1]) == vars;
    RanAlong(vars, cons, n, 0);
  }

  /** While the edit drives the chain no variable is constant. */
  lemma {:induction false} DrivenMoves(vars: seq<Var>, cons: seq<Con>, n: nat, v: nat)
    requires Driven(vars, cons, n) && FreshBut(vars, cons, []) && v <= n
    ensures |vars| == n + 1 && !vars[v].stay
  {
    var net := NetOf(vars, cons);
    if v == 0 {
      RightParts(net, n, n, true, true, n, Some(n + 1), Some(n));
      assert Fresh(vars, cons[n + 1]);
    } else {
      DrivenMoves(vars, cons, n, v - 1);
      RightwardAt(net, n, true, v - 1);
      assert Fresh(vars, cons[v - 1]);
    }
  }

  // ── Taking the edit away ──────────────────────────────────────────

  /** Without the edit the chain still flows right, but nothing drives it. */
  lemma EditGone(vars: seq<Var>, cons: seq<Con>, n: nat)
    requires Driven(vars, cons, n)
    ensures n + 1 < |cons|
        && Rightward(NetOf(Removed(vars, cons[n + 1], n + 1), cons[n + 1 := Off(cons[n + 1])]), n, false)
  {
    var net := NetOf(vars, cons);
    RightParts(net, n, n, true, true, n, Some(n + 1), Some(n));
    var net' := NetOf(Removed(vars, cons[n + 1], n + 1), cons[n + 1 := Off(cons[n + 1])]);
    forall i: nat | i < n ensures IsEq(net'.cons[i], i) && net'.cons[i].dir == Forward {
      EqualityAt(net, n, n, true, true, i);
    }
    forall v: nat | v <= n
      ensures net'.lists[v] == ListOf(n, n, true, false, v) && net'.det[v] == RightDet(n, n, None, None, v)
    {
      GoneAt(vars, cons, n, v);
    }
    hide Removed, ListOf, RightDet, IsEq;
  }

  /** What the removal leaves of one variable. */
  lemma GoneAt(vars: seq<Var>, cons: seq<Con>, n: nat, v: nat)
    requires Driven(vars, cons, n) && v <= n
    ensures |vars| == n + 1 && n + 1 < |cons|
    ensures var r := Removed(vars, cons[n + 1], n + 1);
            r[v].constraints == ListOf(n, n, true, false, v) && r[v].determinedBy == RightDet(n, n, None, None, v)
  {
    var net := NetOf(vars, cons);
    RightParts(net, n, n, true, true, n, Some(n + 1), Some(n));
    assert net.lists[v] == ListOf(n, n, true, true, v) && net.det[v] == RightDet(n, n, Some(n + 1), Some(n), v);
    hide RightNet, Shape;
    if v == 0 {
      var l := ListOf(n, n, true, false, v);
      assert vars[0].constraints == l + [n + 1];
      DroppedLast(l, n + 1);
    }
  }

  lemma DroppedLast(l: seq<nat>, c: nat)
    requires c !in l
    ensures Without(l + [c], c) == l
  {
    assert (l + [c])[..|l|] == l;
    WithoutTwice(l, c);
  }

  function Upto(k: nat): (s: seq<nat>)
    ensures |s| == k && forall i: nat :: i < k ==> s[i] == i
  {
    seq(k, i => i)
  }

  function After(k: nat): (s: seq<nat>)
    ensures |s| == k && forall i: nat :: i < k ==> s[i] == i + 1
  {
    seq(k, i => i + 1)
  }

  lemma UptoStep(k: nat)
    requires k > 0
    ensures Upto(k)[..k - 1] == Upto(k - 1) && Upto(k) == Upto(k - 1) + [k - 1] && After(k) == After(k - 1) + [k]
  {}

  /** Visiting the first k variables sends on to the next ones. */
  lemma {:induction false} SpawnUpto(net: Net, n: nat, k: nat)
    requires Rightward(net, n, false) && k <= n + 1
    ensures |net.lists| == |net.det| == n + 1
    ensures SpawnAll(net, Upto(k)) == After(if k <= n then k else n)
  {
    hide Rightward, Spawn, Upto, After;
    RightConsumers(net, n, false, 0);
    if k > 0 {
      SpawnUpto(net, n, k - 1);
      UptoStep(k);
      if k <= n { SpawnAt(net, n, k - 1); } else { SpawnAt(net, n, n); }
    }
  }

  /** Before the stay no unsatisfied constraint is met. */
  lemma {:induction false} UnsatUpto(net: Net, n: nat, k: nat)
    requires Rightward(net, n, false) && k <= n + 1
    ensures |net.lists| == n + 1 && UnsatAll(net, Upto(k)) == if k <= n then [] else [n]
  {
    hide Rightward, UnsatIn;
    RightConsumers(net, n, false, 0);
    if k > 0 {
      UnsatUpto(net, n, k - 1);
      assert Upto(k)[..k - 1] == Upto(k - 1);
      UnsatAt(net, n, k - 1);
    }
  }

  lemma SpawnAt(net: Net, n: nat, v: nat)
    requires Rightward(net, n, false) && v <= n
    ensures |net.lists| == |net.det| == n + 1 && Spawn(net, v) == if v < n then [v + 1] else []
  {
    hide Rightward, Consumers;
    RightConsumers(net, n, false, v);
    if v < n { RightwardAt(net, n, false, v); }
  }

  lemma UnsatAt(net: Net, n: nat, v: nat)
    requires Rightward(net, n, false) && v <= n
    ensures |net.lists| == n + 1 && UnsatIn(net, net.lists[v]) == if v < n then [] else [n]
  {
    RightParts(net, n, n, true, false, n, None, None);
    var a := if v > 0 then [v - 1] else [];
    var b := if v < n then [v] else [n];
    assert net.lists[v] == a + b && (a + b)[..|a + b| - 1] == a;
    if v > 0 { EqualityAt(net, n, n, true, false, v - 1); }
    if v < n { EqualityAt(net, n, n, true, false, v); }
    assert v > 0 ==> Sat(net.cons[v - 1]);
    assert v < n ==> Sat(net.cons[v]);
    hide RightNet, Shape, ListOf;
    assert a != [] ==> a[..0] == [];
    assert UnsatIn(net, a) == [];
  }

  /** Only the first visits count for what they send on. */
  lemma {:induction false} SpawnPrefix(net: Net, a: seq<nat>, b: seq<nat>)
    requires |net.lists| == |net.det| && (forall i: nat :: i < |a + b| ==> (a + b)[i] < |net.lists|)
    requires forall i: nat :: i < |a| ==> a[i] < |net.lists|
    ensures SpawnAll(net, a) <= SpawnAll(net, a + b)
    decreases |b|
  {
    hide Spawn;
    if b == [] {
      assert a + b == a;
    } else {
      var l := |b| - 1;
      assert (a + b)[..|a + b| - 1] == a + b[..l];
      SpawnPrefix(net, a, b[..l]);
    }
  }

  lemma VisitingIs(net: Net, visited: seq<nat>, k: nat)
    requires Visiting(net, 0, visited, [])
    ensures |net.lists| == |net.det| && (forall i: nat :: i < |visited| ==> visited[i] < |net.lists|)
    ensures visited == [0] + SpawnAll(net, visited)
    ensures k < |visited| ==>
        (forall i: nat :: i < k ==> visited[..k][i] < |net.lists|) && k < 1 + |SpawnAll(net, visited[..k])|
  {
    hide SpawnAll;
    assert visited + [] == visited;
    if k < |visited| { assert Caused(net, visited, k); }
  }

  /** The visits walk the chain from its first variable. */
  lemma {:induction false} VisitsWalk(net: Net, n: nat, visited: seq<nat>, k: nat)
    requires Rightward(net, n, false) && Visiting(net, 0, visited, []) && k <= n + 1
    ensures k <= |visited| && visited[..k] == Upto(k)
  {
    hide Rightward, SpawnAll, Visiting, Upto, After;
    VisitingIs(net, visited, k);
    if k > 0 {
      VisitsWalk(net, n, visited, k - 1);
      SpawnUpto(net, n, k - 1);
      assert visited == visited[..k - 1] + visited[k - 1..];
      SpawnPrefix(net, visited[..k - 1], visited[k - 1..]);
      WalkOn(visited, SpawnAll(net, visited), k);
    }
  }

  lemma WalkOn(visited: seq<nat>, s: seq<nat>, k: nat)
    requires 0 < k <= |visited| + 1 && visited == [0] + s && After(k - 1) <= s && visited[..k - 1] == Upto(k - 1)
    ensures k <= |visited| && visited[..k] == Upto(k)
  {
    assert k > 1 ==> visited[k - 1] == s[k - 2] && s[k - 2] == After(k - 1)[k - 2];
    assert visited[..k] == visited[..k - 1] + [visited[k - 1]];
    UptoStep(k);
  }

  /** Removing the edit visits every variable once and meets only the stay. */
  lemma VisitsAll(net: Net, n: nat, visited: seq<nat>)
    requires Rightward(net, n, false) && Visiting(net, 0, visited, [])
    ensures visited == Upto(n + 1) && UnsatAll(net, visited) == [n]
  {
    hide Rightward, SpawnAll, UnsatAll, Visiting;
    VisitsWalk(net, n, visited, n + 1);
    SpawnUpto(net, n, n + 1);
    UnsatUpto(net, n, n + 1);
    VisitingIs(net, visited, n + 1);
    assert visited == visited[..n + 1];
  }

  /** Detaching the edit succeeds and leaves the stay to satisfy on a free chain. */
  lemma EditDetached(vars: seq<Var>, cons: seq<Con>, n: nat, outcome: Outcome, unsat: seq<nat>, visited: seq<nat>,
                     f: Frame)
    requires Driven(vars, cons, n) && n + 1 < |cons| && Detached(vars, cons, n + 1, outcome, unsat, visited, f)
    ensures outcome == Fine && unsat == [n] && Settled(f) && MarksSameAs(vars, f.vars)
    ensures RightNet(NetOf(f.vars, f.cons), n, n, true, false, n, None, None)
  {
    hide Rightward, Removed, Visiting, Settled, Acyclic, SpawnAll, UnsatAll, RightNet, HasScale, MarksSameAs;
    var net := NetOf(vars, cons);
    RightParts(net, n, n, true, true, n, Some(n + 1), Some(n));
    NoScale(net, n, n, true, true);
    EditGone(vars, cons, n);
    var net' := NetOf(Removed(vars, cons[n + 1], n + 1), cons[n + 1 := Off(cons[n + 1])]);
    if outcome != DividedByZero { VisitsAll(net', n, visited); }
    RightwardIs(net', n);
  }

  lemma RightwardIs(net: Net, n: nat)
    requires Rightward(net, n, false)
    ensures RightNet(net, n, n, true, false, n, None, None)
  {}
}
