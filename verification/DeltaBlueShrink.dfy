/** Adding constraints to the network's lists and removing them again. */
module DeltaBlueShrink {
  import opened DeltaBlueGrow
  import opened DeltaBlueNet
  import opened DeltaBlueSteps
  import opened Options

  // ── Variables and lists grow ──────────────────────────────────────

  function NewVariable(value: int): Var { Var(value, [], None, 0, WEAKEST, true) }

  lemma VariableAdded(vars: seq<Var>, cons: seq<Con>, value: int)
    requires Matched(NetOf(vars, cons)) && Acyclic(NetOf(vars, cons)) && FreshBut(vars, cons, [])
    ensures var vars' := vars + [NewVariable(value)];
            Matched(NetOf(vars', cons)) && Acyclic(NetOf(vars', cons)) && FreshBut(vars', cons, [])
  {
    VariableMatched(vars, cons, value);
    VariableAcyclic(vars, cons, value);
    var vars' := vars + [NewVariable(value)];
    forall d: nat | d < |cons| && Sat(cons[d]) ensures Fresh(vars', cons[d]) { FreshPrefix(vars, vars', cons[d]); }
  }

  lemma FreshPrefix(vars: seq<Var>, vars': seq<Var>, k: Con)
    requires Fresh(vars, k) && |vars| <= |vars'| && forall v: nat :: v < |vars| ==> vars'[v] == vars[v]
    ensures Fresh(vars', k)
  {}

  lemma VariableMatched(vars: seq<Var>, cons: seq<Con>, value: int)
    requires Matched(NetOf(vars, cons))
    ensures Matched(NetOf(vars + [NewVariable(value)], cons))
  {
    var vars' := vars + [NewVariable(value)];
    var n, n' := NetOf(vars, cons), NetOf(vars', cons);
    forall c: nat | c < |cons| ensures ConInRange(cons[c], |vars'|) { assert ConInRange(n.cons[c], |n.det|); }
    forall c: nat | c < |cons| && Listed(n, c) ensures Listed(n', c) {}
    forall c: nat | SatAt(n', c) ensures Listed(n', c) && n'.det[Output(cons[c])] == Some(c) { OutputKnown(n, c); }
    forall v: nat | v < |n'.det| && n'.det[v].Some?
        ensures SatAt(n', n'.det[v].value) && Output(cons[n'.det[v].value]) == v {
      DetKnown(n, v);
    }
  }

  lemma VariableAcyclic(vars: seq<Var>, cons: seq<Con>, value: int)
    requires Matched(NetOf(vars, cons)) && Acyclic(NetOf(vars, cons))
        && Matched(NetOf(vars + [NewVariable(value)], cons))
    ensures Acyclic(NetOf(vars + [NewVariable(value)], cons))
  {
    var n, n' := NetOf(vars, cons), NetOf(vars + [NewVariable(value)], cons);
    var rank := SomeRank(n);
    forall c: nat, v: nat | SatAt(n', c) && c !in {} && Feeds(cons[c], v)
      ensures v < |rank| && (rank + [0])[v] < (rank + [0])[Output(cons[c])]
    {
      FeedsKnown(n, c, v);
      RankAt(n, rank, {}, c, v);
    }
    assert RankedBut(n', rank + [0], {});
  }

  function Pushed(v: Var, c: nat): Var { v.(constraints := v.constraints + [c]) }

  /** c joins the lists of the variables k touches, once for every place k names it. */
  function Enlisted(vars: seq<Var>, k: Con, c: nat): (r: seq<Var>)
    requires KnownCon(vars, k)
    ensures |r| == |vars|
  {
    var a := vars[k.v1 := Pushed(vars[k.v1], c)];
    var b := if Unary(k) then a else a[k.v2 := Pushed(a[k.v2], c)];
    if k.kind.Scale? then
      var d := b[k.kind.scale := Pushed(b[k.kind.scale], c)];
      d[k.kind.offset := Pushed(d[k.kind.offset], c)]
    else b
  }

  /** Only lists differ, and only by c at their end, on the variables k touches. */
  ghost predicate Longer(vars: seq<Var>, vars': seq<Var>, k: Con, c: nat)
  {
    |vars'| == |vars| && forall v: nat :: v < |vars| ==>
      && vars'[v] == vars[v].(constraints := vars'[v].constraints)
      && forall d: nat :: d in vars'[v].constraints <==> d in vars[v].constraints || (d == c && Touches(k, v))
  }

  /** vars is vars0 with c added to the lists of the variables of at. */
  ghost predicate PushedOn(vars0: seq<Var>, vars: seq<Var>, c: nat, at: set<nat>)
  {
    |vars| == |vars0| && forall v: nat :: v < |vars| ==>
      && vars[v] == vars0[v].(constraints := vars[v].constraints)
      && forall d: nat :: d in vars[v].constraints <==> d in vars0[v].constraints || (d == c && v in at)
  }

  lemma PushOne(vars0: seq<Var>, vars: seq<Var>, c: nat, at: set<nat>, v: nat)
    requires PushedOn(vars0, vars, c, at) && v < |vars|
    ensures PushedOn(vars0, vars[v := Pushed(vars[v], c)], c, at + {v})
  {}

  lemma PushedAll(vars0: seq<Var>, vars: seq<Var>, k: Con, c: nat, at: set<nat>)
    requires PushedOn(vars0, vars, c, at) && forall v: nat :: v in at <==> Touches(k, v)
    ensures Longer(vars0, vars, k, c)
  {}

  lemma EnlistedLonger(vars: seq<Var>, k: Con, c: nat)
    requires KnownCon(vars, k)
    ensures Longer(vars, Enlisted(vars, k, c), k, c)
  {
    hide PushedOn, Longer, Pushed;
    var at: set<nat> := {};
    assert PushedOn(vars, vars, c, at) by { PushedNone(vars, c); }
    PushOne(vars, vars, c, at, k.v1);
    var a := vars[k.v1 := Pushed(vars[k.v1], c)];
    at := at + {k.v1};
    if !Unary(k) {
      PushOne(vars, a, c, at, k.v2);
      at := at + {k.v2};
    }
    var b := if Unary(k) then a else a[k.v2 := Pushed(a[k.v2], c)];
    if k.kind.Scale? {
      PushOne(vars, b, c, at, k.kind.scale);
      var d := b[k.kind.scale := Pushed(b[k.kind.scale], c)];
      PushOne(vars, d, c, at + {k.kind.scale}, k.kind.offset);
      at := at + {k.kind.scale} + {k.kind.offset};
    }
    PushedAll(vars, Enlisted(vars, k, c), k, c, at);
  }

  lemma PushedNone(vars: seq<Var>, c: nat)
    ensures PushedOn(vars, vars, c, {})
  {}

  /** A new unsatisfied constraint on the lists of what it touches changes nothing else. */
  lemma ConstraintAdded(vars: seq<Var>, cons: seq<Con>, k: Con, vars': seq<Var>)
    requires Matched(NetOf(vars, cons)) && Acyclic(NetOf(vars, cons)) && FreshBut(vars, cons, [])
    requires KnownCon(vars, k) && !Sat(k) && Longer(vars, vars', k, |cons|)
    ensures var cons' := cons + [k]; var n' := NetOf(vars', cons');
            Matched(n') && Acyclic(n') && FreshBut(vars', cons', []) && Listed(n', |cons|)
  {
    var cons' := cons + [k];
    var n, n' := NetOf(vars, cons), NetOf(vars', cons');
    forall c: nat | c < |cons'| ensures ConInRange(cons'[c], |vars'|) {
      if c < |cons| { assert ConInRange(n.cons[c], |n.det|); }
    }
    forall c: nat | c < |cons| && Listed(n, c) ensures Listed(n', c) {}
    forall c: nat ensures SatAt(n', c) <==> SatAt(n, c) {}
    forall c: nat | SatAt(n', c) ensures Listed(n', c) && n'.det[Output(cons'[c])] == Some(c) { OutputKnown(n, c); }
    forall v: nat | v < |n'.det| && n'.det[v].Some?
        ensures SatAt(n', n'.det[v].value) && Output(cons'[n'.det[v].value]) == v {
      DetKnown(n, v);
    }
    assert Listed(n', |cons|);
    forall v: nat, c: nat | v < |n'.lists| && c in n'.lists[v]
        ensures c < |cons'| && Touches(cons'[c], v) && Listed(n', c) {
      if c != |cons| { assert c in n.lists[v]; }
    }
    var rank := SomeRank(n);
    forall c: nat, v: nat | SatAt(n', c) && c !in {} && Feeds(cons'[c], v)
        ensures v < |rank| && rank[v] < rank[Output(cons'[c])] {
      OutputKnown(n, c);
      FeedsKnown(n, c, v);
      assert SatAt(n, c) && c !in {};
    }
    assert RankedBut(n', rank, {});
    forall d: nat | d < |cons'| && Sat(cons'[d]) ensures Fresh(vars', cons'[d]) {
      assert SatAt(n', d) && Fresh(vars, cons[d]);
      FreshContent(vars, vars', cons[d]);
    }
  }

  lemma EnlistedMarks(vars: seq<Var>, k: Con, c: nat, mark: int)
    requires KnownCon(vars, k) && MarksBelow(vars, mark)
    ensures MarksBelow(Enlisted(vars, k, c), mark)
  {
    EnlistedLonger(vars, k, c);
  }

  // ── Lists shrink ──────────────────────────────────────────────────

  function Without(list: seq<nat>, c: nat): seq<nat>
  {
    if list == [] then []
    else Without(list[..|list| - 1], c) + if list[|list| - 1] == c then [] else [list[|list| - 1]]
  }

  lemma {:induction false} WithoutHas(list: seq<nat>, c: nat, d: nat)
    ensures d in Without(list, c) <==> d in list && d != c
  {
    if list != [] { WithoutHas(list[..|list| - 1], c, d); }
  }

  function Dropped(v: Var, c: nat): Var
  {
    v.(constraints := Without(v.constraints, c),
       determinedBy := if v.determinedBy == Some(c) then None else v.determinedBy)
  }

  lemma {:induction false} WithoutTwice(list: seq<nat>, c: nat)
    ensures Without(Without(list, c), c) == Without(list, c)
    ensures c !in list ==> Without(list, c) == list
  {
    if list != [] {
      WithoutTwice(list[..|list| - 1], c);
      var w, x := Without(list[..|list| - 1], c), list[|list| - 1];
      if x != c { assert (w + [x])[..|w + [x]| - 1] == w; } else { assert Without(list, c) == w; }
    }
  }

  ghost function Removed(vars: seq<Var>, k: Con, c: nat): (r: seq<Var>)
    ensures |r| == |vars|
  {
    seq(|vars|, v requires 0 <= v < |vars| => if Touches(k, v) then Dropped(vars[v], c) else vars[v])
  }

  /** vars is vars0 with c dropped at the variables of at. */
  ghost predicate DroppedOn(vars0: seq<Var>, vars: seq<Var>, c: nat, at: set<nat>)
  {
    |vars| == |vars0| && forall v: nat :: v < |vars| ==> vars[v] == if v in at then Dropped(vars0[v], c) else vars0[v]
  }

  lemma DropOne(vars0: seq<Var>, vars: seq<Var>, c: nat, at: set<nat>, v: nat)
    requires DroppedOn(vars0, vars, c, at) && v < |vars|
    ensures DroppedOn(vars0, vars[v := Dropped(vars[v], c)], c, at + {v})
  {
    WithoutTwice(vars0[v].constraints, c);
  }

  lemma DroppedAll(vars0: seq<Var>, vars: seq<Var>, k: Con, c: nat, at: set<nat>)
    requires DroppedOn(vars0, vars, c, at) && forall v: nat :: v in at <==> Touches(k, v)
    ensures vars == Removed(vars0, k, c)
  {}

  /** With c off and off every list, what is left still matches and orders. */
  lemma RemovedMatched(vars: seq<Var>, cons: seq<Con>, c: nat)
    requires Matched(NetOf(vars, cons)) && Acyclic(NetOf(vars, cons)) && c < |cons|
    ensures var n' := NetOf(Removed(vars, cons[c], c), cons[c := Off(cons[c])]);
            Matched(n') && Acyclic(n') && forall v: nat :: v < |n'.lists| ==> c !in n'.lists[v] && n'.det[v] != Some(c)
  {
    var vars', cons' := Removed(vars, cons[c], c), cons[c := Off(cons[c])];
    var n, n' := NetOf(vars, cons), NetOf(vars', cons');
    ConKnown(n, c);
    forall v: nat, d: nat | v < |vars| ensures d in n'.lists[v] <==>
        d in n.lists[v] && (d != c || !Touches(cons[c], v)) {
      WithoutHas(n.lists[v], c, d);
    }
    forall v: nat | v < |vars| ensures c !in n'.lists[v] && n'.det[v] != Some(c) {
      if n.det[v] == Some(c) { DetKnown(n, v); }
    }
    forall d: nat | d < |cons'| ensures ConInRange(cons'[d], |vars'|) { ConKnown(n, d); }
    forall d: nat, v: nat | d < |cons| ensures Touches(cons'[d], v) <==> Touches(cons[d], v) {}
    forall d: nat | d < |cons| && Listed(n, d) && d != c ensures Listed(n', d) {}
    forall d: nat | SatAt(n', d) ensures Listed(n', d) && n'.det[Output(cons'[d])] == Some(d) { OutputKnown(n, d); }
    forall v: nat | v < |n'.det| && n'.det[v].Some?
        ensures SatAt(n', n'.det[v].value) && Output(cons'[n'.det[v].value]) == v {
      DetKnown(n, v);
    }
    var rank := SomeRank(n);
    forall d: nat, v: nat | SatAt(n', d) && d !in {} && Feeds(cons'[d], v)
        ensures v < |rank| && rank[v] < rank[Output(cons'[d])] {
      FeedsKnown(n, d, v);
      assert SatAt(n, d) && d !in {};
    }
    assert RankedBut(n', rank, {});
  }

  // ── Recomputing what a removed constraint left behind ─────────────

  /** Where the constraints q compute to. */
  function OutputsOf(n: Net, q: seq<nat>): (r: seq<nat>)
    requires forall i: nat :: i < |q| ==> q[i] < |n.cons|
    ensures |r| == |q| && forall i: nat :: i < |q| ==> r[i] == Output(n.cons[q[i]])
  {
    seq(|q|, i requires 0 <= i < |q| => Output(n.cons[q[i]]))
  }

  /** The outputs of the consumers of v. */
  function Spawn(n: Net, v: nat): seq<nat>
    requires v < |n.lists| == |n.det|
  {
    ConsumersKnown(n, v);
    OutputsOf(n, Consumers(n, v))
  }

  lemma ConsumersKnown(n: Net, v: nat)
    requires v < |n.lists| == |n.det|
    ensures forall i: nat :: i < |Consumers(n, v)| ==> SatAt(n, Consumers(n, v)[i])
  {
    var q := Consumers(n, v);
    forall i: nat | i < |q| ensures SatAt(n, q[i]) { ConsumingHas(n, n.det[v], n.lists[v], q[i]); }
  }

  /** The variables a visit of all of vs sends after them, in order. */
  function SpawnAll(n: Net, vs: seq<nat>): seq<nat>
    requires |n.lists| == |n.det| && forall i: nat :: i < |vs| ==> vs[i] < |n.lists|
  {
    if vs == [] then [] else SpawnAll(n, vs[..|vs| - 1]) + Spawn(n, vs[|vs| - 1])
  }

  function UnsatIn(n: Net, list: seq<nat>): seq<nat>
  {
    if list == [] then []
    else
      var c := list[|list| - 1];
      UnsatIn(n, list[..|list| - 1]) + if c < |n.cons| && !Sat(n.cons[c]) then [c] else []
  }

  lemma {:induction false} UnsatInHas(n: Net, list: seq<nat>, c: nat)
    ensures c in UnsatIn(n, list) <==> c in list && c < |n.cons| && !Sat(n.cons[c])
  {
    if list != [] { UnsatInHas(n, list[..|list| - 1], c); }
  }

  function UnsatAll(n: Net, vs: seq<nat>): seq<nat>
    requires forall i: nat :: i < |vs| ==> vs[i] < |n.lists|
  {
    if vs == [] then [] else UnsatAll(n, vs[..|vs| - 1]) + UnsatIn(n, n.lists[vs[|vs| - 1]])
  }

  lemma {:induction false} UnsatAllHas(n: Net, vs: seq<nat>, c: nat)
    requires Matched(n) && forall i: nat :: i < |vs| ==> vs[i] < |n.lists|
    ensures c in UnsatAll(n, vs) ==> c < |n.cons| && !Sat(n.cons[c]) && Listed(n, c)
  {
    hide Matched, Listed;
    if vs != [] {
      var v := vs[|vs| - 1];
      UnsatAllHas(n, vs[..|vs| - 1], c);
      UnsatInHas(n, n.lists[v], c);
      if c in n.lists[v] { ListedOn(n, v, c); }
    }
  }

  lemma ListedOn(n: Net, v: nat, c: nat)
    requires Matched(n) && v < |n.lists| && c in n.lists[v]
    ensures c < |n.cons| && Touches(n.cons[c], v) && Listed(n, c)
  {}

  /** Some variable still to visit is going to recompute d. */
  ghost predicate Awaits(n: Net, todo: seq<nat>, d: nat)
    requires |n.lists| == |n.det|
  {
    exists i: nat :: i < |todo| && todo[i] < |n.lists| && d in Consumers(n, todo[i])
  }

  /** Satisfied constraints are fresh, but for those in ds and those that todo will recompute. */
  ghost predicate FreshAfter(vars: seq<Var>, cons: seq<Con>, ds: seq<nat>, todo: seq<nat>)
  {
    && (forall d: nat :: d < |cons| && Sat(cons[d]) ==>
       d in ds || Awaits(NetOf(vars, cons), todo, d) || Fresh(vars, cons[d]))
    && (forall v: nat :: v < |vars| && vars[v].determinedBy.None? ==> vars[v].walk == WEAKEST && vars[v].stay)
  }

  /** Recomputing the first of ds sends its output after the rest. */
  lemma AfterStep(vars: seq<Var>, cons: seq<Con>, d: nat, ds: seq<nat>, todo: seq<nat>, vars': seq<Var>)
    requires Matched(NetOf(vars, cons)) && FreshAfter(vars, cons, [d] + ds, todo) && SatAt(NetOf(vars, cons), d)
    requires KnownCon(vars, cons[d]) && CanRecalculate(vars, cons[d]) && !Feeds(cons[d], Output(cons[d]))
    requires vars' == Recalculated(vars, cons[d])
    ensures FreshAfter(vars', cons, ds, todo + [Output(cons[d])]) && SameNet(vars, vars')
        && NetOf(vars, cons) == NetOf(vars', cons)
  {
    hide Recalculated, Fresh, Matched;
    var n, o := NetOf(vars, cons), Output(cons[d]);
    RecalculatedNet(vars, cons[d]);
    SameNetOf(vars, vars', cons);
    RecalculatedFresh(vars, cons[d]);
    OutputKnown(n, d);
    var todo' := todo + [o];
    forall j: nat | j < |cons| && Sat(cons[j]) ensures j in ds || Awaits(n, todo', j) || Fresh(vars', cons[j]) {
      if Awaits(n, todo, j) {
        var i: nat :| i < |todo| && todo[i] < |n.lists| && j in Consumers(n, todo[i]);
        assert todo'[i] == todo[i];
      } else if j != d && j !in ds {
        OutputKnown(n, j);
        ConsumersFeed(n, o, j);
        FeedsTouches(cons[j], o);
        if Feeds(cons[j], o) { assert todo'[|todo|] == o; } else { RecalculatedOthers(vars, cons[d], cons[j]); }
      }
    }
    FreeKept(vars, cons[d]);
    forall v: nat | v < |vars'| && vars'[v].determinedBy.None? ensures vars'[v].walk == WEAKEST && vars'[v].stay {
      assert SameVar(vars[v], vars'[v]);
    }
  }

  /** Starting to visit v: its consumers are next. */
  lemma AfterVisit(vars: seq<Var>, cons: seq<Con>, v: nat, rest: seq<nat>)
    requires FreshAfter(vars, cons, [], [v] + rest) && v < |vars|
    ensures FreshAfter(vars, cons, Consumers(NetOf(vars, cons), v), rest)
  {
    var n := NetOf(vars, cons);
    forall j: nat | j < |cons| && Sat(cons[j])
        ensures j in Consumers(n, v) || Awaits(n, rest, j) || Fresh(vars, cons[j]) {
      if Awaits(n, [v] + rest, j) {
        var i: nat :| i < |[v] + rest| && ([v] + rest)[i] < |n.lists| && j in Consumers(n, ([v] + rest)[i]);
        if i > 0 { assert rest[i - 1] == ([v] + rest)[i]; }
      }
    }
  }

  lemma AfterNone(vars: seq<Var>, cons: seq<Con>)
    requires FreshAfter(vars, cons, [], [])
    ensures FreshBut(vars, cons, [])
  {
    forall d: nat | d < |cons| && Sat(cons[d]) ensures Fresh(vars, cons[d]) {
      assert !Awaits(NetOf(vars, cons), [], d);
    }
  }

  /** Freeing out, which c determined, leaves its consumers to recompute. */
  lemma FreedAfter(vars: seq<Var>, cons: seq<Con>, c: nat, vars1: seq<Var>, cons1: seq<Con>, vars2: seq<Var>, out: nat)
    requires Matched(NetOf(vars, cons)) && FreshBut(vars, cons, []) && SatAt(NetOf(vars, cons), c)
        && out == Output(cons[c])
    requires cons1 == cons[c := Off(cons[c])] && vars1 == Removed(vars, cons[c], c) && Matched(NetOf(vars1, cons1))
    requires out < |vars1| && vars2 == vars1[out := vars1[out].(determinedBy := None, walk := WEAKEST, stay := true)]
    ensures FreshAfter(vars2, cons1, [], [out]) && NetOf(vars2, cons1) == NetOf(vars1, cons1)
  {
    hide Fresh;
    var n, n1 := NetOf(vars, cons), NetOf(vars1, cons1);
    OutputKnown(n, c);
    assert vars1[out].determinedBy.None?;
    assert Lists(vars2) == Lists(vars1) && Dets(vars2) == Dets(vars1);
    forall d: nat | d < |cons1| && Sat(cons1[d]) ensures Awaits(n1, [out], d) || Fresh(vars2, cons1[d]) {
      assert SatAt(n, d) && d != c;
      OutputKnown(n, d);
      OutputKnown(n1, d);
      ConsumersFeed(n1, out, d);
      FeedsTouches(cons[d], out);
      if Feeds(cons[d], out) { assert [out][0] == out; } else { FreshAway(vars, vars2, cons[d], out); }
    }
    forall v: nat | v < |vars2| && vars2[v].determinedBy.None? ensures vars2[v].walk == WEAKEST && vars2[v].stay {
      if v != out && vars[v].determinedBy == Some(c) { DetKnown(n, v); }
    }
  }

  lemma FreshAway(a: seq<Var>, b: seq<Var>, k: Con, out: nat)
    requires |a| == |b| && Fresh(a, k) && Output(k) != out && !Feeds(k, out)
    requires forall v: nat :: v < |a| && v != out ==>
        b[v].walk == a[v].walk && b[v].stay == a[v].stay && b[v].value == a[v].value
    ensures Fresh(b, k)
  {}

  // ── Visits end ────────────────────────────────────────────────────

  ghost function VisitCost(n: Net, rank: seq<nat>, top: nat, vs: seq<nat>): nat
    requires Bounded(n, rank, top, {}) && forall i: nat :: i < |vs| ==> vs[i] < |n.det|
  {
    if vs == [] then 0 else VisitCost(n, rank, top, vs[..|vs| - 1]) + Cost(n, rank, top, {}, vs[|vs| - 1])
  }

  lemma {:induction false} VisitCostAppend(n: Net, rank: seq<nat>, top: nat, a: seq<nat>, b: seq<nat>)
    requires Bounded(n, rank, top, {}) && (forall i: nat :: i < |a| ==> a[i] < |n.det|) && forall i: nat :: i < |b| ==>
        b[i] < |n.det|
    ensures VisitCost(n, rank, top, a + b) == VisitCost(n, rank, top, a) + VisitCost(n, rank, top, b)
  {
    hide Bounded, Cost;
    if b == [] {
      assert a + b == a;
    } else {
      var l := |b| - 1;
      assert (a + b)[..|a + b| - 1] == a + b[..l] && (a + b)[|a + b| - 1] == b[l];
      VisitCostAppend(n, rank, top, a, b[..l]);
    }
  }

  /** Visiting the outputs of q costs what queueing q costs. */
  lemma {:induction false} OutputsCost(n: Net, rank: seq<nat>, top: nat, q: seq<nat>)
    requires Bounded(n, rank, top, {}) && forall i: nat :: i < |q| ==> SatAt(n, q[i])
    ensures (forall i: nat :: i < |q| ==> OutputsOf(n, q)[i] < |n.det|)
            && VisitCost(n, rank, top, OutputsOf(n, q)) == QueueCost(n, rank, top, {}, q)
  {
    hide Bounded, Cost;
    forall i: nat | i < |q| ensures OutputsOf(n, q)[i] < |n.det| { BoundedOutput(n, rank, top, q[i]); }
    if q != [] {
      var l := |q| - 1;
      OutputsCost(n, rank, top, q[..l]);
      assert OutputsOf(n, q)[..l] == OutputsOf(n, q[..l]);
    }
  }

  lemma BoundedOutput(n: Net, rank: seq<nat>, top: nat, d: nat)
    requires Bounded(n, rank, top, {}) && SatAt(n, d)
    ensures Output(n.cons[d]) < |n.det|
  {
    OutputKnown(n, d);
  }

  /** A visit makes what is left cheaper. */
  lemma VisitFalls(n: Net, rank: seq<nat>, top: nat, v: nat, rest: seq<nat>)
    requires Bounded(n, rank, top, {}) && v < |n.det| && forall i: nat :: i < |rest| ==> rest[i] < |n.det|
    ensures (forall i: nat :: i < |rest + Spawn(n, v)| ==> (rest + Spawn(n, v))[i] < |n.det|)
            && (forall i: nat :: i < |[v] + rest| ==> ([v] + rest)[i] < |n.det|)
            && VisitCost(n, rank, top, rest + Spawn(n, v)) < VisitCost(n, rank, top, [v] + rest)
  {
    hide Bounded, Cost;
    var q := Consumers(n, v);
    ConsumersKnown(n, v);
    ConsumersCost(n, rank, top, {}, v, n.lists[v]);
    CostIs(n, rank, top, {}, v);
    OutputsCost(n, rank, top, q);
    VisitCostAppend(n, rank, top, rest, Spawn(n, v));
    VisitCostAppend(n, rank, top, [v], rest);
    assert [v][..0] == [] && VisitCost(n, rank, top, []) == 0;
  }

  // ── The loop of a removal ─────────────────────────────────────────

  /** Visits so far, and those to come, are what the start and the visits so far sent on. */
  ghost predicate Visiting(n: Net, out: nat, visited: seq<nat>, todo: seq<nat>)
  {
    && |n.lists| == |n.det|
    && (forall i: nat :: i < |visited| ==> visited[i] < |n.lists|)
       && (forall i: nat :: i < |todo| ==> todo[i] < |n.lists|)
    && visited + todo == [out] + SpawnAll(n, visited)
    && forall k: nat :: k < |visited| ==> Caused(n, visited, k)
  }

  /** The k-th visit was sent on by the start or an earlier one. */
  ghost predicate Caused(n: Net, visited: seq<nat>, k: nat)
    requires |n.lists| == |n.det| && k < |visited| && forall i: nat :: i < |visited| ==> visited[i] < |n.lists|
  {
    k < 1 + |SpawnAll(n, visited[..k])|
  }

  lemma VisitNext(n: Net, out: nat, visited: seq<nat>, todo: seq<nat>)
    requires Visiting(n, out, visited, todo) && todo != [] && Matched(n)
    ensures Visiting(n, out, visited + [todo[0]], todo[1..] + Spawn(n, todo[0]))
  {
    var v := todo[0];
    assert visited + todo == visited + [v] + todo[1..];
    assert (visited + [v])[..|visited + [v]| - 1] == visited;
    assert |visited + todo| == 1 + |SpawnAll(n, visited)|;
    forall k: nat | k < |visited + [v]| ensures Caused(n, visited + [v], k) {
      if k < |visited| { assert Caused(n, visited, k) && (visited + [v])[..k] == visited[..k]; }
    }
    var q := Consumers(n, v);
    forall i: nat | i < |Spawn(n, v)| ensures Spawn(n, v)[i] < |n.lists| {
      ConsumersKnown(n, v);
      OutputKnown(n, q[i]);
    }
    assert visited + [v] + (todo[1..] + Spawn(n, v)) == (visited + todo) + Spawn(n, v);
    assert [out] + SpawnAll(n, visited + [v]) == [out] + SpawnAll(n, visited) + Spawn(n, v);
  }

  lemma UnsatNext(n: Net, visited: seq<nat>, v: nat)
    requires (forall i: nat :: i < |visited| ==> visited[i] < |n.lists|) && v < |n.lists|
    ensures UnsatAll(n, visited + [v]) == UnsatAll(n, visited) + UnsatIn(n, n.lists[v])
  {
    assert (visited + [v])[..|visited + [v]| - 1] == visited;
  }

  /** In an acyclic network nothing feeds itself. */
  lemma NoLoop(n: Net, rank: seq<nat>, d: nat)
    requires Matched(n) && RankedBut(n, rank, {}) && SatAt(n, d)
    ensures !Feeds(n.cons[d], Output(n.cons[d]))
  {
    OutputKnown(n, d);
    RankAt(n, rank, {}, d, Output(n.cons[d]));
  }

  lemma BoundedAll(n: Net, rank: seq<nat>)
    requires Matched(n) && RankedBut(n, rank, {})
    ensures Bounded(n, rank, MaxOf(rank), {})
  {}

  /** Consumers one by one. */
  lemma ConsumersStep(n: Net, v: nat, i: nat)
    requires v < |n.lists| == |n.det| && i < |n.lists[v]|
    ensures var list := n.lists[v]; var c := list[i];
            Consuming(n, n.det[v], list[..i + 1])
            == Consuming(n, n.det[v], list[..i]) + if n.det[v] != Some(c) && SatAt(n, c) then [c] else []
    ensures Consuming(n, n.det[v], n.lists[v]) == Consumers(n, v)
  {
    var list := n.lists[v];
    assert list[..i + 1][..i] == list[..i];
    ConsumingLast(n, n.det[v], list[..i + 1], list[i]);
  }

  /** Consumers not yet recomputed after the first i entries of the list. */
  ghost function ConsumingFrom(n: Net, det: Option<nat>, list: seq<nat>, i: nat): seq<nat>
    requires i <= |list|
    decreases |list| - i
  {
    if i == |list| then []
    else (if det != Some(list[i]) && SatAt(n, list[i]) then [list[i]] else []) + ConsumingFrom(n, det, list, i + 1)
  }

  lemma {:induction false} ConsumingSplit(n: Net, det: Option<nat>, list: seq<nat>, i: nat)
    requires i <= |list|
    ensures Consuming(n, det, list[..i]) + ConsumingFrom(n, det, list, i) == Consuming(n, det, list)
    decreases |list| - i
  {
    if i == |list| {
      assert list[..i] == list;
    } else {
      ConsumingSplit(n, det, list, i + 1);
      assert list[..i + 1][..i] == list[..i];
      ConsumingLast(n, det, list[..i + 1], list[i]);
      var b := if det != Some(list[i]) && SatAt(n, list[i]) then [list[i]] else [];
      var a, c := Consuming(n, det, list[..i]), ConsumingFrom(n, det, list, i + 1);
      assert a + (b + c) == a + b + c;
    }
  }

  lemma OutputsAppend(n: Net, q: seq<nat>, d: nat)
    requires (forall i: nat :: i < |q| ==> q[i] < |n.cons|) && d < |n.cons|
    ensures OutputsOf(n, q + [d]) == OutputsOf(n, q) + [Output(n.cons[d])]
  {}

  lemma VisitStart(n: Net, out: nat)
    requires out < |n.lists| == |n.det|
    ensures Visiting(n, out, [], [out])
  {
    assert [] + [out] == [out] + SpawnAll(n, []);
  }

  lemma UnsatKnown(n: Net, vs: seq<nat>)
    requires Matched(n) && forall i: nat :: i < |vs| ==> vs[i] < |n.lists|
    ensures forall i: nat :: i < |UnsatAll(n, vs)| ==>
              var c := UnsatAll(n, vs)[i]; c < |n.cons| && !Sat(n.cons[c]) && Listed(n, c)
  {
    hide Matched, Listed;
    forall i: nat | i < |UnsatAll(n, vs)|
        ensures var c := UnsatAll(n, vs)[i]; c < |n.cons| && !Sat(n.cons[c]) && Listed(n, c) {
      UnsatAllHas(n, vs, UnsatAll(n, vs)[i]);
    }
  }

  lemma RemovedOff(vars: seq<Var>, k: Con, c: nat)
    ensures Removed(vars, Off(k), c) == Removed(vars, k, c)
  {
    assert forall v: nat :: Touches(Off(k), v) <==> Touches(k, v);
  }

  lemma OutFreed(vars: seq<Var>, cons: seq<Con>, c: nat)
    requires Matched(NetOf(vars, cons)) && SatAt(NetOf(vars, cons), c)
    ensures Output(cons[c]) < |vars| && Removed(vars, cons[c], c)[Output(cons[c])].determinedBy.None?
  {
    OutputKnown(NetOf(vars, cons), c);
  }

  lemma RemovedMarks(vars: seq<Var>, k: Con, c: nat, mark: int)
    requires MarksBelow(vars, mark)
    ensures MarksBelow(Removed(vars, k, c), mark)
  {}

  lemma MarksSame(a: seq<Var>, b: seq<Var>, mark: int)
    requires MarksBelow(a, mark) && |a| == |b| && forall v: nat :: v < |b| ==> b[v].mark == a[v].mark
    ensures MarksBelow(b, mark)
  {}

  lemma ListsGone(a: seq<Var>, b: seq<Var>, c: nat)
    requires Lists(a) == Lists(b) && forall v: nat :: v < |a| ==> c !in a[v].constraints
    ensures |a| == |b| && forall v: nat :: v < |b| ==> c !in b[v].constraints
  {
    assert |Lists(a)| == |Lists(b)|;
    assert forall v: nat :: v < |b| ==> Lists(b)[v] == Lists(a)[v];
  }

  lemma UnsatVisited(n: Net, out: nat, visited: seq<nat>)
    requires Matched(n) && Visiting(n, out, visited, [])
    ensures forall i: nat :: i < |UnsatAll(n, visited)| ==>
              var c := UnsatAll(n, visited)[i]; c < |n.cons| && !Sat(n.cons[c]) && Listed(n, c)
  {
    UnsatKnown(n, visited);
  }

  /** A listed constraint is not one that is on no list. */
  lemma NotListed(n: Net, u: nat, c: nat)
    requires Matched(n) && u < |n.cons| && Listed(n, u) && forall v: nat :: v < |n.lists| ==> c !in n.lists[v]
    ensures u != c
  {
    assert Touches(n.cons[u], n.cons[u].v1);
  }

  /** Taking an unsatisfied constraint off the lists leaves everything fresh, and changes nothing if it was on none. */
  lemma RemovedFresh(vars: seq<Var>, cons: seq<Con>, c: nat)
    requires Matched(NetOf(vars, cons)) && FreshBut(vars, cons, []) && c < |cons| && !Sat(cons[c])
    ensures FreshBut(Removed(vars, cons[c], c), cons[c := Off(cons[c])], [])
    ensures (forall v: nat :: v < |vars| ==> c !in vars[v].constraints) ==> Removed(vars, cons[c], c) == vars
  {
    var n, vars', cons' := NetOf(vars, cons), Removed(vars, cons[c], c), cons[c := Off(cons[c])];
    forall v: nat | v < |vars| ensures n.det[v] != Some(c) { if n.det[v] == Some(c) { DetKnown(n, v); } }
    forall d: nat | d < |cons'| && Sat(cons'[d]) ensures Fresh(vars', cons'[d]) {
      assert d != c && Fresh(vars, cons[d]);
      FreshContent(vars, vars', cons[d]);
    }
    forall v: nat | v < |vars| && c !in vars[v].constraints ensures Dropped(vars[v], c) == vars[v] {
      WithoutTwice(vars[v].constraints, c);
    }
  }

  /** Between visits: the network is unchanged, what is not awaited is fresh, and the unsatisfied met are collected. */
  ghost predicate Removing(vars0: seq<Var>, vars: seq<Var>, cons: seq<Con>, out: nat, visited: seq<nat>,
                           todo: seq<nat>, unsat: seq<nat>)
  {
    var n := NetOf(vars0, cons);
    && Matched(n) && SameNet(vars0, vars) && Visiting(n, out, visited, todo)
    && FreshAfter(vars, cons, [], todo)
    && (forall i: nat :: i < |visited| ==> visited[i] < |n.lists|)
       && (forall i: nat :: i < |todo| ==> todo[i] < |n.lists|)
    && unsat == UnsatAll(n, visited)
  }

  ghost function RemoveCost(vars0: seq<Var>, vars: seq<Var>, cons: seq<Con>, out: nat, visited: seq<nat>,
                            todo: seq<nat>, unsat: seq<nat>, rank: seq<nat>): nat
    requires Removing(vars0, vars, cons, out, visited, todo, unsat)
        && Bounded(NetOf(vars0, cons), rank, MaxOf(rank), {})
  {
    VisitCost(NetOf(vars0, cons), rank, MaxOf(rank), todo)
  }

  lemma RemovingStart(vars: seq<Var>, cons: seq<Con>, out: nat)
    requires Matched(NetOf(vars, cons)) && FreshAfter(vars, cons, [], [out]) && out < |vars|
    ensures Removing(vars, vars, cons, out, [], [out], [])
  {
    SameNetSelf(vars);
    VisitStart(NetOf(vars, cons), out);
  }

  lemma RemovingHead(vars0: seq<Var>, vars: seq<Var>, cons: seq<Con>, out: nat, visited: seq<nat>, todo: seq<nat>,
                     unsat: seq<nat>)
    requires Removing(vars0, vars, cons, out, visited, todo, unsat) && todo != []
    ensures var v, n := todo[0], NetOf(vars0, cons);
            && v < |vars| && n == NetOf(vars, cons) && (forall c: nat :: c in vars[v].constraints ==> c < |cons|)
            && FreshAfter(vars, cons, Consumers(n, v), todo[1..])
  {
    hide Visiting, FreshAfter;
    var v := todo[0];
    assert todo == [v] + todo[1..];
    SameNetOf(vars0, vars, cons);
    ListKnown(NetOf(vars, cons), v);
    AfterVisit(vars, cons, v, todo[1..]);
  }

  lemma RemovingNext(vars0: seq<Var>, vars: seq<Var>, cons: seq<Con>, out: nat, visited: seq<nat>, todo: seq<nat>,
                     unsat: seq<nat>, vars': seq<Var>, todo': seq<nat>, unsat': seq<nat>, rank: seq<nat>)
    requires Removing(vars0, vars, cons, out, visited, todo, unsat) && todo != [] && todo[0] < |vars0|
        && SameNet(vars, vars')
    requires Bounded(NetOf(vars0, cons), rank, MaxOf(rank), {})
    requires todo' == todo[1..] + Spawn(NetOf(vars0, cons), todo[0]) && FreshAfter(vars', cons, [], todo')
    requires unsat' == unsat + UnsatIn(NetOf(vars0, cons), NetOf(vars0, cons).lists[todo[0]])
    ensures Removing(vars0, vars', cons, out, visited + [todo[0]], todo', unsat')
    ensures RemoveCost(vars0, vars', cons, out, visited + [todo[0]], todo', unsat', rank)
            < RemoveCost(vars0, vars, cons, out, visited, todo, unsat, rank)
  {
    hide FreshAfter, Matched, Bounded, VisitCost, SpawnAll, MaxOf, Visiting;
    var n, v := NetOf(vars0, cons), todo[0];
    assert todo == [v] + todo[1..];
    SameNetTrans(vars0, vars, vars');
    UnsatNext(n, visited, v);
    VisitNext(n, out, visited, todo);
    VisitFalls(n, rank, MaxOf(rank), v, todo[1..]);
  }

  lemma RemovingEnd(vars0: seq<Var>, vars: seq<Var>, cons: seq<Con>, out: nat, visited: seq<nat>, unsat: seq<nat>)
    requires Removing(vars0, vars, cons, out, visited, [], unsat)
    ensures FreshBut(vars, cons, []) && Visiting(NetOf(vars0, cons), out, visited, [])
        && unsat == UnsatAll(NetOf(vars0, cons), visited)
    ensures forall i: nat :: i < |unsat| ==> unsat[i] < |cons|
    ensures |vars| == |vars0| && forall v: nat :: v < |vars| ==> vars[v].mark == vars0[v].mark
  {
    SameMarks(vars0, vars);
    AfterNone(vars, cons);
    UnsatKnown(NetOf(vars0, cons), visited);
  }

  /** What taking c out of the graph came to. */
  ghost predicate Detached(vars0: seq<Var>, cons0: seq<Con>, c: nat, outcome: Outcome, unsat: seq<nat>,
                           visited: seq<nat>, f: Frame)
    requires c < |cons0|
  {
    var n := NetOf(Removed(vars0, cons0[c], c), cons0[c := Off(cons0[c])]);
    && (outcome == DividedByZero ==> HasScale(cons0))
    && (outcome != DividedByZero ==>
          && NetOf(f.vars, f.cons) == n && Output(cons0[c]) < |vars0|
          && Visiting(n, Output(cons0[c]), visited, []) && unsat == UnsatAll(n, visited))
    && (outcome == Fine ==> Settled(f) && Acyclic(n) && MarksSameAs(vars0, f.vars))
    && (outcome == Unsorted ==> |unsat| >= 2)
    && (outcome == Fine || outcome == Unsorted || outcome == DividedByZero)
  }

  ghost predicate MarksSameAs(a: seq<Var>, b: seq<Var>)
  {
    |a| == |b| && forall v: nat :: v < |a| ==> b[v].mark == a[v].mark
  }

  lemma ScaleOff(cons: seq<Con>, c: nat)
    requires c < |cons| && HasScale(cons[c := Off(cons[c])])
    ensures HasScale(cons)
  {
    var d: nat :| d < |cons| && cons[c := Off(cons[c])][d].kind.Scale?;
    assert cons[d].kind.Scale?;
  }

  lemma DetachedMarks(vars: seq<Var>, k: Con, c: nat, vars': seq<Var>)
    requires |vars'| == |vars| && forall v: nat :: v < |vars| ==> vars'[v].mark == Removed(vars, k, c)[v].mark
    ensures MarksSameAs(vars, vars')
  {
    assert forall v: nat :: v < |vars| ==> Removed(vars, k, c)[v].mark == vars[v].mark;
  }

  // ── The loop over the consumers of one variable ───────────────────

  /** After i entries of v's list: the consumers among them are recomputed, and their outputs wait after rest. */
  ghost predicate Halfway(n: Net, v: nat, i: nat, rest: seq<nat>, todo: seq<nat>, vars: seq<Var>, cons: seq<Con>)
    requires v < |n.lists| == |n.det|
  {
    var det, list := n.det[v], n.lists[v];
    && i <= |list| && NetOf(vars, cons) == n
    && ConsumedKnown(n, det, list[..i])
    && todo == rest + OutputsOf(n, Consuming(n, det, list[..i]))
    && FreshAfter(vars, cons, ConsumingFrom(n, det, list, i), todo)
  }

  ghost predicate ConsumedKnown(n: Net, det: Option<nat>, list: seq<nat>)
  {
    var q := Consuming(n, det, list);
    forall j: nat :: j < |q| ==> q[j] < |n.cons|
  }

  lemma HalfwayStart(n: Net, v: nat, rest: seq<nat>, vars: seq<Var>, cons: seq<Con>)
    requires v < |n.lists| == |n.det| && NetOf(vars, cons) == n && FreshAfter(vars, cons, Consumers(n, v), rest)
    ensures Halfway(n, v, 0, rest, rest, vars, cons)
  {
    hide FreshAfter, ConsumingFrom;
    var det, list := n.det[v], n.lists[v];
    ConsumingSplit(n, det, list, 0);
    assert list[..0] == [] && Consuming(n, det, []) == [];
    assert [] + ConsumingFrom(n, det, list, 0) == ConsumingFrom(n, det, list, 0);
    assert rest + OutputsOf(n, []) == rest;
  }

  /** An entry that is no consumer changes nothing. */
  lemma HalfwaySkip(n: Net, v: nat, i: nat, rest: seq<nat>, todo: seq<nat>, vars: seq<Var>, cons: seq<Con>)
    requires v < |n.lists| == |n.det| && Halfway(n, v, i, rest, todo, vars, cons) && i < |n.lists[v]|
    requires n.det[v] == Some(n.lists[v][i]) || !SatAt(n, n.lists[v][i])
    ensures Halfway(n, v, i + 1, rest, todo, vars, cons)
  {
    hide FreshAfter;
    ConsumersStep(n, v, i);
    var list := n.lists[v];
    assert Consuming(n, n.det[v], list[..i + 1]) == Consuming(n, n.det[v], list[..i]);
    assert ConsumingFrom(n, n.det[v], list, i) == ConsumingFrom(n, n.det[v], list, i + 1);
  }

  /** A consumer is recomputed and its output waits last. */
  lemma HalfwayTake(n: Net, v: nat, i: nat, rest: seq<nat>, todo: seq<nat>, vars: seq<Var>, cons: seq<Con>,
                    vars': seq<Var>)
    requires v < |n.lists| == |n.det| && Matched(n) && Halfway(n, v, i, rest, todo, vars, cons) && i < |n.lists[v]|
    requires var c := n.lists[v][i];
             && n.det[v] != Some(c) && SatAt(n, c) && KnownCon(vars, cons[c]) && CanRecalculate(vars, cons[c])
             && !Feeds(cons[c], Output(cons[c])) && vars' == Recalculated(vars, cons[c])
    ensures SatAt(n, n.lists[v][i]) && SameNet(vars, vars')
    ensures Halfway(n, v, i + 1, rest, todo + [Output(cons[n.lists[v][i]])], vars', cons)
  {
    hide FreshAfter, Recalculated, Matched, SameNet, Output, Feeds;
    var det, list := n.det[v], n.lists[v];
    var c := list[i];
    ConsumersStep(n, v, i);
    var done := Consuming(n, det, list[..i]);
    assert Consuming(n, det, list[..i + 1]) == done + [c];
    assert ConsumingFrom(n, det, list, i) == [c] + ConsumingFrom(n, det, list, i + 1);
    AfterStep(vars, cons, c, ConsumingFrom(n, det, list, i + 1), todo, vars');
    OutputsAppend(n, done, c);
    assert rest + (OutputsOf(n, done) + [Output(cons[c])]) == todo + [Output(cons[c])];
  }

  lemma HalfwayEnd(n: Net, v: nat, rest: seq<nat>, todo: seq<nat>, vars: seq<Var>, cons: seq<Con>)
    requires v < |n.lists| == |n.det| && Halfway(n, v, |n.lists[v]|, rest, todo, vars, cons)
    ensures todo == rest + Spawn(n, v) && FreshAfter(vars, cons, [], todo)
  {
    hide FreshAfter;
    assert n.lists[v][..|n.lists[v]|] == n.lists[v];
  }
}
