/** The DeltaBlue planner over variables and constraints that refer to each other by index. */
module DeltaBlue {
  import opened DeltaBlueGrow
  import opened DeltaBlueNet
  import opened DeltaBluePlan
  import opened DeltaBlueShrink
  import opened DeltaBlueSteps
  import opened Options

  class Planner {
    var vars: seq<Var>
    var cons: seq<Con>
    var currentMark: int

    constructor ()
      ensures vars == [] && cons == [] && currentMark == 1
    {
      vars, cons, currentMark := [], [], 1;
    }

    ghost function N(): Net
      reads this
    {
      NetOf(vars, cons)
    }

    method ChooseMethod(c: nat, mark: int)
      requires c < |cons| && KnownCon(vars, cons[c])
      modifies `cons
      ensures cons == old(cons)[c := Chosen(vars, old(cons)[c], mark)]
    {
      var k := cons[c];
      if Unary(k) {
        var o := vars[k.v1];
        cons := cons[c := k.(satisfied := o.mark != mark && k.strength < o.walk)];
        return;
      }
      var a, b := vars[k.v1], vars[k.v2];
      var dir;
      if a.mark == mark {
        dir := if b.mark != mark && k.strength < b.walk then Forward else Unset;
      } else if b.mark == mark {
        dir := if a.mark != mark && k.strength < a.walk then Backward else Unset;
      } else if a.walk > b.walk {
        dir := if k.strength < a.walk then Backward else Unset;
      } else if k.strength < b.walk {
        dir := Forward;
      } else {
        dir := Unset;
      }
      cons := cons[c := k.(dir := dir)];
    }

    method Execute(c: nat) returns (ok: bool)
      requires c < |cons| && KnownCon(vars, cons[c])
      modifies `vars
      ensures ok == CanExecute(old(vars), cons[c])
      ensures vars == if ok then Executed(old(vars), cons[c]) else old(vars)
      ensures KnownCon(vars, cons[c]) && (ok && !Feeds(cons[c], Output(cons[c])) ==> Met(vars, cons[c]))
    {
      hide Met, TruncDiv;
      var k := cons[c];
      match k.kind {
      case Equality =>
        if k.dir == Forward { vars := vars[k.v2 := vars[k.v2].(value := vars[k.v1].value)]; }
        else { vars := vars[k.v1 := vars[k.v1].(value := vars[k.v2].value)]; }
        ok := true;
      case Scale(scale, offset) =>
        var s, o := vars[scale].value, vars[offset].value;
        if k.dir == Forward {
          vars := vars[k.v2 := vars[k.v2].(value := vars[k.v1].value * s + o)];
        } else if s == 0 {
          return false;
        } else {
          vars := vars[k.v1 := vars[k.v1].(value := TruncDiv(vars[k.v2].value - o, s))];
        }
        ok := true;
      case _ =>
        ok := true;
      }
      if !Feeds(k, Output(k)) { ExecutedMeets(old(vars), k); }
    }

    method Recalculate(c: nat) returns (ok: bool)
      requires c < |cons| && KnownCon(vars, cons[c])
      modifies `vars
      ensures ok == CanRecalculate(old(vars), cons[c]) && |vars| == |old(vars)|
      ensures vars == if ok then Recalculated(old(vars), cons[c]) else Annotated(old(vars), cons[c])
    {
      hide Computed, TruncDiv;
      var k := cons[c];
      if Unary(k) {
        vars := vars[k.v1 := vars[k.v1].(walk := k.strength)];
        vars := vars[k.v1 := vars[k.v1].(stay := !IsInput(k))];
        assert vars == Annotated(old(vars), k);
        if vars[k.v1].stay { ok := Execute(c); } else { ok := true; }
        return;
      }
      var i, o := Input(k), Output(k);
      vars := vars[o := vars[o].(walk := if vars[i].walk < k.strength then k.strength else vars[i].walk)];
      var stay := vars[i].stay;
      if k.kind.Scale? { stay := stay && vars[k.kind.scale].stay && vars[k.kind.offset].stay; }
      vars := vars[o := vars[o].(stay := stay)];
      assert vars == Annotated(old(vars), k);
      if stay { ok := Execute(c); } else { ok := true; }
    }

    method AddConstraintsConsumingTo(v: nat, coll: seq<nat>) returns (r: seq<nat>)
      requires v < |vars| && forall c: nat :: c in vars[v].constraints ==> c < |cons|
      ensures r == coll + Consumers(N(), v)
    {
      var det, list := vars[v].determinedBy, vars[v].constraints;
      r := coll;
      for i := 0 to |list|
        invariant r == coll + Consuming(N(), det, list[..i])
      {
        var c := list[i];
        assert c in vars[v].constraints;
        assert list[..i + 1][..i] == list[..i] && list[..i + 1][i] == c;
        ConsumingLast(N(), det, list[..i + 1], c);
        if Some(c) != det && Sat(cons[c]) { r := r + [c]; }
      }
      assert list[..|list|] == list;
    }

    /**
     * Recompute everything downstream of c, now newly satisfied with its inputs marked. A marked
     * variable downstream means a cycle; with none, the network with c is acyclic, and fresh if it was
     * up to date (tidy).
     */
    method AddPropagate(c: nat, mark: int, ghost rank: seq<nat>, ghost tidy: bool)
        returns (outcome: Outcome, ghost rank': seq<nat>, ghost at: nat)
      requires Matched(N()) && RankedBut(N(), rank, {c}) && SatAt(N(), c) && (tidy ==> FreshBut(vars, cons, [c]))
      requires forall v: nat :: v < |vars| && Feeds(cons[c], v) ==> vars[v].mark == mark
      modifies `vars
      ensures SameNet(old(vars), vars) && N() == old(N()) && Output(cons[c]) < |vars|
      ensures outcome == Fine ==>
                (tidy ==> FreshBut(vars, cons, [])) && RankedBut(N(), rank', {}) && vars[Output(cons[c])].mark != mark
      ensures outcome == Cycle ==> at < |vars| && vars[at].mark == mark && Below(N(), Output(cons[c]), at)
      ensures outcome == DividedByZero ==> HasScale(cons)
      ensures outcome == Fine || outcome == Cycle || outcome == DividedByZero
    {
      assert c < |cons|;
      hide Flowing, Matched, RankedBut, FreshBut, Below, FlowCost, Recalculated, Lifted;
      ghost var vars0 := vars;
      FlowStart(vars, cons, rank, c, mark, tidy);
      SameNetSelf(vars);
      var todo := [c];
      ghost var r: set<nat> := {};
      at, rank' := 0, [];
      while todo != []
        invariant SameNet(vars0, vars) && Flowing(vars0, vars, cons, rank, c, mark, tidy, r, todo)
        decreases FlowCost(vars0, vars, cons, rank, c, mark, tidy, r, todo)
      {
        FlowHead(vars0, vars, cons, rank, c, mark, tidy, r, todo);
        var d := todo[0];
        var o := Output(cons[d]);
        if vars[o].mark == mark { return Cycle, [], o; }
        ghost var before, queue := vars, todo;
        var ok := Recalculate(d);
        if !ok {
          ScaleAt(cons, d);
          AnnotatedNet(before, cons[d]);
          SameNetTrans(vars0, before, vars);
          SameNetOf(vars0, vars, cons);
          return DividedByZero, [], 0;
        }
        FlowTurn(vars0, before, cons, rank, c, mark, tidy, r, queue, vars);
        RecalculatedNet(before, cons[d]);
        SameNetTrans(vars0, before, vars);
        SameNetOf(before, vars, cons);
        todo := AddConstraintsConsumingTo(o, todo[1..]);
        r := r + {o};
      }
      FlowEnd(vars0, vars, cons, rank, c, mark, tidy, r);
      rank' := Lifted(rank, r);
      outcome := Fine;
    }
  
    method InputsMark(c: nat, mark: int)
      requires c < |cons| && KnownCon(vars, cons[c])
      modifies `vars
      ensures MarksAfter(old(vars), vars, cons[c], mark, false) && SameContent(old(vars), vars)
      ensures Lists(vars) == Lists(old(vars)) && Dets(vars) == Dets(old(vars))
    {
      hide Lists, Dets, MarksAfter, SameContent;
      var k := cons[c];
      InputsMarkedMeans(vars, k, mark);
      if Unary(k) {
        assert vars == InputsMarked(vars, k, mark);
        return;
      }
      ghost var vars0, i := vars, Input(k);
      vars := vars[Input(k) := vars[Input(k)].(mark := mark)];
      if k.kind.Scale? {
        vars := vars[k.kind.scale := vars[k.kind.scale].(mark := mark)];
        vars := vars[k.kind.offset := vars[k.kind.offset].(mark := mark)];
        MarkThree(vars0, k, mark, i, k.kind.scale, k.kind.offset);
      } else {
        assert vars[i := vars[i].(mark := mark)] == vars;
        MarkThree(vars0, k, mark, i, i, i);
      }
    }

    /** The last constraint of the chain of overrides, with its inputs marked, takes over the output it chose. */
    method TakeOver(c: nat, mark: int) returns (overridden: Option<nat>)
      requires c < |cons| && KnownCon(vars, cons[c])
      requires var o := vars[Output(cons[c])].determinedBy; o.Some? ==> o.value < |cons|
      modifies `vars, `cons
      ensures var k, out := old(cons)[c], Output(old(cons)[c]);
              && overridden == old(vars)[out].determinedBy
              && vars == old(vars)[out := old(vars)[out].(determinedBy := Some(c))]
              && cons == if overridden.Some? then old(cons)[overridden.value := Off(old(cons)[overridden.value])]
                 else old(cons)
    {
      var out := Output(cons[c]);
      overridden := vars[out].determinedBy;
      if overridden.Some? {
        cons := cons[overridden.value := cons[overridden.value].(dir := Unset, satisfied := false)];
      }
      vars := vars[out := vars[out].(determinedBy := Some(c))];
    }

    /**
     * Satisfy c if some end of it is open, overriding what determined that end. chain holds the
     * constraints satisfied under this mark so far, and at the output of the last of them.
     */
    method Satisfy(c: nat, mark: int, ghost chain: set<nat>, ghost at: nat)
        returns (outcome: Outcome, overridden: Option<nat>)
      requires Matched(N()) && Acyclic(N())
      requires c < |cons| && !Sat(cons[c]) && Listed(N(), c) && Trail(N(), vars, mark, chain, at)
      requires (exists v: nat :: v < |vars| && vars[v].mark == mark) ==>
                 at < |vars| && vars[at].mark == mark && EndOf(cons[c], at)
      modifies `vars, `cons
      ensures |vars| == |old(vars)| && |cons| == |old(cons)|
      ensures OnlyMethods(old(vars), old(cons), vars, cons) && (outcome == DividedByZero ==> HasScale(old(cons)))
      ensures outcome == Fine ==> Unmarked(vars, mark) <= Unmarked(old(vars), mark)
      ensures outcome == Fine && old(FreshBut(vars, cons, [])) ==> FreshBut(vars, cons, [])
      ensures outcome == Fine ==>
                Matched(N()) && Acyclic(N())
                && KnownCon(old(vars), old(cons)[c]) && Took(old(vars), old(cons), c, mark, vars, cons, overridden)
      ensures outcome == Fine && overridden.Some? ==>
                var out := Output(cons[c]);
                && Pending(N(), vars, mark, overridden, out)
                && Trail(N(), vars, mark, chain + {c}, out) && Unmarked(vars, mark) < Unmarked(old(vars), mark)
      ensures outcome == Cycle ==> Matched(N()) && !Acyclic(N())
      ensures outcome == Unsatisfiable ==>
                old(cons)[c].strength == REQUIRED && KnownCon(old(vars), old(cons)[c])
                && forall v: nat :: !Open(old(vars), old(cons)[c], mark, v)
      ensures outcome != Unsorted
    {
      hide Matched, RankedBut, FreshBut, Listed, Fresh, Trail, Below, Chosen, Took, Acyclic, Unmarked, Pending,
          OnlyMethods, HasScale;
      ghost var vars0, cons0, n0 := vars, cons, N();
      overridden := None;
      ConKnown(n0, c);
      ChosenIff(vars, cons[c], mark);
      ChooseMethod(c, mark);
      ghost var k := cons[c];
      if Sat(cons[c]) {
        outcome, overridden := Carry(c, mark, cons0, chain, at);
        if outcome == DividedByZero { MethodsScale(vars0, cons0, vars, cons); }
        if outcome == Fine { TookSat(vars0, cons0, c, mark, vars, cons, overridden); }
      } else {
        UnsatKeeps(vars0, cons0, c, k);
        MethodsOne(vars0, cons0, c, k);
        TookNone(vars0, cons0, c, mark);
        AcyclicSame(n0, N());
        outcome := if cons[c].strength == REQUIRED then Unsatisfiable else Fine;
      }
    }

    /** The constraint just given a method takes over its output and what depends on it. */
    method Carry(c: nat, mark: int, ghost cons0: seq<Con>, ghost chain: set<nat>, ghost at: nat)
        returns (outcome: Outcome, overridden: Option<nat>)
      requires var n0 := NetOf(vars, cons0);
               && Matched(n0) && Acyclic(n0) && c < |cons0| && !Sat(cons0[c])
               && Listed(n0, c) && Trail(n0, vars, mark, chain, at)
      requires (exists v: nat :: v < |vars| && vars[v].mark == mark) ==>
                 at < |vars| && vars[at].mark == mark && EndOf(cons0[c], at)
      requires c < |cons| && cons == cons0[c := cons[c]] && Remethod(cons0[c], cons[c]) && Sat(cons[c])
      requires Output(cons[c]) < |vars| && vars[Output(cons[c])].mark != mark && KnownCon(vars, cons[c])
      modifies `vars, `cons
      ensures |vars| == |old(vars)| && |cons| == |old(cons)|
      ensures OnlyMethods(old(vars), cons0, vars, cons) && (outcome == DividedByZero ==> HasScale(cons))
      ensures outcome == Fine && old(FreshBut(vars, cons0, [])) ==> FreshBut(vars, cons, [])
      ensures outcome == Fine ==>
                var k, o, out := old(cons)[c], overridden, Output(old(cons)[c]);
                && Matched(N()) && Acyclic(N())
                && N() == Overriding(NetOf(old(vars), cons0), c, k) && MarksAfter(old(vars), vars, k, mark, true)
                && o == old(vars)[out].determinedBy && cons[c] == k
                && Trail(N(), vars, mark, chain + {c}, out) && Unmarked(vars, mark) < Unmarked(old(vars), mark)
                && Pending(N(), vars, mark, o, out)
      ensures outcome == Cycle ==> Matched(N()) && !Acyclic(N())
      ensures outcome == Fine || outcome == Cycle || outcome == DividedByZero
    {
      hide Matched, RankedBut, FreshBut, Listed, Trail, Below, Unmarked, SameNet, MarksAfter, Acyclic, Overriding,
          Remethod, Feeds, SatAt, Pending, OnlyMethods, HasScale;
      ghost var vars0, n0, k, tidy := vars, NetOf(vars, cons0), cons[c], FreshBut(vars, cons0, []);
      ghost var rank0 := SomeRank(n0);
      OverridingKeeps(n0, c, k, rank0);
      ChainKept(n0, vars0, mark, chain, at, c, k, rank0);
      if exists v: nat :: v < |vars0| && vars0[v].mark == mark { ChainInput(vars0, cons0[c], k, mark, at); }
      overridden := Install(c, mark, cons0);
      ghost var vars1 := vars;
      MarkedOnly(vars0, vars1, k, mark, false);
      var out := Output(cons[c]);
      ghost var rank, found;
      outcome, rank, found := AddPropagate(c, mark, rank0, tidy);
      SameMarks(vars1, vars);
      OverridingOnly(vars0, cons0, c, k, vars, cons);
      if outcome != Fine {
        if outcome == Cycle { MarkedCycle(N(), vars0, vars, n0, mark, chain, at, c, found); }
        return outcome, None;
      }
      RankAcyclic(N(), rank);
      ghost var vars3 := vars;
      FreshMark(vars, cons, out, mark);
      vars := vars[out := vars[out].(mark := mark)];
      OverridingOnly(vars0, cons0, c, k, vars, cons);
      MarksDone(vars0, vars1, vars3, vars, k, mark);
      CarryDone(n0, vars0, N(), vars, mark, chain, at, c, rank0, k);
    }

    /** Mark c's inputs and make c determine its output. */
    method Install(c: nat, mark: int, ghost cons0: seq<Con>) returns (overridden: Option<nat>)
      requires c < |cons0| && !Sat(cons0[c]) && Matched(NetOf(vars, cons0))
      requires c < |cons| && cons == cons0[c := cons[c]] && Remethod(cons0[c], cons[c]) && Sat(cons[c])
      requires Output(cons[c]) < |vars| && KnownCon(vars, cons[c])
      modifies `vars, `cons
      ensures |vars| == |old(vars)| && |cons| == |old(cons)| && cons[c] == old(cons)[c]
      ensures N() == Overriding(NetOf(old(vars), cons0), c, cons[c])
      ensures old(FreshBut(vars, cons0, [])) ==> FreshBut(vars, cons, [c])
      ensures MarksAfter(old(vars), vars, cons[c], mark, false) && overridden == old(vars)[Output(cons[c])].determinedBy
    {
      hide Matched, FreshBut, Fresh, SameContent, MarksAfter;
      ghost var vars0, n0, k := vars, NetOf(vars, cons0), cons[c];
      ConKnown(n0, c);
      ghost var o := vars[Output(k)].determinedBy;
      if o.Some? { DetKnown(n0, Output(k)); }
      InputsMark(c, mark);
      ghost var vars1 := vars;
      ContentSize(vars0, vars1);
      assert Dets(vars)[Output(k)] == Dets(vars0)[Output(k)];
      overridden := TakeOver(c, mark);
      assert N() == Overriding(n0, c, k);
      ContentDet(vars0, vars1, Output(k), c);
      DetKept(vars0, vars1, vars, Output(k), c);
      if FreshBut(vars0, cons0, []) { TakenFresh(vars0, cons0, c, k, vars, cons); }
      MarksKept(vars0, vars1, vars, k, mark, Output(k), c);
    }
  
    method NewMark() returns (mark: int)
      modifies `currentMark
      ensures mark == currentMark == old(currentMark) + 1
    {
      currentMark := currentMark + 1;
      mark := currentMark;
    }

    /** Links match, the dataflow is acyclic, and no mark is from the future. */
    ghost predicate Wired()
      reads this
    {
      Matched(N()) && Acyclic(N()) && MarksBelow(vars, currentMark)
    }

    /** Moreover all strengths, flags and constant values are up to date. */
    ghost predicate Sound()
      reads this
    {
      Wired() && FreshBut(vars, cons, [])
    }

    /**
     * Satisfy c, then what it overrode, and so on. A cycle is reported only when the constraints now
     * satisfied admit no order of evaluation; without a failure the links match and have an order again,
     * and everything is up to date again if it was before.
     */
    method IncrementalAdd(c: nat) returns (outcome: Outcome, ghost trace: seq<Frame>)
      requires Wired() && c < |cons| && !Sat(cons[c]) && Listed(N(), c)
      modifies `vars, `cons, `currentMark
      ensures currentMark == old(currentMark) + 1 && |vars| == |old(vars)| && |cons| == |old(cons)|
      ensures outcome == Fine ==> Wired() && (old(Sound()) ==> Sound())
      ensures outcome == Fine ==> StillOff(old(cons), cons, c)
      ensures Added(Frame(old(vars), old(cons), Some(c)), currentMark, outcome, trace, vars, cons)
    {
      hide Matched, FreshBut, Listed, Trail, Took, Acyclic, Unmarked, Pending, Progressing, MarksBelow, HasScale,
          OnlyMethods, Overrides;
      BelowNext(vars, currentMark);
      var mark := NewMark();
      NoTrail(N(), vars, mark);
      ghost var chain: set<nat>, at: nat := {}, 0;
      ghost var first := Frame(vars, cons, Some(c));
      trace := [first];
      ProgressStart(first, c, mark);
      var overridden: Option<nat>;
      outcome, overridden := Satisfy(c, mark, chain, at);
      if outcome != Fine {
        ProgressEnd(first, trace, first, c, mark);
        return;
      }
      ProgressNext(first, trace, first, c, mark, Frame(vars, cons, overridden));
      trace := trace + [Frame(vars, cons, overridden)];
      if overridden.Some? { chain, at := {c}, Output(cons[c]); assert {} + {c} == {c}; }
      while overridden.Some?
        invariant outcome == Fine && |vars| == |old(vars)| && |cons| == |old(cons)| && currentMark == mark
        invariant Matched(N()) && Acyclic(N()) && (old(Sound()) ==> FreshBut(vars, cons, []))
        invariant Progressing(first, trace, Frame(vars, cons, overridden), c, mark)
        invariant overridden.Some? ==> Pending(N(), vars, mark, overridden, at) && Trail(N(), vars, mark, chain, at)
        decreases Unmarked(vars, mark), if overridden.Some? then 1 else 0
      {
        PendingFacts(N(), vars, mark, overridden, at);
        ghost var now := Frame(vars, cons, overridden);
        ghost var d := overridden.value;
        outcome, overridden := Satisfy(overridden.value, mark, chain, at);
        if outcome != Fine {
          ProgressEnd(first, trace, now, c, mark);
          MethodsTrans(first.vars, first.cons, now.vars, now.cons, vars, cons);
          if outcome == DividedByZero { MethodsScale(first.vars, first.cons, now.vars, now.cons); }
          return;
        }
        ProgressNext(first, trace, now, c, mark, Frame(vars, cons, overridden));
        trace := trace + [Frame(vars, cons, overridden)];
        if overridden.Some? { chain, at := chain + {d}, Output(cons[d]); }
      }
      ProgressEnd(first, trace, Frame(vars, cons, None), c, mark);
    }

    method NewVar(value: int) returns (v: nat)
      requires Sound() && currentMark >= 0
      modifies `vars
      ensures Sound() && v == |old(vars)| && vars == old(vars) + [NewVariable(value)]
    {
      VariableAdded(vars, cons, value);
      vars := vars + [Var(value, [], None, 0, WEAKEST, true)];
      v := |vars| - 1;
    }

    /** Put the constraint on the lists of the variables it touches. */
    method AddToGraph(c: nat)
      requires c < |cons| && KnownCon(vars, cons[c])
      modifies `vars, `cons
      ensures vars == Enlisted(old(vars), old(cons)[c], c) && cons == old(cons)[c := Off(old(cons)[c])]
    {
      var k := cons[c];
      vars := vars[k.v1 := vars[k.v1].(constraints := vars[k.v1].constraints + [c])];
      if !Unary(k) {
        vars := vars[k.v2 := vars[k.v2].(constraints := vars[k.v2].constraints + [c])];
      }
      if k.kind.Scale? {
        vars := vars[k.kind.scale := vars[k.kind.scale].(constraints := vars[k.kind.scale].constraints + [c])];
        vars := vars[k.kind.offset := vars[k.kind.offset].(constraints := vars[k.kind.offset].constraints + [c])];
      }
      cons := cons[c := cons[c].(dir := Unset, satisfied := false)];
    }

    method NewCon(kind: Kind, strength: int, v1: nat, v2: nat)
        returns (outcome: Outcome, c: nat, ghost trace: seq<Frame>)
      requires Sound() && KnownCon(vars, Con(kind, strength, v1, v2, Unset, false))
      modifies this
      ensures c == |old(cons)| && |cons| == c + 1 && |vars| == |old(vars)| && currentMark == old(currentMark) + 1
      ensures outcome == Fine ==> Sound()
      ensures var k := Con(kind, strength, v1, v2, Unset, false);
              Added(Frame(Enlisted(old(vars), k, c), old(cons) + [k], Some(c)), currentMark, outcome, trace, vars, cons)
    {
      hide Matched, FreshBut, Listed, Acyclic, Longer, Added;
      ghost var vars0, cons0, k := vars, cons, Con(kind, strength, v1, v2, Unset, false);
      cons := cons + [Con(kind, strength, v1, v2, Unset, false)];
      c := |cons| - 1;
      EnlistedLonger(vars, k, c);
      ConstraintAdded(vars, cons0, k, Enlisted(vars, k, c));
      EnlistedMarks(vars, k, c, currentMark);
      AddToGraph(c);
      assert cons == cons0 + [k];
      outcome, trace := IncrementalAdd(c);
    }

    method RemoveVarCon(v: nat, c: nat)
      requires v < |vars|
      modifies `vars
      ensures vars == old(vars)[v := Dropped(old(vars)[v], c)]
    {
      var kept, list := [], vars[v].constraints;
      for i := 0 to |list|
        invariant kept == Without(list[..i], c) && vars == old(vars)
      {
        assert list[..i + 1][..i] == list[..i];
        if list[i] != c { kept := kept + [list[i]]; }
      }
      assert list[..|list|] == list;
      vars := vars[v := vars[v].(constraints := kept)];
      if vars[v].determinedBy == Some(c) { vars := vars[v := vars[v].(determinedBy := None)]; }
    }

    method RemoveFromGraph(c: nat)
      requires c < |cons| && KnownCon(vars, cons[c])
      modifies `vars, `cons
      ensures vars == Removed(old(vars), old(cons)[c], c) && cons == old(cons)[c := Off(old(cons)[c])]
    {
      hide Dropped;
      ghost var vars0, at: set<nat> := vars, {};
      var k := cons[c];
      DropOne(vars0, vars, c, at, k.v1);
      at := at + {k.v1};
      RemoveVarCon(k.v1, c);
      if !Unary(k) {
        DropOne(vars0, vars, c, at, k.v2);
        at := at + {k.v2};
        RemoveVarCon(k.v2, c);
      }
      if k.kind.Scale? {
        DropOne(vars0, vars, c, at, k.kind.scale);
        at := at + {k.kind.scale};
        RemoveVarCon(k.kind.scale, c);
        DropOne(vars0, vars, c, at, k.kind.offset);
        at := at + {k.kind.offset};
        RemoveVarCon(k.kind.offset, c);
      }
      DroppedAll(vars0, vars, k, c, at);
      cons := cons[c := cons[c].(dir := Unset, satisfied := false)];
    }
  
    /** Recompute the consumers of v in list order; their outputs are visited later. */
    method VisitConsumers(v: nat, rest: seq<nat>, ghost rank: seq<nat>) returns (ok: bool, todo: seq<nat>)
      requires Matched(N()) && RankedBut(N(), rank, {}) && v < |vars|
      requires FreshAfter(vars, cons, Consumers(N(), v), rest)
      modifies `vars
      ensures SameNet(old(vars), vars) && N() == old(N())
      ensures ok ==> todo == rest + Spawn(N(), v) && FreshAfter(vars, cons, [], todo)
      ensures !ok ==> HasScale(cons)
    {
      hide Matched, FreshAfter, RankedBut, Recalculated, SameNet, HasScale, Halfway, Consumers, Spawn;
      ghost var n := N();
      SameNetSelf(vars);
      ListKnown(n, v);
      var det, list := vars[v].determinedBy, vars[v].constraints;
      todo := rest;
      HalfwayStart(n, v, rest, vars, cons);
      for i := 0 to |list|
        invariant SameNet(old(vars), vars) && N() == n && Halfway(n, v, i, rest, todo, vars, cons)
      {
        var c := list[i];
        assert c in n.lists[v];
        if Some(c) != det && Sat(cons[c]) {
          assert SatAt(n, c);
          ghost var before := vars;
          NoLoop(n, rank, c);
          OutputKnown(n, c);
          ok := Recalculate(c);
          if !ok {
            ScaleAt(cons, c);
            AnnotatedNet(before, cons[c]);
            SameNetTrans(old(vars), before, vars);
            SameNetOf(before, vars, cons);
            return false, todo;
          }
          HalfwayTake(n, v, i, rest, todo, before, cons, vars);
          SameNetTrans(old(vars), before, vars);
          SameNetOf(before, vars, cons);
          todo := todo + [Output(cons[c])];
        } else {
          HalfwaySkip(n, v, i, rest, todo, vars, cons);
        }
      }
      HalfwayEnd(n, v, rest, todo, vars, cons);
      ok := true;
    }

    /** Free out and recompute what depended on it; the unsatisfied constraints met on the way come back. */
    method RemovePropagateFrom(out: nat) returns (outcome: Outcome, unsatisfied: seq<nat>, ghost visited: seq<nat>)
      requires out < |vars| && vars[out].determinedBy.None? && Matched(N()) && Acyclic(N())
      requires var vars' := vars[out := vars[out].(determinedBy := None, walk := WEAKEST, stay := true)];
               FreshAfter(vars', cons, [], [out])
      modifies `vars
      ensures |vars| == |old(vars)| && N() == old(N()) && forall v: nat :: v < |vars| ==>
          vars[v].mark == old(vars)[v].mark
      ensures outcome != DividedByZero ==> FreshBut(vars, cons, [])
      ensures outcome != DividedByZero ==>
                Visiting(N(), out, visited, []) && unsatisfied == UnsatAll(N(), visited)
      ensures outcome == Fine && |unsatisfied| > 1 ==>
                |unsatisfied| == 2 && unsatisfied[0] < |cons| && unsatisfied[1] < |cons|
                && cons[unsatisfied[0]].strength < cons[unsatisfied[1]].strength
      ensures outcome == Unsorted ==>
                |unsatisfied| > 2
                || (|unsatisfied| == 2 && unsatisfied[0] < |cons| && unsatisfied[1] < |cons|
                    && cons[unsatisfied[0]].strength >= cons[unsatisfied[1]].strength)
      ensures outcome == DividedByZero ==> HasScale(cons)
      ensures outcome == Fine || outcome == Unsorted || outcome == DividedByZero
    {
      hide Matched, FreshAfter, RankedBut, SameNet, Acyclic, FreshBut, Visiting, HasScale, Removing, Bounded,
          RemoveCost, UnsatIn;
      ghost var n := N();
      ghost var rank := SomeRank(n);
      BoundedAll(n, rank);
      vars := vars[out := vars[out].(determinedBy := None)];
      vars := vars[out := vars[out].(walk := WEAKEST)];
      vars := vars[out := vars[out].(stay := true)];
      assert vars == old(vars)[out := old(vars)[out].(determinedBy := None, walk := WEAKEST, stay := true)];
      assert Lists(vars) == Lists(old(vars)) && Dets(vars) == Dets(old(vars));
      ghost var vars0 := vars;
      unsatisfied, visited := [], [];
      SameNetSelf(vars);
      RemovingStart(vars, cons, out);
      var todo: seq<nat> := [out];
      while todo != []
        invariant N() == n == NetOf(vars0, cons) && SameNet(vars0, vars)
        invariant Removing(vars0, vars, cons, out, visited, todo, unsatisfied)
        decreases RemoveCost(vars0, vars, cons, out, visited, todo, unsatisfied, rank)
      {
        RemovingHead(vars0, vars, cons, out, visited, todo, unsatisfied);
        var v := todo[0];
        ghost var before, queue, unsat := vars, todo, unsatisfied;
        unsatisfied := CollectUnsatisfied(v, unsatisfied);
        var ok;
        ok, todo := VisitConsumers(v, todo[1..], rank);
        SameNetTrans(vars0, before, vars);
        if !ok {
          SameMarks(vars0, vars);
          return DividedByZero, [], [];
        }
        RemovingNext(vars0, before, cons, out, visited, queue, unsat, vars, todo, unsatisfied, rank);
        visited := visited + [v];
      }
      RemovingEnd(vars0, vars, cons, out, visited, unsatisfied);
      if |unsatisfied| <= 1 || (|unsatisfied| == 2 && cons[unsatisfied[0]].strength < cons[unsatisfied[1]].strength) {
        outcome := Fine;
      } else {
        outcome := Unsorted;
      }
    }

    method CollectUnsatisfied(v: nat, unsatisfied: seq<nat>) returns (r: seq<nat>)
      requires v < |vars| && forall c: nat :: c in vars[v].constraints ==> c < |cons|
      ensures r == unsatisfied + UnsatIn(N(), vars[v].constraints)
    {
      var list := vars[v].constraints;
      r := unsatisfied;
      for i := 0 to |list|
        invariant r == unsatisfied + UnsatIn(N(), list[..i])
      {
        var c := list[i];
        assert c in vars[v].constraints;
        assert list[..i + 1][..i] == list[..i];
        if !Sat(cons[c]) { r := r + [c]; }
      }
      assert list[..|list|] == list;
    }
  
    /** Take c out of the graph and recompute what depended on it. */
    method Detach(c: nat) returns (outcome: Outcome, unsatisfied: seq<nat>, ghost visited: seq<nat>)
      requires Sound() && SatAt(N(), c)
      modifies `vars, `cons
      ensures |vars| == |old(vars)| && cons == old(cons)[c := Off(old(cons)[c])]
      ensures Detached(old(vars), old(cons), c, outcome, unsatisfied, visited, Frame(vars, cons, None))
      ensures outcome == Fine ==>
                && Sound() && !Sat(cons[c]) && (forall v: nat :: v < |vars| ==> c !in vars[v].constraints)
                && (forall j: nat :: j < |unsatisfied| ==>
                      unsatisfied[j] < |cons| && !Sat(cons[unsatisfied[j]]) && Listed(N(), unsatisfied[j]))
                && |unsatisfied| <= 2 && (|unsatisfied| == 2 ==> unsatisfied[0] != unsatisfied[1])
      ensures outcome == Fine || outcome == Unsorted || outcome == DividedByZero
    {
      hide Matched, FreshBut, Listed, Acyclic, MarksBelow, FreshAfter, Visiting, Removed, HasScale;
      ghost var vars0, cons0 := vars, cons;
      OutputKnown(N(), c);
      var out := Output(cons[c]);
      RemovedMatched(vars, cons, c);
      cons := cons[c := cons[c].(dir := Unset, satisfied := false)];
      RemoveFromGraph(c);
      RemovedOff(vars0, cons0[c], c);
      assert cons == cons0[c := Off(cons0[c])];
      ghost var vars1 := vars;
      FreedAfter(vars0, cons0, c, vars1, cons,
        vars1[out := vars1[out].(determinedBy := None, walk := WEAKEST, stay := true)], out);
      OutFreed(vars0, cons0, c);
      outcome, unsatisfied, visited := RemovePropagateFrom(out);
      if outcome == DividedByZero { ScaleOff(cons0, c); }
      DetachedMarks(vars0, cons0[c], c, vars);
      RemovedMarks(vars0, cons0[c], c, currentMark);
      MarksSame(vars1, vars, currentMark);
      if outcome == Fine { UnsatVisited(N(), out, visited); }
    }

    /**
     * Take c out of the graph, recompute what depended on it, and try to satisfy what it had kept down.
     * mid is the state after the first half.
     */
    method IncrementalRemove(c: nat)
        returns (outcome: Outcome, ghost first: Outcome, ghost unsat: seq<nat>, ghost visited: seq<nat>,
          ghost mid: Frame, ghost trace: seq<Frame>, ghost tries: seq<Try>)
      requires Sound() && SatAt(N(), c)
      modifies `vars, `cons, `currentMark
      ensures |vars| == |old(vars)| && |cons| == |old(cons)|
      ensures outcome == Fine ==> Sound() && !Sat(cons[c]) && forall v: nat :: v < |vars| ==> c !in vars[v].constraints
      ensures Detached(old(vars), old(cons), c, first, unsat, visited, mid)
      ensures first != Fine ==> outcome == first
      ensures first == Fine && unsat == [] ==> outcome == Fine
      ensures first == Fine && |unsat| == 1 ==>
                currentMark == old(currentMark) + 1
                && Added(mid.(todo := Some(unsat[0])), currentMark, outcome, trace, vars, cons)
      ensures first == Fine ==> Retried(mid, unsat, old(currentMark), outcome, tries, Frame(vars, cons, None))
    {
      hide Matched, FreshBut, Listed, Acyclic, MarksBelow, Visiting, Added, Detached, Retried;
      trace, tries := [], [];
      var unsatisfied;
      outcome, unsatisfied, visited := Detach(c);
      first, unsat, mid := outcome, unsatisfied, Frame(vars, cons, None);
      if outcome != Fine { return; }
      RetriedNone(mid, unsat, currentMark);
      for i := 0 to |unsatisfied|
        invariant outcome == Fine && Sound() && |vars| == |old(vars)| && |cons| == |old(cons)| && !Sat(cons[c])
        invariant forall v: nat :: v < |vars| ==> c !in vars[v].constraints
        invariant forall j: nat :: i <= j < |unsatisfied| ==>
                    unsatisfied[j] < |cons| && !Sat(cons[unsatisfied[j]]) && Listed(N(), unsatisfied[j])
        invariant |unsatisfied| <= 2 && (|unsatisfied| == 2 ==> unsatisfied[0] != unsatisfied[1])
        invariant i == 0 ==> mid == Frame(vars, cons, None)
        invariant currentMark == old(currentMark) + i && |tries| == i
        invariant Retrying(mid, unsat, old(currentMark), tries, Frame(vars, cons, None))
        invariant i == 1 && |unsat| == 1 ==>
            Added(mid.(todo := Some(unsat[0])), currentMark, outcome, trace, vars, cons)
      {
        ghost var vars2, cons2 := vars, cons;
        NotListed(N(), unsatisfied[i], c);
        outcome, trace := IncrementalAdd(unsatisfied[i]);
        RetriedNext(mid, unsat, old(currentMark), tries, Frame(vars2, cons2, None), outcome, trace,
          Frame(vars, cons, None));
        tries := tries + [Try(Frame(vars2, cons2, None), outcome, trace)];
        if outcome != Fine { return; }
        AddedMethods(Frame(vars2, cons2, Some(unsatisfied[i])), currentMark, outcome, trace, vars, cons);
        MethodsLists(vars2, cons2, vars, cons);
        ListsGone(vars2, vars, c);
        forall j: nat | i + 1 <= j < |unsatisfied|
          ensures unsatisfied[j] < |cons| && !Sat(cons[unsatisfied[j]]) && Listed(N(), unsatisfied[j])
        {
          StillListed(vars2, cons2, vars, cons, unsatisfied[j]);
        }
      }
      RetriedAll(mid, unsat, old(currentMark), tries, Frame(vars, cons, None));
    }

    method Destroy(c: nat)
        returns (outcome: Outcome, ghost first: Outcome, ghost unsat: seq<nat>, ghost visited: seq<nat>,
          ghost mid: Frame, ghost after: Frame, ghost trace: seq<Frame>, ghost tries: seq<Try>)
      requires Sound() && c < |cons|
      modifies `vars, `cons, `currentMark
      ensures |vars| == |old(vars)| && |cons| == |old(cons)|
      ensures outcome == Fine ==> Sound() && !Sat(cons[c]) && forall v: nat :: v < |vars| ==> c !in vars[v].constraints
      ensures !Sat(old(cons)[c]) ==> outcome == Fine
      ensures Sat(old(cons)[c]) ==>
                && Detached(old(vars), old(cons), c, first, unsat, visited, mid)
                && (first != Fine ==> outcome == first) && (first == Fine && unsat == [] ==> outcome == Fine)
                && (first == Fine && |unsat| == 1 ==>
                      currentMark == old(currentMark) + 1
                      && Added(mid.(todo := Some(unsat[0])), currentMark, outcome, trace, after.vars, after.cons))
                && (first == Fine ==> Retried(mid, unsat, old(currentMark), outcome, tries, after))
    {
      hide Matched, FreshBut, Acyclic, MarksBelow, Removed, Detached, Added, Retried;
      outcome, first, unsat, visited, trace, tries := Fine, Fine, [], [], [], [];
      mid, after := Frame(vars, cons, None), Frame(vars, cons, None);
      if Sat(cons[c]) { outcome, first, unsat, visited, mid, trace, tries := IncrementalRemove(c); }
      after := Frame(vars, cons, None);
      if outcome != Fine { return; }
      ConKnown(N(), c);
      RemovedMatched(vars, cons, c);
      RemovedFresh(vars, cons, c);
      RemovedMarks(vars, cons[c], c, currentMark);
      RemoveFromGraph(c);
    }

    predicate InputsKnown(c: nat, mark: int)
      requires c < |cons| && KnownCon(vars, cons[c])
      reads this
    {
      Unary(cons[c])
      || vars[Input(cons[c])].mark == mark || vars[Input(cons[c])].stay || vars[Input(cons[c])].determinedBy.None?
    }

    /** Schedule constraints downstream of the sources, each once its input is known. */
    method MakePlan(sources: seq<nat>, ghost rank: seq<nat>) returns (plan: seq<nat>)
      requires Matched(N()) && RankedBut(N(), rank, {}) && MarksBelow(vars, currentMark)
      requires forall i: nat :: i < |sources| ==> SatAt(N(), sources[i])
      modifies `vars, `currentMark
      ensures N() == old(N()) && SameContent(old(vars), vars) && MarksBelow(vars, currentMark)
      ensures Bounded(N(), rank, MaxOf(rank), {})
      ensures plan == PlanOf(N(), Free(old(vars)), rank, MaxOf(rank), {}, sources)
    {
      hide Matched, RankedBut, SameContent, QueueCost, MaxOf, Free, Bounded, PlanOf, Consumers, MarksBelow;
      ghost var n, free, top := N(), Free(vars), MaxOf(rank);
      BoundedAll(n, rank);
      ghost var whole := PlanOf(n, free, rank, top, {}, sources);
      ContentSelf(vars);
      ghost var vars0 := vars;
      var mark := NewMark();
      plan := [];
      var todo := sources;
      ghost var done: set<nat> := {};
      MarksNone(vars, mark);
      while todo != []
        invariant N() == n && SameContent(vars0, vars) && MarksBelow(vars, mark) && currentMark == mark
            && Free(vars) == free
        invariant forall i: nat :: i < |todo| ==> SatAt(n, todo[i])
        invariant forall v: nat :: v < |vars| ==> (vars[v].mark == mark <==> v in done)
        invariant plan + PlanOf(n, free, rank, top, done, todo) == whole
        decreases QueueCost(n, rank, top, {}, todo)
      {
        var c := todo[0];
        PlanStep(n, free, rank, top, done, todo);
        OutputKnown(n, c);
        var out := Output(cons[c]);
        todo := todo[1..];
        KnownInput(vars, cons, c, mark, done);
        if vars[out].mark != mark && InputsKnown(c, mark) {
          ghost var next := PlanOf(n, free, rank, top, done + {out}, todo + Consumers(n, out));
          assert plan + ([c] + next) == plan + [c] + next;
          plan := plan + [c];
          ghost var before := vars;
          MarkOne(vars, cons, out, mark);
          vars := vars[out := vars[out].(mark := mark)];
          ContentTrans(vars0, before, vars);
          ListKnown(n, out);
          todo := AddConstraintsConsumingTo(out, todo);
          done := done + {out};
        }
      }
      PlanDone(n, free, rank, top, done);
      assert plan + [] == plan;
    }

    /** The plan for those of the given constraints that are satisfied inputs. */
    method ExtractPlan(constraints: seq<nat>, ghost rank: seq<nat>) returns (plan: seq<nat>, ghost sources: seq<nat>)
      requires Matched(N()) && RankedBut(N(), rank, {}) && MarksBelow(vars, currentMark)
      requires forall i: nat :: i < |constraints| ==> constraints[i] < |cons|
      modifies `vars, `currentMark
      ensures N() == old(N()) && SameContent(old(vars), vars) && MarksBelow(vars, currentMark)
      ensures forall c: nat :: c in sources <==> c in constraints && c < |cons| && IsInput(cons[c]) && Sat(cons[c])
      ensures |constraints| == 1 && IsInput(cons[constraints[0]]) && Sat(cons[constraints[0]]) ==>
          sources == constraints
      ensures Bounded(N(), rank, MaxOf(rank), {}) && forall i: nat :: i < |sources| ==> SatAt(N(), sources[i])
      ensures plan == PlanOf(N(), Free(old(vars)), rank, MaxOf(rank), {}, sources)
      ensures FreshBut(old(vars), cons, []) ==> Sound()
    {
      hide Matched, RankedBut, MarksBelow, Bounded, FreshBut, SameContent, Free, MaxOf, Acyclic;
      ghost var vars0 := vars;
      var picked := [];
      for i := 0 to |constraints|
        invariant forall c: nat :: c in picked <==>
            c in constraints[..i] && c < |cons| && IsInput(cons[c]) && Sat(cons[c])
        invariant |constraints| == 1 && i == 1 && IsInput(cons[constraints[0]]) && Sat(cons[constraints[0]]) ==>
            picked == constraints
        invariant i == 0 ==> picked == []
      {
        var c := constraints[i];
        assert constraints[..i + 1] == constraints[..i] + [c];
        if IsInput(cons[c]) && Sat(cons[c]) { picked := picked + [c]; }
      }
      assert constraints[..|constraints|] == constraints;
      forall i: nat | i < |picked| ensures SatAt(N(), picked[i]) { assert picked[i] in picked; }
      sources := picked;
      plan := MakePlan(picked, rank);
      RankAcyclic(N(), rank);
      if FreshBut(vars0, cons, []) { ContentKept(vars0, vars, cons); }
    }

    /**
     * Execute the constraints of a plan in order; a plan that changes changeable variables only keeps the
     * planner sound.
     */
    method ExecutePlan(plan: seq<nat>) returns (ok: bool)
      requires PlanKnown(|vars|, cons, plan)
      modifies `vars
      ensures |vars| == |old(vars)| && ok == CanRun(old(vars), cons, plan)
      ensures ok ==> vars == Ran(old(vars), cons, plan)
      ensures ok && Final(cons, plan) ==>
                forall i: nat :: i < |plan| ==> KnownCon(vars, cons[plan[i]]) && Met(vars, cons[plan[i]])
      ensures ok && old(Sound()) && Moving(old(N()), old(vars), plan) ==>
          OnlyValues(old(vars), vars) && N() == old(N()) && Sound()
    {
      hide Matched, RankedBut, MarksBelow, FreshBut, Moving, Acyclic, OnlyValues, Executed;
      var i := 0;
      while i < |plan|
        invariant i <= |plan| && |vars| == |old(vars)| && PlanKnown(|vars|, cons, plan[i..])
        invariant CanRun(vars, cons, plan[i..]) == CanRun(old(vars), cons, plan)
        invariant CanRun(vars, cons, plan[i..]) ==> Ran(vars, cons, plan[i..]) == Ran(old(vars), cons, plan)
      {
        PlanTail(|vars|, cons, plan[i..]);
        assert plan[i..][1..] == plan[i + 1..] && plan[i..][0] == plan[i];
        ok := Execute(plan[i]);
        if !ok { return; }
        i := i + 1;
      }
      assert plan[i..] == [];
      ok := true;
      if Final(cons, plan) { PlanMeets(old(vars), cons, plan); }
      if old(Sound()) && Moving(old(N()), old(vars), plan) {
        RanValues(old(vars), cons, plan);
        ValuesKept(old(vars), vars, cons);
        ValuesMarks(old(vars), vars, currentMark);
      }
    }
  }
}
