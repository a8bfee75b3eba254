/** The chain test: a value set at one end of a chain of any length arrives at the other. */
module DeltaBlueTest {
  import opened DeltaBlue
  import opened DeltaBlueChain
  import opened DeltaBlueDrive
  import opened DeltaBlueGrow
  import opened DeltaBlueNet
  import opened DeltaBluePlan
  import opened DeltaBlueRuns
  import opened DeltaBlueShrink
  import opened DeltaBlueSteps
  import opened Options

  /** n + 1 untouched variables are a chain not yet joined. */
  lemma NothingBuilt(vars: seq<Var>, n: nat)
    requires |vars| == n + 1 && forall v: nat :: v < |vars| ==> vars[v] == NewVariable(0)
    ensures Built(vars, [], n, 0)
  {}

  lemma NothingSound()
    ensures Matched(NetOf([], [])) && Acyclic(NetOf([], [])) && FreshBut([], [], []) && MarksBelow([], 1)
  {
    assert RankedBut(NetOf([], []), [], {});
  }

  lemma EqualityAdded(vars: seq<Var>, cons: seq<Con>, n: nat, m: nat, mark: int, outcome: Outcome, trace: seq<Frame>,
                      vars': seq<Var>, cons': seq<Con>)
    requires Matched(NetOf(vars, cons)) && Acyclic(NetOf(vars, cons)) && FreshBut(vars, cons, [])
        && MarksBelow(vars, mark - 1)
    requires Built(vars, cons, n, m) && m < n && KnownCon(vars, EqualityOf(m))
    requires Added(Frame(Enlisted(vars, EqualityOf(m), m), cons + [EqualityOf(m)], Some(m)), mark, outcome, trace,
        vars', cons')
    ensures outcome == Fine && Built(vars', cons', n, m + 1)
  {
    hide Added, Matched, Acyclic, FreshBut, Enlisted, RightNet, MarkedTo, MarksBelow, Settled;
    FirstFrame(vars, cons, EqualityOf(m), mark);
    EqualityJoins(vars, cons, n, m);
    Builds(Frame(Enlisted(vars, EqualityOf(m), m), cons + [EqualityOf(m)], Some(m)), mark, outcome, trace, vars',
      cons', n, m);
  }

  lemma StayAdded(vars: seq<Var>, cons: seq<Con>, n: nat, mark: int, outcome: Outcome, trace: seq<Frame>,
                  vars': seq<Var>, cons': seq<Con>)
    requires Matched(NetOf(vars, cons)) && Acyclic(NetOf(vars, cons)) && FreshBut(vars, cons, [])
        && MarksBelow(vars, mark - 1)
    requires Built(vars, cons, n, n) && KnownCon(vars, StayOn(n))
    requires Added(Frame(Enlisted(vars, StayOn(n), n), cons + [StayOn(n)], Some(n)), mark, outcome, trace, vars', cons')
    ensures outcome == Fine && Held(vars', cons', n)
  {
    hide Added, Matched, Acyclic, FreshBut, Enlisted, RightNet, MarkedTo, MarksBelow, Settled, LeftNet;
    FirstFrame(vars, cons, StayOn(n), mark);
    StayJoins(vars, cons, n);
    Anchors(Frame(Enlisted(vars, StayOn(n), n), cons + [StayOn(n)], Some(n)), mark, outcome, trace, vars', cons', n);
  }

  lemma EditAdded(vars: seq<Var>, cons: seq<Con>, n: nat, mark: int, outcome: Outcome, trace: seq<Frame>,
                  vars': seq<Var>, cons': seq<Con>)
    requires Matched(NetOf(vars, cons)) && Acyclic(NetOf(vars, cons)) && FreshBut(vars, cons, [])
        && MarksBelow(vars, mark - 1)
    requires Held(vars, cons, n) && |cons| == n + 1 && KnownCon(vars, EditOf())
    requires Added(Frame(Enlisted(vars, EditOf(), n + 1), cons + [EditOf()], Some(n + 1)), mark, outcome, trace, vars',
        cons')
    ensures outcome == Fine && Driven(vars', cons', n)
  {
    hide Added, Matched, Acyclic, FreshBut, Enlisted, RightNet, MarkedTo, MarksBelow, Settled, LeftNet, Edited;
    FirstFrame(vars, cons, EditOf(), mark);
    EditJoins(vars, cons, n);
    Drives(Frame(Enlisted(vars, EditOf(), n + 1), cons + [EditOf()], Some(n + 1)), mark, outcome, trace, vars', cons',
      n);
  }

  /** Destroying the edit detaches it and lets the stay turn the chain back. */
  lemma EditDestroyed(vars: seq<Var>, cons: seq<Con>, n: nat, mark: int, first: Outcome, unsat: seq<nat>,
                      visited: seq<nat>, mid: Frame, outcome: Outcome, trace: seq<Frame>, after: Frame)
    requires Driven(vars, cons, n) && n + 1 < |cons| && Detached(vars, cons, n + 1, first, unsat, visited, mid)
    requires MarksBelow(vars, mark - 1)
    requires first == Fine && unsat == [n] ==>
        Added(mid.(todo := Some(n)), mark, outcome, trace, after.vars, after.cons)
    ensures first == Fine && unsat == [n] && outcome == Fine && Held(after.vars, after.cons, n)
  {
    hide Added, RightNet, LeftNet, Detached, Settled, Matched, FreshBut;
    EditDetached(vars, cons, n, first, unsat, visited, mid);
    var f := mid.(todo := Some(n));
    assert Settled(f) && MarkedTo(f.vars, mark, 0) by { SettledTodo(mid, Some(n)); }
    Anchors(f, mark, outcome, trace, after.vars, after.cons, n);
  }

  lemma SettledTodo(f: Frame, todo: Option<nat>)
    requires Settled(f)
    ensures Settled(f.(todo := todo))
  {}

  lemma ValueSet(vars: seq<Var>, cons: seq<Con>, n: nat, i: int, mark: int)
    requires Driven(vars, cons, n) && Matched(NetOf(vars, cons)) && FreshBut(vars, cons, []) && MarksBelow(vars, mark)
    ensures |vars| == n + 1
    ensures var vars' := vars[0 := vars[0].(value := i)];
            NetOf(vars', cons) == NetOf(vars, cons) && FreshBut(vars', cons, []) && MarksBelow(vars', mark)
  {
    hide FreshBut, Matched, RightNet;
    DrivenMoves(vars, cons, n, 0);
    var vars' := vars[0 := vars[0].(value := i)];
    ValuesKept(vars, vars', cons);
  }

  lemma DrivenPlanMoves(vars: seq<Var>, cons: seq<Con>, n: nat, free: set<nat>, rank: seq<nat>, top: nat)
    requires Driven(vars, cons, n) && FreshBut(vars, cons, []) && Bounded(NetOf(vars, cons), rank, top, {})
    ensures SatAt(NetOf(vars, cons), n + 1)
        && PlanOf(NetOf(vars, cons), free, rank, top, {}, [n + 1]) == [n + 1] + Along(0, n)
    ensures Moving(NetOf(vars, cons), vars, [n + 1] + Along(0, n))
  {
    hide FreshBut, Bounded, PlanOf;
    EditPlan(NetOf(vars, cons), n, free, rank, top);
    DrivenMoves(vars, cons, n, 0);
    RightParts(NetOf(vars, cons), n, n, true, true, n, Some(n + 1), Some(n));
    assert Moving(NetOf(vars, cons), vars, [n + 1]);
    PlanMoves(vars, cons, free, rank, top, {}, [n + 1]);
  }

  lemma DrivenEdit(vars: seq<Var>, cons: seq<Con>, n: nat)
    requires Driven(vars, cons, n)
    ensures n + 1 < |cons| && IsInput(cons[n + 1]) && Sat(cons[n + 1]) && |vars| == n + 1
  {
    RightParts(NetOf(vars, cons), n, n, true, true, n, Some(n + 1), Some(n));
  }

  /** Build the chain, hold its end, drive its start, run the plan a hundred times, and let go: nothing fails. */
  method ChainTest(n: nat) returns (passed: bool)
    ensures passed
  {
    hide Matched, Acyclic, FreshBut, MarksBelow, Added, RightNet, LeftNet, Enlisted, Detached, Free, Bounded,
        RankedBut, PlanOf, Ran, CanRun, PlanKnown, Moving, MaxOf, OnlyValues;
    var p := new Planner();
    NothingSound();
    for i := 0 to n + 1
      invariant fresh(p) && p.Sound() && p.currentMark == 1 && p.cons == []
      invariant |p.vars| == i && forall v: nat :: v < i ==> p.vars[v] == NewVariable(0)
    {
      var v := p.NewVar(0);
    }
    NothingBuilt(p.vars, n);
    var outcome;
    for i := 0 to n
      invariant fresh(p) && p.Sound() && |p.vars| == n + 1 && Built(p.vars, p.cons, n, i)
    {
      ghost var vars0, cons0, trace := p.vars, p.cons, [];
      var c;
      outcome, c, trace := p.NewCon(Equality, REQUIRED, i, i + 1);
      EqualityAdded(vars0, cons0, n, i, p.currentMark, outcome, trace, p.vars, p.cons);
      if outcome != Fine { return false; }
    }
    ghost var vars1, cons1, trace1 := p.vars, p.cons, [];
    var stay;
    outcome, stay, trace1 := p.NewCon(Stay, STRONG_DEFAULT, n, n);
    StayAdded(vars1, cons1, n, p.currentMark, outcome, trace1, p.vars, p.cons);
    if outcome != Fine { return false; }
    ghost var vars2, cons2, trace2 := p.vars, p.cons, [];
    var edit;
    outcome, edit, trace2 := p.NewCon(Edit, PREFERRED, 0, 0);
    EditAdded(vars2, cons2, n, p.currentMark, outcome, trace2, p.vars, p.cons);
    if outcome != Fine { return false; }
    passed := Drive(p, n, edit);
  }

  /** The second half of the chain test, from the driven chain on. */
  method Drive(p: Planner, n: nat, edit: nat) returns (passed: bool)
    requires p.Sound() && Driven(p.vars, p.cons, n) && edit == n + 1
    modifies p
    ensures passed
  {
    hide Matched, Acyclic, FreshBut, MarksBelow, Added, RightNet, Detached, Free, Bounded, RankedBut, PlanOf, Ran,
        CanRun, PlanKnown, Moving, MaxOf, OnlyValues;
    DrivenEdit(p.vars, p.cons, n);
    ghost var rank := SomeRank(p.N());
    ghost var vars0, sources := p.vars, [];
    var plan;
    plan, sources := p.ExtractPlan([edit], rank);
    DrivenPlanMoves(p.vars, p.cons, n, Free(vars0), rank, MaxOf(rank));
    for i := 0 to 100
      invariant p.Sound() && Driven(p.vars, p.cons, n) && |p.vars| == n + 1 && plan == [n + 1] + Along(0, n)
      invariant Bounded(p.N(), rank, MaxOf(rank), {}) && p.cons == old(p.cons)
    {
      ValueSet(p.vars, p.cons, n, i, p.currentMark);
      p.vars := p.vars[0 := p.vars[0].(value := i)];
      EditRuns(p.vars, p.cons, n);
      DrivenPlanMoves(p.vars, p.cons, n, {}, rank, MaxOf(rank));
      var ok := p.ExecutePlan(plan);
      if !ok || p.vars[n].value != i { return false; }
    }
    ghost var vars1, cons1 := p.vars, p.cons;
    DrivenEdit(p.vars, p.cons, n);
    var outcome;
    ghost var first, unsat, visited, mid, after, trace, tries;
    outcome, first, unsat, visited, mid, after, trace, tries := p.Destroy(edit);
    EditDetached(vars1, cons1, n, first, unsat, visited, mid);
    EditDestroyed(vars1, cons1, n, p.currentMark, first, unsat, visited, mid, outcome, trace, after);
    passed := outcome == Fine;
  }
}
