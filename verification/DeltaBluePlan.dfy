/** Plans: the order in which make_plan schedules constraints, and what executing a plan achieves. */
module DeltaBluePlan {
  import opened DeltaBlueGrow
  import opened DeltaBlueNet
  import opened DeltaBlueShrink
  import opened DeltaBlueSteps
  import opened Options

  /** The one input of k that scheduling looks at is scheduled, constant or undetermined. */
  ghost predicate InputKnown(k: Con, free: set<nat>, done: set<nat>)
  {
    Unary(k) || Input(k) in done || Input(k) in free
  }

  /** What make_plan schedules from queue todo, with the outputs done scheduled and the variables free known. */
  ghost function PlanOf(n: Net, free: set<nat>, rank: seq<nat>, top: nat, done: set<nat>, todo: seq<nat>): seq<nat>
    requires Bounded(n, rank, top, {}) && forall i: nat :: i < |todo| ==> SatAt(n, todo[i])
    decreases QueueCost(n, rank, top, {}, todo)
  {
    if todo == [] then []
    else
      var c := todo[0];
      assert todo == [c] + todo[1..] && SatAt(n, todo[0]);
      BoundedOutput(n, rank, top, c);
      TurnCost(n, rank, top, {}, c, todo[1..]);
      var out := Output(n.cons[c]);
      if out !in done && InputKnown(n.cons[c], free, done) then
        [c] + PlanOf(n, free, rank, top, done + {out}, todo[1..] + Consumers(n, out))
      else PlanOf(n, free, rank, top, done, todo[1..])
  }

  /** One turn of make_plan. */
  lemma PlanStep(n: Net, free: set<nat>, rank: seq<nat>, top: nat, done: set<nat>, todo: seq<nat>)
    requires Bounded(n, rank, top, {}) && (forall i: nat :: i < |todo| ==> SatAt(n, todo[i])) && todo != []
    ensures SatAt(n, todo[0]) && Output(n.cons[todo[0]]) < |n.lists| == |n.det|
    ensures var c, out, rest := todo[0], Output(n.cons[todo[0]]), todo[1..];
            && (forall i: nat :: i < |rest| ==> SatAt(n, rest[i]))
            && (forall i: nat :: i < |rest + Consumers(n, out)| ==> SatAt(n, (rest + Consumers(n, out))[i]))
            && QueueCost(n, rank, top, {}, rest) < QueueCost(n, rank, top, {}, todo)
            && QueueCost(n, rank, top, {}, rest + Consumers(n, out)) < QueueCost(n, rank, top, {}, todo)
            && PlanOf(n, free, rank, top, done, todo)
               == if out !in done && InputKnown(n.cons[c], free, done) then
                    [c] + PlanOf(n, free, rank, top, done + {out}, rest + Consumers(n, out))
                  else PlanOf(n, free, rank, top, done, rest)
  {
    hide Bounded, QueueCost, Consumers;
    assert todo == [todo[0]] + todo[1..] && SatAt(n, todo[0]);
    BoundedOutput(n, rank, top, todo[0]);
    BoundedSizes(n, rank, top);
    TurnCost(n, rank, top, {}, todo[0], todo[1..]);
  }

  lemma PlanDone(n: Net, free: set<nat>, rank: seq<nat>, top: nat, done: set<nat>)
    requires Bounded(n, rank, top, {})
    ensures PlanOf(n, free, rank, top, done, []) == []
  {}

  lemma BoundedSizes(n: Net, rank: seq<nat>, top: nat)
    requires Bounded(n, rank, top, {})
    ensures |n.lists| == |n.det|
  {}

  /** The outputs of a plan. */
  ghost function OutputSet(cons: seq<Con>, plan: seq<nat>): set<nat>
    requires forall i: nat :: i < |plan| ==> plan[i] < |cons|
    decreases |plan|
  {
    if plan == [] then {} else {Output(cons[plan[0]])} + OutputSet(cons, plan[1..])
  }

  lemma {:induction false} OutputSetHas(cons: seq<Con>, plan: seq<nat>, v: nat)
    requires forall i: nat :: i < |plan| ==> plan[i] < |cons|
    ensures v in OutputSet(cons, plan) <==> exists i: nat :: i < |plan| && Output(cons[plan[i]]) == v
  {
    if plan != [] {
      OutputSetHas(cons, plan[1..], v);
      if v in OutputSet(cons, plan[1..]) {
        var i: nat :| i < |plan[1..]| && Output(cons[plan[1..][i]]) == v;
        assert plan[i + 1] == plan[1..][i];
      }
      if exists i: nat :: i < |plan| && Output(cons[plan[i]]) == v {
        var i: nat :| i < |plan| && Output(cons[plan[i]]) == v;
        if i > 0 { assert plan[1..][i - 1] == plan[i]; }
      }
    }
  }

  /** A plan in which outputs are new and the scheduled input of each step is known by then. */
  ghost predicate Scheduled(n: Net, free: set<nat>, done: set<nat>, plan: seq<nat>)
    decreases |plan|
  {
    plan != [] ==>
      && SatAt(n, plan[0]) && Output(n.cons[plan[0]]) !in done && InputKnown(n.cons[plan[0]], free, done)
      && Scheduled(n, free, done + {Output(n.cons[plan[0]])}, plan[1..])
  }

  /** What make_plan returns is such a plan. */
  lemma {:induction false} PlanScheduled(n: Net, free: set<nat>, rank: seq<nat>, top: nat, done: set<nat>,
                                         todo: seq<nat>)
    requires Bounded(n, rank, top, {}) && forall i: nat :: i < |todo| ==> SatAt(n, todo[i])
    ensures Scheduled(n, free, done, PlanOf(n, free, rank, top, done, todo))
    decreases QueueCost(n, rank, top, {}, todo)
  {
    hide Bounded, QueueCost;
    if todo != [] {
      var c := todo[0];
      assert todo == [c] + todo[1..] && SatAt(n, todo[0]);
      BoundedOutput(n, rank, top, c);
      TurnCost(n, rank, top, {}, c, todo[1..]);
      var out := Output(n.cons[c]);
      if out !in done && InputKnown(n.cons[c], free, done) {
        PlanScheduled(n, free, rank, top, done + {out}, todo[1..] + Consumers(n, out));
        var p := PlanOf(n, free, rank, top, done + {out}, todo[1..] + Consumers(n, out));
        assert ([c] + p)[1..] == p;
      } else {
        PlanScheduled(n, free, rank, top, done, todo[1..]);
      }
    }
  }

  /** c is in the queue, or reads what the plan computes. */
  ghost predicate Reached(n: Net, plan: seq<nat>, todo: seq<nat>, c: nat)
    requires forall i: nat :: i < |plan| ==> plan[i] < |n.cons|
  {
    SatAt(n, c) && (c in todo || exists v: nat :: v in OutputSet(n.cons, plan) && Feeds(n.cons[c], v))
  }

  lemma {:induction false} PlanCovers(n: Net, free: set<nat>, rank: seq<nat>, top: nat, done: set<nat>, todo: seq<nat>,
                                      c: nat)
    requires Matched(n) && Bounded(n, rank, top, {}) && forall i: nat :: i < |todo| ==> SatAt(n, todo[i])
    ensures var plan := PlanOf(n, free, rank, top, done, todo);
            && (forall i: nat :: i < |plan| ==> plan[i] < |n.cons|)
            && (Reached(n, plan, todo, c) && InputKnown(n.cons[c], free, done + OutputSet(n.cons, plan)) ==>
                  Output(n.cons[c]) in done + OutputSet(n.cons, plan))
    decreases QueueCost(n, rank, top, {}, todo)
  {
    hide Bounded, QueueCost, Matched, Consumers;
    if todo == [] {
      PlanDone(n, free, rank, top, done);
    } else {
      PlanStep(n, free, rank, top, done, todo);
      var head, out, rest := todo[0], Output(n.cons[todo[0]]), todo[1..];
      assert todo == [head] + rest;
      if out !in done && InputKnown(n.cons[head], free, done) {
        var more := rest + Consumers(n, out);
        PlanCovers(n, free, rank, top, done + {out}, more, c);
        var p := PlanOf(n, free, rank, top, done + {out}, more);
        PlanHead(n, done, head, p);
        if SatAt(n, c) && Feeds(n.cons[c], out) { ReadsConsumer(n, rank, top, out, c); }
      } else {
        PlanCovers(n, free, rank, top, done, rest, c);
      }
    }
  }

  lemma PlanHead(n: Net, done: set<nat>, head: nat, p: seq<nat>)
    requires head < |n.cons| && forall i: nat :: i < |p| ==> p[i] < |n.cons|
    ensures forall i: nat :: i < |[head] + p| ==> ([head] + p)[i] < |n.cons|
    ensures OutputSet(n.cons, [head] + p) == {Output(n.cons[head])} + OutputSet(n.cons, p)
    ensures done + OutputSet(n.cons, [head] + p) == done + {Output(n.cons[head])} + OutputSet(n.cons, p)
  {
    assert ([head] + p)[1..] == p;
  }

  lemma ReadsConsumer(n: Net, rank: seq<nat>, top: nat, v: nat, c: nat)
    requires Matched(n) && Bounded(n, rank, top, {}) && SatAt(n, c) && Feeds(n.cons[c], v)
    ensures v < |n.lists| && c in Consumers(n, v)
  {
    OutputKnown(n, c);
    assert ConInRange(n.cons[c], |n.det|);
    ConsumersFeed(n, v, c);
  }

  /**
   * The plan leaves nothing out: every satisfied constraint that is a source, or reads what the plan
   * computes, and whose scheduled input is known in the end is in it.
   */
  lemma PlanComplete(n: Net, free: set<nat>, rank: seq<nat>, top: nat, todo: seq<nat>, c: nat)
    requires Matched(n) && Bounded(n, rank, top, {}) && forall i: nat :: i < |todo| ==> SatAt(n, todo[i])
    ensures var plan := PlanOf(n, free, rank, top, {}, todo);
            && (forall i: nat :: i < |plan| ==> plan[i] < |n.cons|)
            && (Reached(n, plan, todo, c) && InputKnown(n.cons[c], free, OutputSet(n.cons, plan)) ==> c in plan)
  {
    hide Bounded, QueueCost, Feeds;
    PlanCovers(n, free, rank, top, {}, todo, c);
    var plan := PlanOf(n, free, rank, top, {}, todo);
    assert {} + OutputSet(n.cons, plan) == OutputSet(n.cons, plan);
    PlanScheduled(n, free, rank, top, {}, todo);
    if Reached(n, plan, todo, c) && InputKnown(n.cons[c], free, OutputSet(n.cons, plan)) {
      OutputSetHas(n.cons, plan, Output(n.cons[c]));
      var i: nat :| i < |plan| && Output(n.cons[plan[i]]) == Output(n.cons[c]);
      ScheduledSat(n, free, {}, plan, i);
      OutputKnown(n, c);
      OutputKnown(n, plan[i]);
    }
  }

  lemma {:induction false} ScheduledSat(n: Net, free: set<nat>, done: set<nat>, plan: seq<nat>, i: nat)
    requires Scheduled(n, free, done, plan) && i < |plan|
    ensures SatAt(n, plan[i])
    decreases i
  {
    if i > 0 {
      ScheduledSat(n, free, done + {Output(n.cons[plan[0]])}, plan[1..], i - 1);
      assert plan[1..][i - 1] == plan[i];
    }
  }

  /** All outputs of the queue are changeable. */
  ghost predicate Moving(n: Net, vars: seq<Var>, q: seq<nat>)
  {
    forall i: nat :: i < |q| ==> SatAt(n, q[i]) && Output(n.cons[q[i]]) < |vars| && !vars[Output(n.cons[q[i]])].stay
  }

  /** Downstream of a changeable variable nothing is constant. */
  lemma ConsumersMove(vars: seq<Var>, cons: seq<Con>, v: nat)
    requires Matched(NetOf(vars, cons)) && FreshBut(vars, cons, []) && v < |vars| && !vars[v].stay
    ensures Moving(NetOf(vars, cons), vars, Consumers(NetOf(vars, cons), v))
  {
    var n := NetOf(vars, cons);
    var q := Consumers(n, v);
    forall i: nat | i < |q| ensures SatAt(n, q[i]) && Output(cons[q[i]]) < |vars| && !vars[Output(cons[q[i]])].stay {
      ConsumersKnown(n, v);
      ConsumersFeed(n, v, q[i]);
      assert Fresh(vars, cons[q[i]]);
    }
  }

  /** A plan made from changeable sources changes only changeable variables. */
  lemma {:induction false} PlanMoves(vars: seq<Var>, cons: seq<Con>, free: set<nat>, rank: seq<nat>, top: nat,
                                     done: set<nat>, todo: seq<nat>)
    requires Bounded(NetOf(vars, cons), rank, top, {}) && FreshBut(vars, cons, [])
        && Moving(NetOf(vars, cons), vars, todo)
    ensures Moving(NetOf(vars, cons), vars, PlanOf(NetOf(vars, cons), free, rank, top, done, todo))
    decreases QueueCost(NetOf(vars, cons), rank, top, {}, todo)
  {
    hide QueueCost, FreshBut;
    var n := NetOf(vars, cons);
    if todo != [] {
      var c := todo[0];
      assert todo == [c] + todo[1..] && SatAt(n, todo[0]);
      BoundedOutput(n, rank, top, c);
      TurnCost(n, rank, top, {}, c, todo[1..]);
      var out := Output(n.cons[c]);
      assert !vars[out].stay;
      assert Moving(n, vars, todo[1..]) by { forall i: nat | i < |todo| - 1 ensures todo[1..][i] == todo[i + 1] {} }
      if out !in done && InputKnown(n.cons[c], free, done) {
        ConsumersMove(vars, cons, out);
        PlanMoves(vars, cons, free, rank, top, done + {out}, todo[1..] + Consumers(n, out));
      } else {
        PlanMoves(vars, cons, free, rank, top, done, todo[1..]);
      }
    }
  }

  // ── Executing a plan ──────────────────────────────────────────────

  ghost predicate PlanKnown(count: nat, cons: seq<Con>, plan: seq<nat>)
  {
    forall i: nat :: i < |plan| ==> plan[i] < |cons| && ConInRange(cons[plan[i]], count)
  }

  lemma PlanTail(count: nat, cons: seq<Con>, plan: seq<nat>)
    requires PlanKnown(count, cons, plan) && plan != []
    ensures plan[0] < |cons| && ConInRange(cons[plan[0]], count) && PlanKnown(count, cons, plan[1..])
  {
    forall i: nat | i < |plan| - 1 ensures plan[1..][i] < |cons| && ConInRange(cons[plan[1..][i]], count) {
      assert plan[1..][i] == plan[i + 1];
    }
  }

  /** No step of the plan divides by zero when the steps before it have run. */
  ghost predicate CanRun(vars: seq<Var>, cons: seq<Con>, plan: seq<nat>)
    requires PlanKnown(|vars|, cons, plan)
    decreases |plan|
  {
    plan != [] ==>
      (PlanTail(|vars|, cons, plan);
       CanExecute(vars, cons[plan[0]]) && CanRun(Executed(vars, cons[plan[0]]), cons, plan[1..]))
  }

  ghost function Ran(vars: seq<Var>, cons: seq<Con>, plan: seq<nat>): (r: seq<Var>)
    requires PlanKnown(|vars|, cons, plan) && CanRun(vars, cons, plan)
    ensures |r| == |vars|
    decreases |plan|
  {
    PlanKnownTail(|vars|, cons, plan);
    if plan == [] then vars else Ran(Executed(vars, cons[plan[0]]), cons, plan[1..])
  }

  lemma PlanKnownTail(count: nat, cons: seq<Con>, plan: seq<nat>)
    requires PlanKnown(count, cons, plan)
    ensures plan != [] ==> plan[0] < |cons| && ConInRange(cons[plan[0]], count) && PlanKnown(count, cons, plan[1..])
  {
    if plan != [] { PlanTail(count, cons, plan); }
  }

  lemma {:induction false} RanElsewhere(vars: seq<Var>, cons: seq<Con>, plan: seq<nat>, v: nat)
    requires PlanKnown(|vars|, cons, plan) && CanRun(vars, cons, plan) && v < |vars| && v !in OutputSet(cons, plan)
    ensures Ran(vars, cons, plan)[v] == vars[v]
    decreases |plan|
  {
    PlanKnownTail(|vars|, cons, plan);
    if plan != [] { RanElsewhere(Executed(vars, cons[plan[0]]), cons, plan[1..], v); }
  }

  /** Every value that c reads is final by the time c runs: nothing at or after it in the plan writes one. */
  ghost predicate Final(cons: seq<Con>, plan: seq<nat>)
    requires forall i: nat :: i < |plan| ==> plan[i] < |cons|
    decreases |plan|
  {
    plan != [] ==>
      && (forall v: nat :: Feeds(cons[plan[0]], v) ==> v !in OutputSet(cons, plan))
      && Output(cons[plan[0]]) !in OutputSet(cons, plan[1..])
      && Final(cons, plan[1..])
  }

  /** k's output has the value k computes. */
  ghost predicate Holds(vars: seq<Var>, k: Con)
  {
    KnownCon(vars, k) && CanExecute(vars, k) && vars[Output(k)].value == Computed(vars, k)
  }

  /**
   * What a constraint asks of the values, said without computing: equal ends; the product and the offset; or,
   * scaling backward, the quotient that leaves a remainder smaller than the factor and of the dividend's sign.
   */
  ghost predicate Met(vars: seq<Var>, k: Con)
    requires KnownCon(vars, k)
  {
    match k.kind
    case Equality => vars[k.v1].value == vars[k.v2].value
    case Scale(s, o) =>
      var rest := vars[k.v2].value - vars[o].value;
      if k.dir == Forward then rest == vars[k.v1].value * vars[s].value
      else Remainder(rest - vars[k.v1].value * vars[s].value, rest, vars[s].value)
    case _ => true
  }

  /** A constraint holds exactly when it is met. */
  lemma HoldsIff(vars: seq<Var>, k: Con)
    requires KnownCon(vars, k) && CanExecute(vars, k)
    ensures Holds(vars, k) <==> Met(vars, k)
  {
    if k.kind.Scale? && k.dir != Forward {
      TruncDivIff(vars[k.v2].value - vars[k.kind.offset].value, vars[k.kind.scale].value, vars[k.v1].value);
    }
  }

  /** Executing a constraint that does not read its own output meets it. */
  lemma ExecutedMeets(vars: seq<Var>, k: Con)
    requires KnownCon(vars, k) && CanExecute(vars, k) && !Feeds(k, Output(k))
    ensures Met(Executed(vars, k), k)
  {
    var vars1 := Executed(vars, k);
    ReadsSame(vars, vars1, vars1, k);
    HoldsIff(vars1, k);
  }

  /** After a plan whose inputs are final has run, every constraint of it is met. */
  lemma PlanMeets(vars: seq<Var>, cons: seq<Con>, plan: seq<nat>)
    requires PlanKnown(|vars|, cons, plan) && CanRun(vars, cons, plan) && Final(cons, plan)
    ensures var r := Ran(vars, cons, plan);
            forall i: nat :: i < |plan| ==> KnownCon(r, cons[plan[i]]) && Met(r, cons[plan[i]])
  {
    hide Met;
    var r := Ran(vars, cons, plan);
    forall i: nat | i < |plan| ensures KnownCon(r, cons[plan[i]]) && Met(r, cons[plan[i]]) {
      PlanHolds(vars, cons, plan, i);
      HoldsIff(r, cons[plan[i]]);
    }
  }

  /** After a plan whose inputs are final has run, every constraint of it holds. */
  lemma {:induction false} PlanHolds(vars: seq<Var>, cons: seq<Con>, plan: seq<nat>, i: nat)
    requires PlanKnown(|vars|, cons, plan) && CanRun(vars, cons, plan) && Final(cons, plan) && i < |plan|
    ensures Holds(Ran(vars, cons, plan), cons[plan[i]])
    decreases i
  {
    PlanKnownTail(|vars|, cons, plan);
    var k := cons[plan[0]];
    var vars1 := Executed(vars, k);
    if i > 0 {
      PlanHolds(vars1, cons, plan[1..], i - 1);
      assert plan[1..][i - 1] == plan[i];
    } else {
      var r := Ran(vars1, cons, plan[1..]);
      forall v: nat | v < |vars| && (Feeds(k, v) || v == Output(k)) ensures r[v] == vars1[v] {
        RanElsewhere(vars1, cons, plan[1..], v);
      }
      forall v: nat | v < |vars| && Feeds(k, v) ensures vars1[v] == vars[v] {}
      ReadsSame(vars, vars1, r, k);
    }
  }

  lemma ReadsSame(vars: seq<Var>, vars1: seq<Var>, r: seq<Var>, k: Con)
    requires KnownCon(vars, k) && CanExecute(vars, k) && vars1 == Executed(vars, k) && |r| == |vars|
    requires forall v: nat :: v < |vars| && (Feeds(k, v) || v == Output(k)) ==> r[v] == vars1[v]
    requires forall v: nat :: v < |vars| && Feeds(k, v) ==> vars1[v] == vars[v]
    ensures Holds(r, k)
  {}

  /** Only values differ, and only of variables that are not constant. */
  ghost predicate OnlyValues(a: seq<Var>, b: seq<Var>)
  {
    |a| == |b| && forall v: nat :: v < |a| ==> b[v] == a[v].(value := b[v].value) && (a[v].stay ==> b[v] == a[v])
  }

  /** Giving changeable variables other values leaves every annotation right. */
  lemma ValuesKept(a: seq<Var>, b: seq<Var>, cons: seq<Con>)
    requires OnlyValues(a, b) && Matched(NetOf(a, cons)) && FreshBut(a, cons, [])
    ensures NetOf(b, cons) == NetOf(a, cons) && FreshBut(b, cons, [])
  {
    assert Lists(b) == Lists(a) && Dets(b) == Dets(a);
    forall d: nat | d < |cons| && Sat(cons[d]) ensures Fresh(b, cons[d]) {
      OutputKnown(NetOf(a, cons), d);
      assert Fresh(a, cons[d]);
    }
  }

  /** Executing constraints with changeable outputs changes values of changeable variables only. */
  lemma {:induction false} RanValues(vars: seq<Var>, cons: seq<Con>, plan: seq<nat>)
    requires PlanKnown(|vars|, cons, plan) && CanRun(vars, cons, plan) && Moving(NetOf(vars, cons), vars, plan)
    ensures OnlyValues(vars, Ran(vars, cons, plan))
    decreases |plan|
  {
    PlanKnownTail(|vars|, cons, plan);
    if plan != [] {
      var k := cons[plan[0]];
      var vars1 := Executed(vars, k);
      MovingTail(vars, cons, plan);
      MovingHead(vars, cons, plan);
      RanValues(vars1, cons, plan[1..]);
    }
  }

  lemma MovingHead(vars: seq<Var>, cons: seq<Con>, plan: seq<nat>)
    requires Moving(NetOf(vars, cons), vars, plan) && plan != []
    ensures plan[0] < |cons| && Output(cons[plan[0]]) < |vars| && !vars[Output(cons[plan[0]])].stay
  {
    assert SatAt(NetOf(vars, cons), plan[0]);
  }

  lemma MovingTail(vars: seq<Var>, cons: seq<Con>, plan: seq<nat>)
    requires Moving(NetOf(vars, cons), vars, plan) && plan != []
    requires plan[0] < |cons| && KnownCon(vars, cons[plan[0]]) && CanExecute(vars, cons[plan[0]])
    ensures var vars1 := Executed(vars, cons[plan[0]]); Moving(NetOf(vars1, cons), vars1, plan[1..])
  {
    var vars1 := Executed(vars, cons[plan[0]]);
    forall i: nat | i < |plan| - 1
      ensures SatAt(NetOf(vars1, cons), plan[1..][i]) && Output(cons[plan[1..][i]]) < |vars1|
          && !vars1[Output(cons[plan[1..][i]])].stay
    {
      assert plan[1..][i] == plan[i + 1] && SatAt(NetOf(vars, cons), plan[i + 1]);
    }
  }

  lemma ValuesMarks(a: seq<Var>, b: seq<Var>, mark: int)
    requires OnlyValues(a, b) && MarksBelow(a, mark)
    ensures MarksBelow(b, mark)
  {}

  lemma ContentKept(a: seq<Var>, b: seq<Var>, cons: seq<Con>)
    requires SameContent(a, b) && NetOf(a, cons) == NetOf(b, cons) && FreshBut(a, cons, [])
    ensures FreshBut(b, cons, [])
  {
    forall d: nat | d < |cons| && Sat(cons[d]) ensures Fresh(b, cons[d]) { FreshContent(a, b, cons[d]); }
    forall v: nat | v < |b| ensures b[v].determinedBy == a[v].determinedBy {
      assert NetOf(a, cons).det[v] == NetOf(b, cons).det[v];
    }
  }

  // ── When a plan is right ──────────────────────────────────────────

  /** Variables that are constant or that nothing determines. */
  ghost function Free(vars: seq<Var>): (s: set<nat>)
    ensures forall v: nat :: v in s <==> v < |vars| && (vars[v].stay || vars[v].determinedBy.None?)
  {
    set v: nat | v < |vars| && (vars[v].stay || vars[v].determinedBy.None?)
  }

  /** No scale or offset of a step is written by that step or a later one. */
  ghost predicate ParamsFinal(cons: seq<Con>, plan: seq<nat>)
    requires forall i: nat :: i < |plan| ==> plan[i] < |cons|
    decreases |plan|
  {
    plan != [] ==>
      && (cons[plan[0]].kind.Scale? ==>
            cons[plan[0]].kind.scale !in OutputSet(cons, plan) && cons[plan[0]].kind.offset !in OutputSet(cons, plan))
      && ParamsFinal(cons, plan[1..])
  }

  lemma {:induction false} ScheduledNew(n: Net, free: set<nat>, done: set<nat>, plan: seq<nat>, v: nat)
    requires Scheduled(n, free, done, plan) && v in done && forall i: nat :: i < |plan| ==> plan[i] < |n.cons|
    ensures v !in OutputSet(n.cons, plan)
    decreases |plan|
  {
    if plan != [] { ScheduledNew(n, free, done + {Output(n.cons[plan[0]])}, plan[1..], v); }
  }

  lemma MovingNotFree(vars: seq<Var>, cons: seq<Con>, plan: seq<nat>, v: nat)
    requires Matched(NetOf(vars, cons)) && Moving(NetOf(vars, cons), vars, plan) && v in Free(vars)
    requires forall i: nat :: i < |plan| ==> plan[i] < |cons|
    ensures v !in OutputSet(cons, plan)
  {
    OutputSetHas(cons, plan, v);
    forall i: nat | i < |plan| ensures Output(cons[plan[i]]) != v {
      assert SatAt(NetOf(vars, cons), plan[i]);
      OutputKnown(NetOf(vars, cons), plan[i]);
    }
  }

  /**
   * A plan for changeable sources reads only final values exactly when its scales and offsets are
   * final: those are the inputs that scheduling does not look at.
   */
  lemma {:induction false} PlanFinalIff(vars: seq<Var>, cons: seq<Con>, done: set<nat>, plan: seq<nat>)
    requires Matched(NetOf(vars, cons)) && Moving(NetOf(vars, cons), vars, plan)
    requires Scheduled(NetOf(vars, cons), Free(vars), done, plan) && forall i: nat :: i < |plan| ==> plan[i] < |cons|
    ensures Final(cons, plan) <==> ParamsFinal(cons, plan)
    decreases |plan|
  {
    hide Matched, NetOf, Free;
    var n := NetOf(vars, cons);
    if plan != [] {
      NetCons(vars, cons);
      var k := cons[plan[0]];
      var done' := done + {Output(k)};
      assert Moving(n, vars, plan[1..]) by { forall i: nat | i < |plan| - 1 ensures plan[1..][i] == plan[i + 1] {} }
      PlanFinalIff(vars, cons, done', plan[1..]);
      ScheduledNew(n, Free(vars), done', plan[1..], Output(k));
      if !Unary(k) {
        if Input(k) in done { ScheduledNew(n, Free(vars), done, plan, Input(k)); }
        else { MovingNotFree(vars, cons, plan, Input(k)); }
      }
    }
  }

  // ── A plan that is not right ──────────────────────────────────────

  /** y is x scaled by s; s itself equals x; x is being edited. x, s, offset and y are variables 0 to 3. */
  function ScaledByItself(): seq<Con>
  {
    [Con(Scale(1, 2), REQUIRED, 0, 3, Forward, false), Con(Equality, REQUIRED, 0, 1, Forward, false),
     Con(Edit, PREFERRED, 0, 0, Unset, true)]
  }

  function ScaledVars(x: int, s: int, y: int): seq<Var>
  {
    [Var(x, [0, 1, 2], Some(2), 0, PREFERRED, false), Var(s, [0, 1], Some(1), 0, PREFERRED, false),
     Var(0, [0], None, 0, WEAKEST, true), Var(y, [0], Some(0), 0, PREFERRED, false)]
  }

  function ScaledNet(): Net
  {
    Net(ScaledByItself(), [[0, 1, 2], [0, 1], [0], [0]], [Some(2), Some(1), None, Some(0)])
  }

  lemma ScaledNetIs(x: int, s: int, y: int)
    ensures NetOf(ScaledVars(x, s, y), ScaledByItself()) == ScaledNet()
  {}

  lemma ScaledBounded()
    ensures Bounded(ScaledNet(), [0, 1, 0, 2], 2, {})
  {
    ScaledMatched();
    hide Matched;
  }

  lemma ScaledMatched()
    ensures Matched(ScaledNet())
  {
    ScaledListed();
    hide Listed;
  }

  lemma ScaledListed()
    ensures forall c: nat :: c < 3 ==> Listed(ScaledNet(), c)
  {}

  lemma ScaledFresh(x: int, s: int, y: int)
    ensures FreshBut(ScaledVars(x, s, y), ScaledByItself(), [])
  {}

  lemma ScaledConsumers()
    ensures var n := ScaledNet(); Consumers(n, 0) == [0, 1] && Consumers(n, 3) == [] && Consumers(n, 1) == [0]
    ensures var cons := ScaledByItself();
            Output(cons[0]) == 3 && Output(cons[1]) == 1 && Output(cons[2]) == 0
            && forall free: set<nat>, done: set<nat> ::
                 InputKnown(cons[2], free, done)
                   && (0 in done ==> InputKnown(cons[0], free, done) && InputKnown(cons[1], free, done))
  {
    assert [0, 1, 2][..2] == [0, 1] && [0, 1][..1] == [0] && [0][..0] == [];
  }

  /** Of the queue [edit] make_plan schedules the scale before the constraint that writes its factor. */
  lemma ScaledPlan(free: set<nat>)
    requires Bounded(ScaledNet(), [0, 1, 0, 2], 2, {})
    ensures SatAt(ScaledNet(), 2) && PlanOf(ScaledNet(), free, [0, 1, 0, 2], 2, {}, [2]) == [2, 0, 1]
  {
    ScaledConsumers();
    hide Bounded, QueueCost, Consumers, PlanOf, ScaledByItself, InputKnown, Output;
    var n, rank: seq<nat> := ScaledNet(), [0, 1, 0, 2];
    ScaledSat();
    PlanStep(n, free, rank, 2, {}, [2]);
    assert [2][1..] + [0, 1] == [0, 1];
    PlanStep(n, free, rank, 2, {} + {0}, [0, 1]);
    assert [0, 1][1..] + [] == [1];
    PlanStep(n, free, rank, 2, {} + {0} + {3}, [1]);
    assert [1][1..] + [0] == [0];
    PlanStep(n, free, rank, 2, {} + {0} + {3} + {1}, [0]);
    assert [0][1..] == [];
    PlanDone(n, free, rank, 2, {} + {0} + {3} + {1});
  }

  lemma ScaledSat()
    ensures |ScaledByItself()| == 3 && forall c: nat :: c < 3 ==> SatAt(ScaledNet(), c)
  {}

  /** A settled network, and the plan made from it, after which a constraint of the plan does not hold. */
  lemma StaleScale()
    ensures var vars, cons := ScaledVars(2, 5, 25), ScaledByItself();
            var n := NetOf(vars, cons);
            && Bounded(n, [0, 1, 0, 2], 2, {}) && FreshBut(vars, cons, []) && SatAt(n, 2)
            && PlanOf(n, Free(vars), [0, 1, 0, 2], 2, {}, [2]) == [2, 0, 1] && PlanKnown(|vars|, cons, [2, 0, 1])
            && CanRun(vars, cons, [2, 0, 1]) && !Holds(Ran(vars, cons, [2, 0, 1]), cons[0])
  {
    hide Bounded, FreshBut, PlanOf, Free, Ran, CanRun, PlanKnown, Holds;
    ScaledNetIs(2, 5, 25);
    ScaledBounded();
    ScaledFresh(2, 5, 25);
    ScaledPlan(Free(ScaledVars(2, 5, 25)));
    StaleRun();
  }

  lemma StaleRun()
    ensures var vars, cons := ScaledVars(2, 5, 25), ScaledByItself();
            && PlanKnown(|vars|, cons, [2, 0, 1])
            && CanRun(vars, cons, [2, 0, 1]) && !Holds(Ran(vars, cons, [2, 0, 1]), cons[0])
  {
    var vars, cons := ScaledVars(2, 5, 25), ScaledByItself();
    assert [2, 0, 1][1..] == [0, 1] && [0, 1][1..] == [1] && [1][1..] == [];
    assert Executed(vars, cons[2]) == vars;
    var a := Executed(vars, cons[0]);
    assert a == ScaledVars(2, 5, 10);
    var b := Executed(a, cons[1]);
    assert b == ScaledVars(2, 2, 10);
    assert Ran(b, cons, []) == b;
    assert Ran(a, cons, [1]) == b;
    assert Ran(vars, cons, [0, 1]) == b;
  }

  lemma NetCons(vars: seq<Var>, cons: seq<Con>)
    ensures NetOf(vars, cons).cons == cons
  {}

  // ── Small facts for the loop ──────────────────────────────────────

  lemma ContentSelf(a: seq<Var>)
    ensures SameContent(a, a)
  {}

  lemma ContentTrans(a: seq<Var>, b: seq<Var>, c: seq<Var>)
    requires SameContent(a, b) && SameContent(b, c)
    ensures SameContent(a, c)
  {}

  lemma MarksNone(vars: seq<Var>, mark: int)
    requires MarksBelow(vars, mark - 1)
    ensures MarksBelow(vars, mark) && forall v: nat :: v < |vars| ==> vars[v].mark != mark
  {}

  lemma KnownInput(vars: seq<Var>, cons: seq<Con>, c: nat, mark: int, done: set<nat>)
    requires c < |cons| && KnownCon(vars, cons[c]) && forall v: nat :: v < |vars| ==>
        (vars[v].mark == mark <==> v in done)
    ensures var k := cons[c];
            InputKnown(k, Free(vars), done) <==>
            Unary(k) || vars[Input(k)].mark == mark || vars[Input(k)].stay || vars[Input(k)].determinedBy.None?
  {}

  lemma MarkOne(vars: seq<Var>, cons: seq<Con>, v: nat, mark: int)
    requires v < |vars| && MarksBelow(vars, mark)
    ensures var vars' := vars[v := vars[v].(mark := mark)];
            NetOf(vars', cons) == NetOf(vars, cons) && SameContent(vars, vars') && Free(vars') == Free(vars)
              && MarksBelow(vars', mark)
  {
    var vars' := vars[v := vars[v].(mark := mark)];
    assert Lists(vars') == Lists(vars) && Dets(vars') == Dets(vars);
  }
}
