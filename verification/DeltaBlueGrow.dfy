/** Adding a constraint: how the network changes, and when it stays acyclic. */
module DeltaBlueGrow {
  import opened DeltaBlueNet
  import opened DeltaBlueSteps
  import opened Options

  ghost function MaxOf(s: seq<nat>): (m: nat)
    ensures forall i: nat :: i < |s| ==> s[i] <= m
  {
    if s == [] then 0
    else
      var m := MaxOf(s[..|s| - 1]);
      assert forall i: nat :: i < |s| - 1 ==> s[i] == s[..|s| - 1][i];
      if m < s[|s| - 1] then s[|s| - 1] else m
  }

  // ── Propagation ───────────────────────────────────────────────────

  /** From r, following consumers leads into r or through a constraint still queued. */
  ghost predicate ClosedBut(n: Net, r: set<nat>, todo: seq<nat>)
  {
    && |n.lists| == |n.det| && (forall v :: v in r ==> v < |n.lists|)
    && forall v, d :: v in r && d in Consumers(n, v) && d < |n.cons| ==> Output(n.cons[d]) in r || d in todo
  }

  /** Raising everything reached from c's output above the rest ranks c as well. */
  ghost function Lifted(rank: seq<nat>, r: set<nat>): (l: seq<nat>)
    ensures |l| == |rank|
  {
    seq(|rank|, v requires 0 <= v < |rank| => if v in r then rank[v] + MaxOf(rank) + 1 else rank[v])
  }

  lemma LiftedRanks(n: Net, rank: seq<nat>, c: nat, r: set<nat>)
    requires Matched(n) && RankedBut(n, rank, {c}) && SatAt(n, c) && ClosedBut(n, r, []) && Output(n.cons[c]) in r
    requires forall v: nat :: Feeds(n.cons[c], v) ==> v !in r
    ensures RankedBut(n, Lifted(rank, r), {})
  {
    var l := Lifted(rank, r);
    forall d: nat, v: nat | SatAt(n, d) && Feeds(n.cons[d], v) ensures v < |l| && l[v] < l[Output(n.cons[d])] {
      OutputKnown(n, d);
      FeedsKnown(n, d, v);
      if d != c && v in r {
        FeedsConsumes(n, rank, {c}, d, v);
      }
    }
  }

  lemma FeedsKnown(n: Net, d: nat, v: nat)
    requires Matched(n) && SatAt(n, d) && Feeds(n.cons[d], v)
    ensures v < |n.det| && Touches(n.cons[d], v)
  {
    OutputKnown(n, d);
  }

  /** In a ranked part of the network a constraint is a consumer of whatever feeds it. */
  lemma FeedsConsumes(n: Net, rank: seq<nat>, skip: set<nat>, d: nat, v: nat)
    requires Matched(n) && RankedBut(n, rank, skip) && SatAt(n, d) && d !in skip && Feeds(n.cons[d], v)
    ensures v < |n.det| && d in Consumers(n, v)
  {
    FeedsKnown(n, d, v);
    OutputKnown(n, d);
    ConsumersFeed(n, v, d);
  }

  /** Every ranking of the network puts u no higher than v. */
  ghost predicate Below(n: Net, u: nat, v: nat)
    requires InRange(n) && u < |n.det| && v < |n.det|
  {
    forall rank: seq<nat> :: RankedBut(n, rank, {}) ==> rank[u] <= rank[v]
  }

  ghost predicate AllBelow(n: Net, u: nat, todo: seq<nat>)
    requires Matched(n) && u < |n.det|
  {
    forall i: nat :: i < |todo| ==> SatAt(n, todo[i]) && OutputBelow(n, u, todo[i])
  }

  ghost predicate OutputBelow(n: Net, u: nat, d: nat)
    requires Matched(n) && u < |n.det| && SatAt(n, d)
  {
    OutputKnown(n, d);
    Below(n, u, Output(n.cons[d]))
  }

  /** The queue after a turn: the consumers of v come after the rest. */
  lemma TurnBelow(n: Net, u: nat, d: nat, rest: seq<nat>)
    requires Matched(n) && u < |n.det| && AllBelow(n, u, [d] + rest)
    ensures SatAt(n, d) && Output(n.cons[d]) < |n.lists| && AllBelow(n, u, rest + Consumers(n, Output(n.cons[d])))
  {
    assert SatAt(n, ([d] + rest)[0]) && OutputBelow(n, u, ([d] + rest)[0]);
    OutputKnown(n, d);
    var v := Output(n.cons[d]);
    var q := Consumers(n, v);
    forall i: nat | i < |rest + q| ensures SatAt(n, (rest + q)[i]) && OutputBelow(n, u, (rest + q)[i]) {
      if i < |rest| {
        assert ([d] + rest)[i + 1] == rest[i];
        assert SatAt(n, ([d] + rest)[i + 1]) && OutputBelow(n, u, ([d] + rest)[i + 1]);
      } else {
        var e := q[i - |rest|];
        ConsumersFeed(n, v, e);
        OutputKnown(n, e);
        BelowStep(n, u, v, e);
      }
    }
  }

  lemma BelowStep(n: Net, u: nat, v: nat, e: nat)
    requires Matched(n) && u < |n.det| && v < |n.det| && Below(n, u, v) && SatAt(n, e) && Feeds(n.cons[e], v)
    ensures Output(n.cons[e]) < |n.det| && Below(n, u, Output(n.cons[e]))
  {
    OutputKnown(n, e);
    forall rank: seq<nat> | RankedBut(n, rank, {}) ensures rank[u] <= rank[Output(n.cons[e])] {
      assert rank[v] < rank[Output(n.cons[e])];
    }
  }

  /** Replacing the head of the queue by the consumers of its output costs less; so does dropping it. */
  lemma TurnCost(n: Net, rank: seq<nat>, top: nat, skip: set<nat>, d: nat, rest: seq<nat>)
    requires Bounded(n, rank, top, skip) && forall i: nat :: i < |[d] + rest| ==> SatAt(n, ([d] + rest)[i])
    requires SatAt(n, d) && Output(n.cons[d]) < |n.lists|
    requires forall c: nat :: c in Consumers(n, Output(n.cons[d])) ==> c !in skip
    ensures var todo := rest + Consumers(n, Output(n.cons[d]));
            && (forall i: nat :: i < |todo| ==> SatAt(n, todo[i]))
               && (forall i: nat :: i < |rest| ==> SatAt(n, rest[i]))
            && QueueCost(n, rank, top, skip, todo) < QueueCost(n, rank, top, skip, [d] + rest)
            && QueueCost(n, rank, top, skip, rest) < QueueCost(n, rank, top, skip, [d] + rest)
  {
    hide Bounded, Cost;
    var v := Output(n.cons[d]);
    var q := Consumers(n, v);
    forall i: nat | i < |rest| ensures SatAt(n, rest[i]) { assert ([d] + rest)[i + 1] == rest[i]; }
    ConsumersCost(n, rank, top, skip, v, n.lists[v]);
    QueueCostAppend(n, rank, top, skip, rest, q);
    QueueCostAppend(n, rank, top, skip, [d], rest);
    QueueOne(n, rank, top, skip, d);
    CostIs(n, rank, top, skip, v);
  }

  lemma QueueOne(n: Net, rank: seq<nat>, top: nat, skip: set<nat>, d: nat)
    requires Bounded(n, rank, top, skip) && SatAt(n, d) && Output(n.cons[d]) < |n.det|
    ensures QueueCost(n, rank, top, skip, [d]) == Cost(n, rank, top, skip, Output(n.cons[d]))
  {
    hide Bounded, Cost;
    assert [d][..0] == [];
    assert QueueCost(n, rank, top, skip, []) == 0;
  }

  lemma CostIs(n: Net, rank: seq<nat>, top: nat, skip: set<nat>, v: nat)
    requires Bounded(n, rank, top, skip) && v < |n.det|
    ensures Cost(n, rank, top, skip, v) == 1 + CostAll(n, rank, top, skip, v, n.lists[v])
  {
    hide Bounded;
  }

  lemma TurnClosed(n: Net, r: set<nat>, d: nat, rest: seq<nat>)
    requires ClosedBut(n, r, [d] + rest) && SatAt(n, d) && Output(n.cons[d]) < |n.lists|
    ensures ClosedBut(n, r + {Output(n.cons[d])}, rest + Consumers(n, Output(n.cons[d])))
  {}

  // ── Small facts for the loop ──────────────────────────────────────

  lemma RankBounded(n: Net, rank: seq<nat>, c: nat)
    requires Matched(n) && RankedBut(n, rank, {c})
    ensures Bounded(n, rank, MaxOf(rank), {c})
  {}

  lemma QueueStart(n: Net, c: nat)
    requires Matched(n) && SatAt(n, c) && Output(n.cons[c]) < |n.det|
    ensures AllBelow(n, Output(n.cons[c]), [c]) && ClosedBut(n, {}, [c])
  {
    assert Below(n, Output(n.cons[c]), Output(n.cons[c]));
    assert OutputBelow(n, Output(n.cons[c]), c);
  }

  lemma FirstBelow(n: Net, u: nat, d: nat, rest: seq<nat>)
    requires Matched(n) && u < |n.det| && AllBelow(n, u, [d] + rest)
    ensures SatAt(n, d) && Output(n.cons[d]) < |n.det| && Below(n, u, Output(n.cons[d]))
  {
    assert SatAt(n, ([d] + rest)[0]) && OutputBelow(n, u, ([d] + rest)[0]);
    OutputKnown(n, d);
  }

  /** With an unmarked output no queued constraint feeds itself, and c does not read it. */
  lemma NoSelf(vars: seq<Var>, n: Net, rank: seq<nat>, c: nat, d: nat, mark: int)
    requires Matched(n) && RankedBut(n, rank, {c}) && SatAt(n, c) && SatAt(n, d) && |vars| == |n.det|
    requires forall v: nat :: v < |vars| && Feeds(n.cons[c], v) ==> vars[v].mark == mark
    requires Output(n.cons[d]) < |vars| && vars[Output(n.cons[d])].mark != mark
    ensures !Feeds(n.cons[d], Output(n.cons[d])) && KnownCon(vars, n.cons[d])
    ensures c !in Consumers(n, Output(n.cons[d]))
  {
    OutputKnown(n, d);
    if d != c { RankAt(n, rank, {c}, d, Output(n.cons[d])); }
    ConsumersFeed(n, Output(n.cons[d]), c);
  }

  lemma RankAt(n: Net, rank: seq<nat>, skip: set<nat>, d: nat, v: nat)
    requires Matched(n) && RankedBut(n, rank, skip) && SatAt(n, d) && d !in skip && v < |n.det|
    ensures Output(n.cons[d]) < |n.det| && (Feeds(n.cons[d], v) ==> rank[v] < rank[Output(n.cons[d])])
  {
    OutputKnown(n, d);
  }

  lemma ListKnown(n: Net, v: nat)
    requires Matched(n) && v < |n.lists|
    ensures forall c: nat :: c in n.lists[v] ==> c < |n.cons|
  {}

  lemma FeedsOutside(vars: seq<Var>, n: Net, c: nat, r: set<nat>, mark: int)
    requires Matched(n) && SatAt(n, c) && |vars| == |n.det| && ClosedBut(n, r, [])
    requires forall v: nat :: v < |vars| && Feeds(n.cons[c], v) ==> vars[v].mark == mark
    requires forall v: nat :: v in r && v < |vars| ==> vars[v].mark != mark
    ensures forall v: nat :: Feeds(n.cons[c], v) ==> v !in r
  {
    forall v: nat | Feeds(n.cons[c], v) ensures v !in r { FeedsKnown(n, c, v); }
  }

  // ── The loop of propagation ───────────────────────────────────────

  /**
   * Between turns of propagating c from vars0: the network is unchanged, what is not queued is fresh if
   * it was so before (tidy),
   * what is reached (r) is unmarked and closed but for the queue, and the queue lies above c's output.
   */
  ghost predicate Flowing(vars0: seq<Var>, vars: seq<Var>, cons: seq<Con>, rank: seq<nat>, c: nat, mark: int,
                          tidy: bool, r: set<nat>, todo: seq<nat>)
  {
    var n := NetOf(vars0, cons);
    && Bounded(n, rank, MaxOf(rank), {c}) && SatAt(n, c) && Output(cons[c]) < |vars0|
    && (forall v: nat :: v < |vars0| && Feeds(cons[c], v) ==> vars0[v].mark == mark)
    && SameNet(vars0, vars) && (tidy ==> FreshBut(vars, cons, todo))
    && AllBelow(n, Output(cons[c]), todo) && ClosedBut(n, r, todo)
    && (forall i: nat :: i < |todo| ==> SatAt(n, todo[i]))
    && ((r == {} && todo == [c]) || Output(cons[c]) in r)
    && (forall v: nat :: v in r && v < |vars0| ==> vars0[v].mark != mark)
  }

  ghost function FlowCost(vars0: seq<Var>, vars: seq<Var>, cons: seq<Con>, rank: seq<nat>, c: nat, mark: int,
                          tidy: bool, r: set<nat>, todo: seq<nat>): nat
    requires Flowing(vars0, vars, cons, rank, c, mark, tidy, r, todo)
  {
    QueueCost(NetOf(vars0, cons), rank, MaxOf(rank), {c}, todo)
  }

  lemma FlowStart(vars: seq<Var>, cons: seq<Con>, rank: seq<nat>, c: nat, mark: int, tidy: bool)
    requires Matched(NetOf(vars, cons)) && RankedBut(NetOf(vars, cons), rank, {c}) && SatAt(NetOf(vars, cons), c)
    requires tidy ==> FreshBut(vars, cons, [c])
    requires forall v: nat :: v < |vars| && Feeds(cons[c], v) ==> vars[v].mark == mark
    ensures Flowing(vars, vars, cons, rank, c, mark, tidy, {}, [c])
  {
    hide Matched, RankedBut, FreshBut, Bounded, AllBelow, ClosedBut;
    var n := NetOf(vars, cons);
    RankBounded(n, rank, c);
    OutputKnown(n, c);
    SameNetSelf(vars);
    QueueStart(n, c);
  }

  /** The head of the queue: where it computes to, and what a mark there means. */
  lemma FlowHead(vars0: seq<Var>, vars: seq<Var>, cons: seq<Con>, rank: seq<nat>, c: nat, mark: int,
                 tidy: bool, r: set<nat>, todo: seq<nat>)
    requires Flowing(vars0, vars, cons, rank, c, mark, tidy, r, todo) && todo != []
    ensures var d, n := todo[0], NetOf(vars0, cons);
            && n == NetOf(vars, cons) && Matched(n) && c < |cons| && d < |cons| && KnownCon(vars, cons[d])
            && Output(cons[d]) < |vars| && vars[Output(cons[d])].mark == vars0[Output(cons[d])].mark
            && Below(n, Output(cons[c]), Output(cons[d]))
            && (forall e: nat :: e in vars[Output(cons[d])].constraints ==> e < |cons|)
  {
    hide RankedBut, FreshBut, AllBelow, ClosedBut, Below;
    var d, n := todo[0], NetOf(vars0, cons);
    assert todo == [d] + todo[1..] && SatAt(n, todo[0]);
    SameNetOf(vars0, vars, cons);
    OutputKnown(n, d);
    FirstBelow(n, Output(cons[c]), d, todo[1..]);
    ListKnown(n, Output(cons[d]));
    assert SameVar(vars0[Output(cons[d])], vars[Output(cons[d])]);
  }

  /** A turn on an unmarked output keeps the loop's state and costs. */
  lemma FlowTurn(vars0: seq<Var>, vars: seq<Var>, cons: seq<Con>, rank: seq<nat>, c: nat, mark: int,
                 tidy: bool, r: set<nat>, todo: seq<nat>, vars': seq<Var>)
    requires Flowing(vars0, vars, cons, rank, c, mark, tidy, r, todo) && todo != []
    requires var d := todo[0];
             && d < |cons| && KnownCon(vars, cons[d]) && CanRecalculate(vars, cons[d]) && Output(cons[d]) < |vars|
             && vars[Output(cons[d])].mark != mark && vars' == Recalculated(vars, cons[d])
    ensures var o := Output(cons[todo[0]]);
            var todo' := todo[1..] + Consumers(NetOf(vars, cons), o);
            Flowing(vars0, vars', cons, rank, c, mark, tidy, r + {o}, todo')
            && FlowCost(vars0, vars', cons, rank, c, mark, tidy, r + {o}, todo') < FlowCost(vars0, vars, cons, rank, c,
               mark, tidy, r, todo)
  {
    hide Recalculated, RankedBut, FreshBut, AllBelow, ClosedBut, Below, Bounded, Matched, QueueCost, MaxOf, SatAt,
        NetOf;
    var d, n, rest := todo[0], NetOf(vars0, cons), todo[1..];
    assert todo == [d] + rest;
    FlowHead(vars0, vars, cons, rank, c, mark, tidy, r, todo);
    FlowSelf(vars0, vars, cons, rank, c, mark, tidy, r, todo);
    var o := Output(cons[d]);
    RecalculatedNet(vars, cons[d]);
    if tidy { PropagateStep(vars, cons, d, rest, vars', rest + Consumers(n, o)); }
    SameNetTrans(vars0, vars, vars');
    TurnBelow(n, Output(cons[c]), d, rest);
    TurnCost(n, rank, MaxOf(rank), {c}, d, rest);
    TurnClosed(n, r, d, rest);
  }

  lemma FlowSelf(vars0: seq<Var>, vars: seq<Var>, cons: seq<Con>, rank: seq<nat>, c: nat, mark: int,
                 tidy: bool, r: set<nat>, todo: seq<nat>)
    requires Flowing(vars0, vars, cons, rank, c, mark, tidy, r, todo) && todo != []
    requires var d := todo[0]; d < |cons| && Output(cons[d]) < |vars| && vars[Output(cons[d])].mark != mark
    ensures var d, n := todo[0], NetOf(vars0, cons);
            && !Feeds(cons[d], Output(cons[d])) && SatAt(n, d) && |n.lists| == |vars| == |vars0| && n.cons == cons
            && c !in Consumers(n, Output(cons[d])) && vars0[Output(cons[d])].mark != mark
  {
    hide FreshBut, AllBelow, ClosedBut;
    var d, n := todo[0], NetOf(vars0, cons);
    assert SatAt(n, todo[0]);
    assert SameVar(vars0[Output(cons[d])], vars[Output(cons[d])]);
    NoSelf(vars0, n, rank, c, d, mark);
  }

  /** With the queue empty c is ranked above its inputs, and all is fresh. */
  lemma FlowEnd(vars0: seq<Var>, vars: seq<Var>, cons: seq<Con>, rank: seq<nat>, c: nat, mark: int, tidy: bool,
                r: set<nat>)
    requires Flowing(vars0, vars, cons, rank, c, mark, tidy, r, [])
    ensures NetOf(vars, cons) == NetOf(vars0, cons) && Matched(NetOf(vars, cons)) && (tidy ==> FreshBut(vars, cons, []))
    ensures RankedBut(NetOf(vars, cons), Lifted(rank, r), {})
    ensures Output(cons[c]) < |vars| && vars[Output(cons[c])].mark != mark
  {
    hide FreshBut, AllBelow, ClosedBut, Lifted;
    SameNetOf(vars0, vars, cons);
    var n := NetOf(vars0, cons);
    assert Matched(n) && RankedBut(n, rank, {c});
    FeedsOutside(vars0, n, c, r, mark);
    LiftedRanks(n, rank, c, r);
    assert SameVar(vars0[Output(cons[c])], vars[Output(cons[c])]);
  }

  // ── Overriding ────────────────────────────────────────────────────

  /** The network once constraint c, with its method chosen as k, has taken over its output. */
  function Overriding(n: Net, c: nat, k: Con): Net
    requires c < |n.cons| && Output(k) < |n.det|
  {
    var o := n.det[Output(k)];
    var cons := n.cons[c := k];
    Net(if o.Some? && o.value < |cons| then cons[o.value := Off(cons[o.value])] else cons,
        n.lists, n.det[Output(k) := Some(c)])
  }

  /** k is constraint c with some method. */
  ghost predicate Remethod(k: Con, k': Con) { k' == k.(dir := k'.dir, satisfied := k'.satisfied) }

  lemma OverridingKeeps(n: Net, c: nat, k: Con, rank: seq<nat>)
    requires Matched(n) && RankedBut(n, rank, {}) && c < |n.cons| && !Sat(n.cons[c]) && Listed(n, c)
    requires Remethod(n.cons[c], k) && Sat(k) && Output(k) < |n.det|
    ensures var n', o := Overriding(n, c, k), n.det[Output(k)];
            && Matched(n') && RankedBut(n', rank, {c}) && SatAt(n', c) && n'.cons[c] == k
            && (forall d: nat :: d < |n.cons| && d != c && o != Some(d) ==> n'.cons[d] == n.cons[d])
            && (o.Some? ==> o.value < |n.cons| && o.value != c && !SatAt(n', o.value) && Listed(n', o.value)
                            && n'.cons[o.value] == Off(n.cons[o.value])
                            && EndOf(n.cons[o.value], Output(k)))
  {
    var n', o := Overriding(n, c, k), n.det[Output(k)];
    if o.Some? { OutputKnown(n, o.value); }
    forall d: nat | d < |n'.cons| ensures ConInRange(n'.cons[d], |n'.det|) { assert ConInRange(n.cons[d], |n.det|); }
    forall d: nat, v: nat | d < |n.cons| ensures Touches(n'.cons[d], v) <==> Touches(n.cons[d], v) {}
    forall d: nat | d < |n.cons| && Listed(n, d) ensures Listed(n', d) {}
    forall d: nat | SatAt(n', d) ensures Listed(n', d) && n'.det[Output(n'.cons[d])] == Some(d) {
      if d != c { assert SatAt(n, d) && Listed(n, d); }
    }
    forall v: nat | v < |n'.det| && n'.det[v].Some?
      ensures SatAt(n', n'.det[v].value) && Output(n'.cons[n'.det[v].value]) == v
    {
      if v != Output(k) { assert SatAt(n, n.det[v].value); }
    }
    forall d: nat, v: nat | SatAt(n', d) && d !in {c} && Feeds(n'.cons[d], v)
        ensures rank[v] < rank[Output(n'.cons[d])] {
      assert SatAt(n, d) && d !in {} && Feeds(n.cons[d], v);
    }
  }

  /** Choosing no method leaves everything as it was. */
  lemma UnsatKeeps(vars: seq<Var>, cons: seq<Con>, c: nat, k: Con)
    requires Matched(NetOf(vars, cons)) && c < |cons| && !Sat(cons[c]) && !Sat(k) && Remethod(cons[c], k)
    ensures Matched(NetOf(vars, cons[c := k])) && (FreshBut(vars, cons, []) ==> FreshBut(vars, cons[c := k], []))
    ensures forall rank: seq<nat> :: RankedBut(NetOf(vars, cons), rank, {}) <==>
        RankedBut(NetOf(vars, cons[c := k]), rank, {})
  {
    var n, n' := NetOf(vars, cons), NetOf(vars, cons[c := k]);
    forall d: nat | d < |n'.cons| ensures ConInRange(n'.cons[d], |n'.det|) { assert ConInRange(n.cons[d], |n.det|); }
    forall d: nat, v: nat | d < |n.cons| ensures Touches(n'.cons[d], v) <==> Touches(n.cons[d], v) {}
    forall d: nat ensures SatAt(n', d) <==> SatAt(n, d) {}
    forall d: nat | d < |n.cons| && Listed(n, d) ensures Listed(n', d) {}
    forall d: nat | SatAt(n', d) ensures Listed(n', d) && n'.det[Output(n'.cons[d])] == Some(d) {
      assert SatAt(n, d) && Listed(n, d);
    }
    forall v: nat | v < |n'.det| && n'.det[v].Some?
      ensures SatAt(n', n'.det[v].value) && Output(n'.cons[n'.det[v].value]) == v
    {
      assert SatAt(n, n.det[v].value);
    }
    forall rank: seq<nat> ensures RankedBut(n, rank, {}) <==> RankedBut(n', rank, {}) {
      forall d: nat, v: nat | SatAt(n, d) && Feeds(n.cons[d], v)
        ensures n'.cons[d] == n.cons[d] {}
    }
  }

  // ── Marks along the chain of overrides ────────────────────────────

  ghost predicate RankedOn(n: Net, chain: set<nat>, rank: seq<nat>)
    requires InRange(n)
  {
    |rank| == |n.det| && forall c: nat, v: nat :: c in chain && SatAt(n, c) && Feeds(n.cons[c], v) ==>
      rank[v] < rank[Output(n.cons[c])]
  }

  /** Through the chain of overrides every marked variable leads to at, the last output. */
  ghost predicate Trail(n: Net, vars: seq<Var>, mark: int, chain: set<nat>, at: nat)
    requires InRange(n) && |vars| == |n.det|
  {
    && (forall e: nat :: e in chain ==>
       SatAt(n, e) && Output(n.cons[e]) < |vars| && vars[Output(n.cons[e])].mark == mark)
    && (forall v: nat :: v < |vars| && vars[v].mark == mark ==> at < |vars| && LeadsTo(n, chain, v, at))
  }

  ghost predicate LeadsTo(n: Net, chain: set<nat>, v: nat, at: nat)
    requires InRange(n) && v < |n.det| && at < |n.det|
  {
    forall rank: seq<nat> :: RankedOn(n, chain, rank) ==> rank[v] <= rank[at]
  }

  /** A marked variable ranks below the new output. */
  lemma MarkedBelow(n: Net, vars0: seq<Var>, vars: seq<Var>, n0: Net, mark: int, chain: set<nat>, at: nat, c: nat,
                    found: nat, rank: seq<nat>)
    requires Matched(n) && SatAt(n, c) && |vars| == |n.det| == |vars0| && InRange(n0) && |n0.det| == |n.det|
    requires Trail(n0, vars0, mark, chain, at)
    requires forall e: nat :: e in chain ==> SatAt(n, e) && SatAt(n0, e) && n.cons[e] == n0.cons[e]
    requires forall v: nat :: v < |vars| && vars[v].mark == mark ==> vars0[v].mark == mark || Feeds(n.cons[c], v)
    requires (exists v: nat :: v < |vars0| && vars0[v].mark == mark) ==> Feeds(n.cons[c], at)
    requires found < |vars| && vars[found].mark == mark && Output(n.cons[c]) < |vars| && RankedBut(n, rank, {})
    ensures rank[found] < rank[Output(n.cons[c])]
  {
    if vars0[found].mark == mark {
      assert LeadsTo(n0, chain, found, at);
      TrailRank(n0, n, chain, rank);
    }
  }

  /** A marked variable downstream of the new output closes a cycle: no ranking exists. */
  lemma MarkedCycle(n: Net, vars0: seq<Var>, vars: seq<Var>, n0: Net, mark: int, chain: set<nat>, at: nat, c: nat,
                    found: nat)
    requires Matched(n) && SatAt(n, c) && |vars| == |n.det| == |vars0| && InRange(n0) && |n0.det| == |n.det|
    requires Trail(n0, vars0, mark, chain, at)
    requires forall e: nat :: e in chain ==> SatAt(n, e) && SatAt(n0, e) && n.cons[e] == n0.cons[e]
    requires forall v: nat :: v < |vars| && vars[v].mark == mark ==> vars0[v].mark == mark || Feeds(n.cons[c], v)
    requires (exists v: nat :: v < |vars0| && vars0[v].mark == mark) ==> Feeds(n.cons[c], at)
    requires found < |vars| && vars[found].mark == mark && Output(n.cons[c]) < |vars|
        && Below(n, Output(n.cons[c]), found)
    ensures !Acyclic(n)
  {
    forall rank: seq<nat> ensures !RankedBut(n, rank, {}) {
      if RankedBut(n, rank, {}) { MarkedBelow(n, vars0, vars, n0, mark, chain, at, c, found, rank); }
    }
  }

  lemma TrailRank(n0: Net, n: Net, chain: set<nat>, rank: seq<nat>)
    requires InRange(n0) && InRange(n) && |n0.det| == |n.det| && RankedBut(n, rank, {})
    requires forall e: nat :: e in chain ==> SatAt(n, e) && SatAt(n0, e) && n.cons[e] == n0.cons[e]
    ensures RankedOn(n0, chain, rank)
  {}

  /** After c has taken over its output the trail ends there. */
  lemma TrailGrows(n0: Net, vars0: seq<Var>, n: Net, vars: seq<Var>, mark: int, chain: set<nat>, at: nat, c: nat)
    requires InRange(n0) && Matched(n) && SatAt(n, c) && |vars| == |n.det| == |vars0| == |n0.det|
    requires Trail(n0, vars0, mark, chain, at)
    requires forall e: nat :: e in chain ==> SatAt(n, e) && n.cons[e] == n0.cons[e] && e < |n0.cons|
    requires forall v: nat :: v < |vars0| && vars0[v].mark == mark ==> vars[v].mark == mark
    requires forall v: nat :: v < |vars| && vars[v].mark == mark ==>
               vars0[v].mark == mark || Feeds(n.cons[c], v) || v == Output(n.cons[c])
    requires (exists v: nat :: v < |vars0| && vars0[v].mark == mark) ==> Feeds(n.cons[c], at)
    requires Output(n.cons[c]) < |vars| && vars[Output(n.cons[c])].mark == mark
    ensures Trail(n, vars, mark, chain + {c}, Output(n.cons[c]))
  {
    var u := Output(n.cons[c]);
    forall v: nat | v < |vars| && vars[v].mark == mark ensures LeadsTo(n, chain + {c}, v, u) {
      forall rank: seq<nat> | RankedOn(n, chain + {c}, rank) ensures rank[v] <= rank[u] {
        if vars0[v].mark == mark {
          assert LeadsTo(n0, chain, v, at);
          assert RankedOn(n0, chain, rank);
          assert c in chain + {c} && rank[at] < rank[u];
        } else if v != u {
          assert c in chain + {c} && Feeds(n.cons[c], v);
        }
      }
    }
  }

  /** Variables not yet marked. */
  ghost function Unmarked(vars: seq<Var>, mark: int): nat
  {
    if vars == [] then 0
    else Unmarked(vars[..|vars| - 1], mark) + if vars[|vars| - 1].mark == mark then 0 else 1
  }

  /** Marking one more variable, and unmarking none, leaves fewer. */
  lemma {:induction false} UnmarkedFalls(a: seq<Var>, b: seq<Var>, mark: int, v: nat)
    requires |a| == |b| && forall i: nat :: i < |a| && a[i].mark == mark ==> b[i].mark == mark
    ensures Unmarked(b, mark) <= Unmarked(a, mark)
    ensures v < |a| && a[v].mark != mark && b[v].mark == mark ==> Unmarked(b, mark) < Unmarked(a, mark)
  {
    if a != [] { UnmarkedFalls(a[..|a| - 1], b[..|b| - 1], mark, v); }
  }

  // ── One satisfied constraint ──────────────────────────────────────

  /** Marks as they are once k's inputs, and k's output if done, are marked. */
  ghost predicate MarksAfter(a: seq<Var>, b: seq<Var>, k: Con, mark: int, done: bool)
  {
    |a| == |b| && forall v: nat :: v < |a| ==>
      b[v].mark == if Feeds(k, v) || (done && v == Output(k)) then mark else a[v].mark
  }

  /** Strengths, flags and values are the same. */
  ghost predicate SameContent(a: seq<Var>, b: seq<Var>)
  {
    |a| == |b| && forall v: nat :: v < |a| ==>
      a[v].walk == b[v].walk && a[v].stay == b[v].stay && a[v].value == b[v].value
  }

  /** The variables with k's inputs marked. */
  ghost function InputsMarked(vars: seq<Var>, k: Con, mark: int): (r: seq<Var>)
    ensures |r| == |vars|
  {
    seq(|vars|, v requires 0 <= v < |vars| => if Feeds(k, v) then vars[v].(mark := mark) else vars[v])
  }

  lemma InputsMarkedMeans(vars: seq<Var>, k: Con, mark: int)
    ensures var r := InputsMarked(vars, k, mark);
            && MarksAfter(vars, r, k, mark, false) && SameContent(vars, r)
            && Lists(r) == Lists(vars) && Dets(r) == Dets(vars)
  {
    hide Feeds;
    var r := InputsMarked(vars, k, mark);
    assert forall v: nat :: v < |vars| ==> Lists(r)[v] == Lists(vars)[v] && Dets(r)[v] == Dets(vars)[v];
  }

  /** Marking one, then two more variables. */
  lemma MarkThree(vars: seq<Var>, k: Con, mark: int, a: nat, b: nat, c: nat)
    requires a < |vars| && b < |vars| && c < |vars|
    requires forall v: nat :: Feeds(k, v) <==> v == a || v == b || v == c
    ensures var m1 := vars[a := vars[a].(mark := mark)]; var m2 := m1[b := m1[b].(mark := mark)];
            m2[c := m2[c].(mark := mark)] == InputsMarked(vars, k, mark)
  {
    hide Feeds;
  }

  lemma FreshContent(a: seq<Var>, b: seq<Var>, k: Con)
    requires SameContent(a, b) && Fresh(a, k)
    ensures Fresh(b, k)
  {}

  /** Taking over leaves only c to be recomputed. */
  lemma TakenFresh(vars: seq<Var>, cons: seq<Con>, c: nat, k: Con, vars': seq<Var>, cons': seq<Con>)
    requires FreshBut(vars, cons, []) && c < |cons| && !Sat(cons[c]) && SameContent(vars, vars') && Output(k) < |vars|
    requires |cons'| == |cons|
    requires forall d: nat :: d < |cons| && d != c ==> cons'[d] == cons[d] || !Sat(cons'[d])
    requires forall v: nat :: v < |vars| && v != Output(k) ==> vars'[v].determinedBy == vars[v].determinedBy
    requires vars'[Output(k)].determinedBy == Some(c)
    ensures FreshBut(vars', cons', [c])
  {
    forall d: nat | d < |cons'| && Sat(cons'[d]) ensures d in [c] || Fresh(vars', cons'[d]) {
      if d != c { assert Fresh(vars, cons[d]); FreshContent(vars, vars', cons[d]); }
    }
  }

  /** What one satisfy does to network and marks. */
  ghost predicate Took(vars: seq<Var>, cons: seq<Con>, c: nat, mark: int, vars': seq<Var>, cons': seq<Con>,
                       o: Option<nat>)
    requires c < |cons| && KnownCon(vars, cons[c])
  {
    var k := Chosen(vars, cons[c], mark);
    if Sat(k) then
      Output(k) < |vars| && NetOf(vars', cons') == Overriding(NetOf(vars, cons), c, k)
      && MarksAfter(vars, vars', k, mark, true) && o == vars[Output(k)].determinedBy
    else vars' == vars && cons' == cons[c := k] && o == None
  }

  lemma ConKnown(n: Net, c: nat)
    requires Matched(n) && c < |n.cons|
    ensures ConInRange(n.cons[c], |n.det|) && forall v: nat :: v < |n.det| && n.det[v].Some? ==>
        n.det[v].value < |n.cons|
  {}

  /** The constraints satisfied earlier under this mark are not overridden now. */
  lemma ChainKept(n: Net, vars: seq<Var>, mark: int, chain: set<nat>, at: nat, c: nat, k: Con, rank: seq<nat>)
    requires Matched(n) && RankedBut(n, rank, {}) && c < |n.cons| && !Sat(n.cons[c]) && Listed(n, c)
    requires Remethod(n.cons[c], k) && Sat(k) && Output(k) < |n.det| == |vars| && vars[Output(k)].mark != mark
    requires Trail(n, vars, mark, chain, at)
    ensures var n' := Overriding(n, c, k);
            forall e: nat :: e in chain ==> SatAt(n, e) && SatAt(n', e) && n'.cons[e] == n.cons[e] && e < |n.cons|
  {
    OverridingKeeps(n, c, k, rank);
    forall e: nat | e in chain ensures SatAt(n, e) && e != c && n.det[Output(k)] != Some(e) { OutputKnown(n, e); }
  }

  /** With something marked already, the chosen method computes from the marked end. */
  lemma ChainInput(vars: seq<Var>, c: Con, k: Con, mark: int, at: nat)
    requires Remethod(c, k) && Sat(k) && Output(k) < |vars| && vars[Output(k)].mark != mark
    requires at < |vars| && vars[at].mark == mark && EndOf(c, at)
    ensures Feeds(k, at)
  {}

  lemma FreshMark(vars: seq<Var>, cons: seq<Con>, out: nat, mark: int)
    requires out < |vars|
    ensures FreshBut(vars, cons, []) ==> FreshBut(vars[out := vars[out].(mark := mark)], cons, [])
    ensures NetOf(vars[out := vars[out].(mark := mark)], cons) == NetOf(vars, cons)
  {
    var vars' := vars[out := vars[out].(mark := mark)];
    forall d: nat | d < |cons| && Fresh(vars, cons[d]) ensures Fresh(vars', cons[d]) {
      FreshContent(vars, vars', cons[d]);
    }
    assert Lists(vars') == Lists(vars) && Dets(vars') == Dets(vars);
  }

  /** Marks after propagation and the final mark on the output. */
  lemma MarksDone(vars0: seq<Var>, vars1: seq<Var>, vars2: seq<Var>, vars3: seq<Var>, k: Con, mark: int)
    requires MarksAfter(vars0, vars1, k, mark, false) && |vars2| == |vars1| == |vars3| && Output(k) < |vars0|
    requires forall v: nat :: v < |vars1| ==> vars2[v].mark == vars1[v].mark
    requires vars3 == vars2[Output(k) := vars2[Output(k)].(mark := mark)]
    ensures MarksAfter(vars0, vars3, k, mark, true)
  {}

  lemma SameMarks(a: seq<Var>, b: seq<Var>)
    requires SameNet(a, b)
    ensures |a| == |b| && forall v: nat :: v < |a| ==> b[v].mark == a[v].mark
  {
    forall v: nat | v < |a| ensures b[v].mark == a[v].mark { assert SameVar(a[v], b[v]); }
  }

  lemma MarkedOnly(a: seq<Var>, b: seq<Var>, k: Con, mark: int, done: bool)
    requires MarksAfter(a, b, k, mark, done)
    ensures |a| == |b|
    ensures forall v: nat :: v < |a| && a[v].mark == mark ==> b[v].mark == mark
    ensures forall v: nat :: v < |b| && b[v].mark == mark ==>
        a[v].mark == mark || Feeds(k, v) || (done && v == Output(k))
    ensures forall v: nat :: v < |b| && Feeds(k, v) ==> b[v].mark == mark
    ensures done && Output(k) < |b| ==> b[Output(k)].mark == mark
  {}

  lemma SomeRank(n: Net) returns (rank: seq<nat>)
    requires Matched(n) && Acyclic(n)
    ensures InRange(n) && RankedBut(n, rank, {})
  {
    rank :| RankedBut(n, rank, {});
  }

  lemma TookSat(vars: seq<Var>, cons: seq<Con>, c: nat, mark: int, vars': seq<Var>, cons': seq<Con>, o: Option<nat>)
    requires c < |cons| && KnownCon(vars, cons[c])
    requires var k := Chosen(vars, cons[c], mark);
             && Sat(k) && Output(k) < |vars| && NetOf(vars', cons') == Overriding(NetOf(vars, cons), c, k)
             && MarksAfter(vars, vars', k, mark, true) && o == vars[Output(k)].determinedBy
    ensures Took(vars, cons, c, mark, vars', cons', o)
  {}

  lemma TookNone(vars: seq<Var>, cons: seq<Con>, c: nat, mark: int)
    requires c < |cons| && KnownCon(vars, cons[c]) && !Sat(Chosen(vars, cons[c], mark))
    ensures Took(vars, cons, c, mark, vars, cons[c := Chosen(vars, cons[c], mark)], None)
  {}

  lemma AcyclicSame(n: Net, n': Net)
    requires Matched(n) && Matched(n') && Acyclic(n)
    requires forall rank: seq<nat> :: RankedBut(n, rank, {}) <==> RankedBut(n', rank, {})
    ensures Acyclic(n')
  {
    var rank: seq<nat> :| RankedBut(n, rank, {});
    assert RankedBut(n', rank, {});
  }

  lemma RankAcyclic(n: Net, rank: seq<nat>)
    requires Matched(n) && RankedBut(n, rank, {})
    ensures Acyclic(n)
  {}

  lemma ContentSize(a: seq<Var>, b: seq<Var>)
    requires SameContent(a, b)
    ensures |a| == |b|
  {}

  lemma ContentDet(a: seq<Var>, b: seq<Var>, out: nat, c: nat)
    requires SameContent(a, b) && out < |b|
    ensures SameContent(a, b[out := b[out].(determinedBy := Some(c))])
  {}

  lemma DetKept(a: seq<Var>, b: seq<Var>, b': seq<Var>, out: nat, c: nat)
    requires |a| == |b| && Dets(a) == Dets(b) && out < |b| && b' == b[out := b[out].(determinedBy := Some(c))]
    ensures forall v: nat :: v < |a| && v != out ==> b'[v].determinedBy == a[v].determinedBy
    ensures b'[out].determinedBy == Some(c)
  {
    assert forall v: nat :: v < |a| ==> Dets(a)[v] == a[v].determinedBy && Dets(b)[v] == b[v].determinedBy;
  }

  lemma MarksKept(a: seq<Var>, b: seq<Var>, b': seq<Var>, k: Con, mark: int, out: nat, c: nat)
    requires MarksAfter(a, b, k, mark, false) && out < |b| && b' == b[out := b[out].(determinedBy := Some(c))]
    ensures MarksAfter(a, b', k, mark, false)
  {}

  lemma DetKnown(n: Net, v: nat)
    requires Matched(n) && v < |n.det| && n.det[v].Some?
    ensures SatAt(n, n.det[v].value) && Output(n.cons[n.det[v].value]) == v
  {}

  /** The overridden constraint o waits, unsatisfied, to try its other end; out, where it was, is marked. */
  ghost predicate Pending(n: Net, vars: seq<Var>, mark: int, o: Option<nat>, out: nat)
    requires InRange(n)
  {
    o.Some? ==>
      && o.value < |n.cons| && !Sat(n.cons[o.value]) && Listed(n, o.value)
      && out < |vars| && vars[out].mark == mark && EndOf(n.cons[o.value], out)
  }

  lemma OverriddenPending(n: Net, c: nat, k: Con, rank: seq<nat>, vars: seq<Var>, mark: int)
    requires Matched(n) && RankedBut(n, rank, {}) && c < |n.cons| && !Sat(n.cons[c]) && Listed(n, c)
    requires Remethod(n.cons[c], k) && Sat(k) && Output(k) < |n.det| && Output(k) < |vars|
        && vars[Output(k)].mark == mark
    ensures Matched(Overriding(n, c, k)) && Pending(Overriding(n, c, k), vars, mark, n.det[Output(k)], Output(k))
  {
    OverridingKeeps(n, c, k, rank);
  }

  // ── The chain of overrides ────────────────────────────────────────

  ghost predicate MarksBelow(vars: seq<Var>, mark: int) { forall v: nat :: v < |vars| ==> vars[v].mark <= mark }

  /** A state on the way, with the constraint still to be satisfied. */
  datatype Frame = Frame(vars: seq<Var>, cons: seq<Con>, todo: Option<nat>)

  ghost predicate Settled(f: Frame) { Matched(NetOf(f.vars, f.cons)) && FreshBut(f.vars, f.cons, []) }

  ghost predicate FrameStep(f: Frame, g: Frame, mark: int)
  {
    && f.todo.Some? && f.todo.value < |f.cons| && KnownCon(f.vars, f.cons[f.todo.value])
    && Took(f.vars, f.cons, f.todo.value, mark, g.vars, g.cons, g.todo) && Kept(f, g)
  }

  /** The links match afterwards, and what was up to date still is. */
  ghost predicate Kept(f: Frame, g: Frame)
  {
    Matched(NetOf(g.vars, g.cons)) && (FreshBut(f.vars, f.cons, []) ==> FreshBut(g.vars, g.cons, []))
  }

  /** From the first frame on, every step is a satisfy of the constraint its predecessor overrode. */
  ghost predicate Overrides(trace: seq<Frame>, mark: int)
    ensures Overrides(trace, mark) ==> trace != []
  {
    trace != [] && forall i: nat :: i + 1 < |trace| ==> FrameStep(trace[i], trace[i + 1], mark)
  }

  lemma OverridesNext(trace: seq<Frame>, mark: int, f: Frame)
    requires Overrides(trace, mark) && FrameStep(trace[|trace| - 1], f, mark)
    ensures Overrides(trace + [f], mark)
  {
    var t := trace + [f];
    forall i: nat | i + 1 < |t| ensures FrameStep(t[i], t[i + 1], mark) {
      if i + 1 < |trace| { assert FrameStep(trace[i], trace[i + 1], mark); }
    }
  }

  lemma NoTrail(n: Net, vars: seq<Var>, mark: int)
    requires Matched(n) && |vars| == |n.det| && MarksBelow(vars, mark - 1)
    ensures Trail(n, vars, mark, {}, 0) && forall v: nat :: v < |vars| ==> vars[v].mark != mark
  {}

  lemma TookMarks(vars: seq<Var>, cons: seq<Con>, c: nat, mark: int, vars': seq<Var>, cons': seq<Con>, o: Option<nat>)
    requires c < |cons| && KnownCon(vars, cons[c]) && Took(vars, cons, c, mark, vars', cons', o)
        && MarksBelow(vars, mark)
    ensures MarksBelow(vars', mark)
  {}

  lemma BelowNext(vars: seq<Var>, mark: int)
    requires MarksBelow(vars, mark)
    ensures MarksBelow(vars, mark + 1)
  {}

  lemma PendingFacts(n: Net, vars: seq<Var>, mark: int, o: Option<nat>, out: nat)
    requires Matched(n) && Pending(n, vars, mark, o, out) && o.Some?
    ensures o.value < |n.cons| && !Sat(n.cons[o.value]) && Listed(n, o.value)
    ensures out < |vars| && vars[out].mark == mark && EndOf(n.cons[o.value], out)
  {}

  /** The trail, the unmarked count and what waits, once the new output is marked. */
  lemma CarryDone(n0: Net, vars0: seq<Var>, n: Net, vars: seq<Var>, mark: int, chain: set<nat>, at: nat, c: nat,
                  rank0: seq<nat>, k: Con)
    requires Matched(n0) && RankedBut(n0, rank0, {}) && c < |n0.cons| && !Sat(n0.cons[c]) && Listed(n0, c)
    requires Remethod(n0.cons[c], k) && Sat(k) && Output(k) < |n0.det| == |vars0|
    requires n == Overriding(n0, c, k) && Matched(n) && SatAt(n, c) && n.cons[c] == k && |n.det| == |vars0|
    requires Trail(n0, vars0, mark, chain, at) && MarksAfter(vars0, vars, k, mark, true)
    requires forall e: nat :: e in chain ==> SatAt(n, e) && n.cons[e] == n0.cons[e] && e < |n0.cons|
    requires (exists v: nat :: v < |vars0| && vars0[v].mark == mark) ==> Feeds(k, at)
    requires vars0[Output(k)].mark != mark
    ensures |vars| == |vars0| && Trail(n, vars, mark, chain + {c}, Output(k))
        && Unmarked(vars, mark) < Unmarked(vars0, mark)
    ensures Pending(n, vars, mark, n0.det[Output(k)], Output(k))
  {
    hide *;
    MarkedOnly(vars0, vars, k, mark, true);
    TrailGrows(n0, vars0, n, vars, mark, chain, at, c);
    UnmarkedFalls(vars0, vars, mark, Output(k));
    OverriddenPending(n0, c, k, rank0, vars, mark);
  }

  /** The same constraints on the same lists; only methods may differ. */
  ghost predicate OnlyMethods(vars: seq<Var>, cons: seq<Con>, vars': seq<Var>, cons': seq<Con>)
  {
    && Lists(vars') == Lists(vars) && |cons'| == |cons|
    && forall d: nat :: d < |cons| ==> Remethod(cons[d], cons'[d])
  }

  /** Constraints that are not satisfied stay so, but for c. */
  ghost predicate StillOff(cons: seq<Con>, cons': seq<Con>, c: nat)
    requires |cons'| == |cons|
  {
    forall d: nat :: d < |cons| && d != c && !Sat(cons[d]) ==> !Sat(cons'[d])
  }

  lemma TookOnly(vars: seq<Var>, cons: seq<Con>, c: nat, mark: int, vars': seq<Var>, cons': seq<Con>, o: Option<nat>)
    requires Matched(NetOf(vars, cons)) && c < |cons| && KnownCon(vars, cons[c])
        && Took(vars, cons, c, mark, vars', cons', o)
    ensures OnlyMethods(vars, cons, vars', cons') && StillOff(cons, cons', c)
    ensures o.Some? ==> o.value < |cons| && Sat(cons[o.value])
  {
    var n, k := NetOf(vars, cons), Chosen(vars, cons[c], mark);
    if Sat(k) {
      if n.det[Output(k)].Some? { DetKnown(n, Output(k)); }
      assert NetOf(vars', cons').cons == Overriding(n, c, k).cons && Lists(vars') == n.lists;
    }
  }

  lemma MethodsTrans(a: seq<Var>, p: seq<Con>, b: seq<Var>, q: seq<Con>, c: seq<Var>, r: seq<Con>)
    requires OnlyMethods(a, p, b, q) && OnlyMethods(b, q, c, r)
    ensures OnlyMethods(a, p, c, r)
  {
    forall d: nat | d < |p| ensures Remethod(p[d], r[d]) { assert Remethod(p[d], q[d]) && Remethod(q[d], r[d]); }
  }

  /** A listed constraint stays listed. */
  lemma StillListed(vars: seq<Var>, cons: seq<Con>, vars': seq<Var>, cons': seq<Con>, c: nat)
    requires Matched(NetOf(vars, cons)) && Matched(NetOf(vars', cons')) && OnlyMethods(vars, cons, vars', cons')
    requires c < |cons| && Listed(NetOf(vars, cons), c)
    ensures Listed(NetOf(vars', cons'), c)
  {
    assert Remethod(cons[c], cons'[c]);
    assert forall v: nat :: Touches(cons'[c], v) <==> Touches(cons[c], v);
  }

  /** On the way of adding c: the trace so far ends here, and only methods have changed. */
  ghost predicate Progressing(first: Frame, trace: seq<Frame>, now: Frame, c: nat, mark: int)
    ensures Progressing(first, trace, now, c, mark) ==> trace != []
  {
    && Overrides(trace, mark) && trace[0] == first && trace[|trace| - 1] == now
    && OnlyMethods(first.vars, first.cons, now.vars, now.cons) && StillOff(first.cons, now.cons, c)
    && MarksBelow(now.vars, mark)
    && |now.cons| == |first.cons| && |now.vars| == |first.vars|
    && (now.todo.Some? ==> now.todo.value < |now.cons| && (now.todo.value == c || Sat(first.cons[now.todo.value])))
  }

  lemma ProgressStart(first: Frame, c: nat, mark: int)
    requires first.todo == Some(c) && c < |first.cons| && MarksBelow(first.vars, mark)
    ensures Progressing(first, [first], first, c, mark)
  {}

  lemma ProgressNext(first: Frame, trace: seq<Frame>, now: Frame, c: nat, mark: int, next: Frame)
    requires Progressing(first, trace, now, c, mark) && now.todo.Some? && now.todo.value < |now.cons|
    requires KnownCon(now.vars, now.cons[now.todo.value]) && Matched(NetOf(now.vars, now.cons)) && Kept(now, next)
    requires Took(now.vars, now.cons, now.todo.value, mark, next.vars, next.cons, next.todo)
    ensures Progressing(first, trace + [next], next, c, mark)
  {
    hide Took, Kept, Matched, Overrides, OnlyMethods, MarksBelow, KnownCon;
    var d := now.todo.value;
    StepIs(now, next, mark);
    OverridesNext(trace, mark, next);
    TookMarks(now.vars, now.cons, d, mark, next.vars, next.cons, next.todo);
    TookOnly(now.vars, now.cons, d, mark, next.vars, next.cons, next.todo);
    MethodsTrans(first.vars, first.cons, now.vars, now.cons, next.vars, next.cons);
    MethodsSize(first.vars, first.cons, now.vars, now.cons);
    MethodsSize(now.vars, now.cons, next.vars, next.cons);
  }

  lemma StepIs(now: Frame, next: Frame, mark: int)
    requires now.todo.Some? && now.todo.value < |now.cons| && KnownCon(now.vars, now.cons[now.todo.value])
        && Kept(now, next)
    requires Took(now.vars, now.cons, now.todo.value, mark, next.vars, next.cons, next.todo)
    ensures FrameStep(now, next, mark)
  {}

  lemma MethodsSize(vars: seq<Var>, cons: seq<Con>, vars': seq<Var>, cons': seq<Con>)
    requires OnlyMethods(vars, cons, vars', cons')
    ensures |cons'| == |cons| && |vars'| == |vars|
  {
    assert |Lists(vars')| == |Lists(vars)|;
  }

  lemma ProgressEnd(first: Frame, trace: seq<Frame>, now: Frame, c: nat, mark: int)
    requires Progressing(first, trace, now, c, mark)
    ensures Overrides(trace, mark) && trace[0] == first && trace[|trace| - 1] == now && MarksBelow(now.vars, mark)
    ensures OnlyMethods(first.vars, first.cons, now.vars, now.cons) && StillOff(first.cons, now.cons, c)
  {}

  lemma MethodsLists(vars: seq<Var>, cons: seq<Con>, vars': seq<Var>, cons': seq<Con>)
    requires OnlyMethods(vars, cons, vars', cons')
    ensures Lists(vars') == Lists(vars)
  {}

  // ── What failures say ─────────────────────────────────────────────

  /** Some constraint divides. */
  ghost predicate HasScale(cons: seq<Con>) { exists c: nat :: c < |cons| && cons[c].kind.Scale? }

  /** A required constraint waits and no end of it is open. */
  ghost predicate Stuck(f: Frame, mark: int)
  {
    && f.todo.Some? && f.todo.value < |f.cons| && KnownCon(f.vars, f.cons[f.todo.value])
    && f.cons[f.todo.value].strength == REQUIRED
    && forall v: nat :: !Open(f.vars, f.cons[f.todo.value], mark, v)
  }

  lemma OverridingOnly(vars: seq<Var>, cons: seq<Con>, c: nat, k: Con, vars': seq<Var>, cons': seq<Con>)
    requires c < |cons| && Remethod(cons[c], k) && Output(k) < |vars|
    requires NetOf(vars', cons') == Overriding(NetOf(vars, cons), c, k)
    ensures OnlyMethods(vars, cons, vars', cons')
  {
    var n, n' := NetOf(vars, cons), NetOf(vars', cons');
    assert Lists(vars') == n'.lists == n.lists == Lists(vars) && cons' == n'.cons;
  }

  lemma MethodsScale(vars: seq<Var>, cons: seq<Con>, vars': seq<Var>, cons': seq<Con>)
    requires OnlyMethods(vars, cons, vars', cons') && HasScale(cons')
    ensures HasScale(cons)
  {
    var c: nat :| c < |cons'| && cons'[c].kind.Scale?;
    assert Remethod(cons[c], cons'[c]);
  }

  lemma MethodsOne(vars: seq<Var>, cons: seq<Con>, c: nat, k: Con)
    requires c < |cons| && Remethod(cons[c], k)
    ensures OnlyMethods(vars, cons, vars, cons[c := k])
  {}

  lemma ScaleAt(cons: seq<Con>, c: nat)
    requires c < |cons| && cons[c].kind.Scale?
    ensures HasScale(cons)
  {}

  /** How an operation ends; all but Fine are panics in the source. */
  datatype Outcome = Fine | Cycle | Unsatisfiable | DividedByZero | Unsorted

  /**
   * What adding c came to: on success a chain of overrides that ran out; a cycle only when the
   * satisfied constraints admit no order of evaluation; a failure to satisfy only for a required
   * constraint with no open end; a division only where some constraint divides.
   */
  ghost predicate Added(f: Frame, mark: int, outcome: Outcome, trace: seq<Frame>, vars: seq<Var>, cons: seq<Con>)
  {
    && OnlyMethods(f.vars, f.cons, vars, cons)
    && (outcome == Fine || outcome == Unsatisfiable ==> Overrides(trace, mark) && trace[0] == f)
    && (outcome == Fine ==> trace[|trace| - 1] == Frame(vars, cons, None))
    && (outcome == Unsatisfiable ==> Stuck(trace[|trace| - 1], mark))
    && (outcome == Cycle ==> Matched(NetOf(vars, cons)) && !Acyclic(NetOf(vars, cons)))
    && (outcome == DividedByZero ==> HasScale(f.cons))
    && outcome != Unsorted
  }

  /** One constraint tried again: the state before, and how the addition went. */
  datatype Try = Try(before: Frame, outcome: Outcome, trace: seq<Frame>)

  /** The state after the i-th try. */
  function AfterTry(tries: seq<Try>, last: Frame, i: nat): Frame
    requires i < |tries|
  {
    if i + 1 < |tries| then tries[i + 1].before else last
  }

  /** The constraints of list have been tried from the first on, each from where the one before it left off. */
  ghost predicate Attempted(from: Frame, list: seq<nat>, mark: int, tries: seq<Try>, last: Frame)
  {
    && |tries| <= |list| && (if tries == [] then last == from else tries[0].before == from)
    && forall i: nat :: i < |tries| ==>
         var next := AfterTry(tries, last, i);
         Added(tries[i].before.(todo := Some(list[i])), mark + 1 + i, tries[i].outcome, tries[i].trace, next.vars,
           next.cons)
  }

  ghost predicate Retrying(from: Frame, list: seq<nat>, mark: int, tries: seq<Try>, last: Frame)
  {
    Attempted(from, list, mark, tries, last) && forall i: nat :: i < |tries| ==> tries[i].outcome == Fine
  }

  /** All of list were tried in order, or those up to one that failed, which decides the outcome. */
  ghost predicate Retried(from: Frame, list: seq<nat>, mark: int, outcome: Outcome, tries: seq<Try>, last: Frame)
  {
    && Attempted(from, list, mark, tries, last)
    && (forall i: nat :: i + 1 < |tries| ==> tries[i].outcome == Fine)
    && (if outcome == Fine then |tries| == |list| else tries != [])
    && (tries != [] ==> tries[|tries| - 1].outcome == outcome)
  }

  lemma RetriedNone(from: Frame, list: seq<nat>, mark: int)
    ensures Retrying(from, list, mark, [], from)
  {}

  lemma RetriedNext(from: Frame, list: seq<nat>, mark: int, tries: seq<Try>, before: Frame, outcome: Outcome,
                    trace: seq<Frame>, last: Frame)
    requires Retrying(from, list, mark, tries, before) && |tries| < |list|
    requires Added(before.(todo := Some(list[|tries|])), mark + 1 + |tries|, outcome, trace, last.vars, last.cons)
    ensures var next := tries + [Try(before, outcome, trace)];
            && (outcome == Fine ==> Retrying(from, list, mark, next, last))
            && (outcome != Fine ==> Retried(from, list, mark, outcome, next, last))
  {
    hide Added;
    var next := tries + [Try(before, outcome, trace)];
    forall i: nat | i < |next|
      ensures var after := AfterTry(next, last, i);
              Added(next[i].before.(todo := Some(list[i])), mark + 1 + i, next[i].outcome, next[i].trace,
                    after.vars, after.cons)
    {
      if i < |tries| { assert AfterTry(next, last, i) == AfterTry(tries, before, i); }
    }
  }

  lemma RetriedAll(from: Frame, list: seq<nat>, mark: int, tries: seq<Try>, last: Frame)
    requires Retrying(from, list, mark, tries, last) && |tries| == |list|
    ensures Retried(from, list, mark, Fine, tries, last)
  {}

  lemma AddedMethods(f: Frame, mark: int, outcome: Outcome, trace: seq<Frame>, vars: seq<Var>, cons: seq<Con>)
    requires Added(f, mark, outcome, trace, vars, cons)
    ensures OnlyMethods(f.vars, f.cons, vars, cons)
  {}
}
