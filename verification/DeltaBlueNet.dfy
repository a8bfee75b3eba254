/** Variables, constraints and the dataflow network they form. */
module DeltaBlueNet {
  import opened Options

  const REQUIRED := -800
  const STRONG_DEFAULT := -200
  const PREFERRED := -400
  const WEAKEST := 10000

  datatype Dir = Unset | Forward | Backward

  datatype Kind = Edit | Stay | Equality | Scale(scale: nat, offset: nat)

  datatype Var = Var(value: int, constraints: seq<nat>, determinedBy: Option<nat>, mark: int, walk: int, stay: bool)

  datatype Con = Con(kind: Kind, strength: int, v1: nat, v2: nat, dir: Dir, satisfied: bool)

  predicate Unary(k: Con) { k.kind.Edit? || k.kind.Stay? }

  predicate IsInput(k: Con) { k.kind.Edit? }

  predicate Sat(k: Con) { if Unary(k) then k.satisfied else k.dir != Unset }

  function Output(k: Con): nat { if Unary(k) || k.dir != Forward then k.v1 else k.v2 }

  function Input(k: Con): nat { if k.dir == Forward then k.v1 else k.v2 }

  function Off(k: Con): Con { k.(dir := Unset, satisfied := false) }

  /** k computes its output from v. */
  predicate Feeds(k: Con, v: nat)
  {
    !Unary(k) && (v == Input(k) || (k.kind.Scale? && (v == k.kind.scale || v == k.kind.offset)))
  }

  predicate Touches(k: Con, v: nat)
  {
    v == k.v1 || (!Unary(k) && v == k.v2) || (k.kind.Scale? && (v == k.kind.scale || v == k.kind.offset))
  }

  // ── The network ───────────────────────────────────────────────────

  /** Who is connected to whom, and which constraint determines each variable. */
  datatype Net = Net(cons: seq<Con>, lists: seq<seq<nat>>, det: seq<Option<nat>>)

  ghost predicate InRange(n: Net)
  {
    && |n.lists| == |n.det|
    && (forall c: nat :: c < |n.cons| ==> ConInRange(n.cons[c], |n.det|))
  }

  ghost predicate ConInRange(k: Con, vars: nat)
  {
    k.v1 < vars && k.v2 < vars && (k.kind.Scale? ==> k.kind.scale < vars && k.kind.offset < vars)
  }

  ghost predicate SatAt(n: Net, c: nat) { c < |n.cons| && Sat(n.cons[c]) }

  /** c is on the list of every variable it touches. */
  ghost predicate Listed(n: Net, c: nat)
    requires InRange(n) && c < |n.cons|
  {
    forall v: nat :: Touches(n.cons[c], v) ==> v < |n.lists| && c in n.lists[v]
  }

  /**
   * Satisfied constraints and determined-by links match one to one; a constraint that is on one list
   * is on the lists of exactly the variables it touches.
   */
  ghost predicate Matched(n: Net)
    ensures Matched(n) ==> InRange(n)
  {
    && InRange(n)
    && (forall v: nat, c: nat {:trigger c in n.lists[v]} :: v < |n.lists| && c in n.lists[v] ==>
          c < |n.cons| && Touches(n.cons[c], v) && Listed(n, c))
    && (forall c: nat :: SatAt(n, c) ==> Listed(n, c) && n.det[Output(n.cons[c])] == Some(c))
    && (forall v: nat :: v < |n.det| && n.det[v].Some? ==>
       SatAt(n, n.det[v].value) && Output(n.cons[n.det[v].value]) == v)
  }

  /** rank orders the variables so that every satisfied constraint but skip computes forward. */
  ghost predicate RankedBut(n: Net, rank: seq<nat>, skip: set<nat>)
    requires InRange(n)
  {
    && |rank| == |n.det|
    && forall c: nat, v: nat :: SatAt(n, c) && c !in skip && Feeds(n.cons[c], v) ==> rank[v] < rank[Output(n.cons[c])]
  }

  /** The dataflow has no cycle. */
  ghost predicate Acyclic(n: Net)
    requires InRange(n)
  {
    exists rank: seq<nat> :: RankedBut(n, rank, {})
  }

  /** The satisfied constraints on v that compute something from it. */
  function Consumers(n: Net, v: nat): seq<nat>
    requires v < |n.lists| == |n.det|
  {
    Consuming(n, n.det[v], n.lists[v])
  }

  function Consuming(n: Net, det: Option<nat>, list: seq<nat>): seq<nat>
  {
    if list == [] then []
    else
      var c := list[|list| - 1];
      Consuming(n, det, list[..|list| - 1])
      + if det != Some(c) && c < |n.cons| && Sat(n.cons[c]) then [c] else []
  }

  lemma {:induction false} ConsumingHas(n: Net, det: Option<nat>, list: seq<nat>, c: nat)
    ensures c in Consuming(n, det, list) <==> c in list && det != Some(c) && SatAt(n, c)
  {
    if list != [] { ConsumingHas(n, det, list[..|list| - 1], c); }
  }

  /** Consumers of v are exactly the satisfied constraints on v that do not determine it; v feeds them. */
  lemma ConsumersFeed(n: Net, v: nat, c: nat)
    requires Matched(n) && v < |n.lists|
    ensures c in Consumers(n, v) <==> SatAt(n, c) && Touches(n.cons[c], v) && Output(n.cons[c]) != v
    ensures c in Consumers(n, v) ==> Feeds(n.cons[c], v) && Output(n.cons[c]) < |n.det|
  {
    ConsumingHas(n, n.det[v], n.lists[v], c);
    if SatAt(n, c) { assert Listed(n, c); }
  }

  lemma OutputKnown(n: Net, c: nat)
    requires Matched(n) && SatAt(n, c)
    ensures Output(n.cons[c]) < |n.det| == |n.lists| && n.det[Output(n.cons[c])] == Some(c)
        && ConInRange(n.cons[c], |n.det|)
  {
    assert ConInRange(n.cons[c], |n.det|);
  }

  // ── Counting paths ────────────────────────────────────────────────

  /** The network without the constraints skip is ranked, with no rank above top. */
  ghost predicate Bounded(n: Net, rank: seq<nat>, top: nat, skip: set<nat>)
    ensures Bounded(n, rank, top, skip) ==> |rank| == |n.lists| == |n.det|
  {
    Matched(n) && RankedBut(n, rank, skip) && forall u: nat :: u < |rank| ==> rank[u] <= top
  }

  /** Turns of propagation that variable v costs: itself and everything computed from it, path by path. */
  ghost function Cost(n: Net, rank: seq<nat>, top: nat, skip: set<nat>, v: nat): nat
    requires Bounded(n, rank, top, skip) && v < |n.det|
    decreases top - rank[v], |n.lists[v]| + 1
  {
    1 + CostAll(n, rank, top, skip, v, n.lists[v])
  }

  ghost function CostAll(n: Net, rank: seq<nat>, top: nat, skip: set<nat>, v: nat, list: seq<nat>): nat
    requires Bounded(n, rank, top, skip) && v < |n.det| && list <= n.lists[v]
    decreases top - rank[v], |list|
  {
    if list == [] then 0
    else
      var c := list[|list| - 1];
      assert c in n.lists[v];
      ConsumersFeed(n, v, c);
      CostAll(n, rank, top, skip, v, list[..|list| - 1])
      + if c in Consumers(n, v) && c !in skip then Cost(n, rank, top, skip, Output(n.cons[c])) else 0
  }

  /** The cost of a queue of constraints. */
  ghost function QueueCost(n: Net, rank: seq<nat>, top: nat, skip: set<nat>, todo: seq<nat>): nat
    requires Bounded(n, rank, top, skip) && forall i: nat :: i < |todo| ==> SatAt(n, todo[i])
  {
    if todo == [] then 0
    else
      var d := todo[|todo| - 1];
      OutputKnown(n, d);
      QueueCost(n, rank, top, skip, todo[..|todo| - 1]) + Cost(n, rank, top, skip, Output(n.cons[d]))
  }

  lemma {:induction false} QueueCostAppend(n: Net, rank: seq<nat>, top: nat, skip: set<nat>, a: seq<nat>, b: seq<nat>)
    requires Bounded(n, rank, top, skip)
    requires (forall i: nat :: i < |a| ==> SatAt(n, a[i])) && (forall i: nat :: i < |b| ==> SatAt(n, b[i]))
    ensures QueueCost(n, rank, top, skip, a + b) == QueueCost(n, rank, top, skip, a) + QueueCost(n, rank, top, skip, b)
  {
    hide Bounded, Cost, SatAt;
    if b == [] {
      assert a + b == a;
    } else {
      var l := |b| - 1;
      assert (a + b)[..|a + b| - 1] == a + b[..l] && (a + b)[|a + b| - 1] == b[l];
      QueueCostAppend(n, rank, top, skip, a, b[..l]);
    }
  }

  /** The consumers of v cost one turn less than v. */
  lemma {:induction false} ConsumersCost(n: Net, rank: seq<nat>, top: nat, skip: set<nat>, v: nat, list: seq<nat>)
    requires Bounded(n, rank, top, skip) && v < |n.det| && list <= n.lists[v]
    requires forall c :: c in Consumers(n, v) ==> c !in skip
    ensures var q := Consuming(n, n.det[v], list);
            (forall i: nat :: i < |q| ==> SatAt(n, q[i]))
            && QueueCost(n, rank, top, skip, q) == CostAll(n, rank, top, skip, v, list)
    decreases |list|
  {
    hide Bounded, Cost, SatAt, Consuming, Consumers, QueueCost;
    var q := Consuming(n, n.det[v], list);
    forall i: nat | i < |q| ensures SatAt(n, q[i]) { ConsumingHas(n, n.det[v], list, q[i]); }
    if list == [] {
      NoCost(n, n.det[v], rank, top, skip);
    } else {
      var m := |list| - 1;
      var c := list[m];
      ConsumersCost(n, rank, top, skip, v, list[..m]);
      assert c in n.lists[v];
      ConsumersHas(n, v, c);
      ConsumingLast(n, n.det[v], list, c);
      var r := Consuming(n, n.det[v], list[..m]);
      if c in Consumers(n, v) { CostLast(n, rank, top, skip, r, c); } else { assert q == r; }
    }
  }

  lemma NoCost(n: Net, det: Option<nat>, rank: seq<nat>, top: nat, skip: set<nat>)
    requires Bounded(n, rank, top, skip)
    ensures Consuming(n, det, []) == [] && QueueCost(n, rank, top, skip, []) == 0
  {}

  lemma ConsumersHas(n: Net, v: nat, c: nat)
    requires v < |n.lists| == |n.det| && c in n.lists[v]
    ensures c in Consumers(n, v) <==> n.det[v] != Some(c) && SatAt(n, c)
  {
    ConsumingHas(n, n.det[v], n.lists[v], c);
  }

  /** One constraint more in the queue. */
  lemma CostLast(n: Net, rank: seq<nat>, top: nat, skip: set<nat>, q: seq<nat>, d: nat)
    requires Bounded(n, rank, top, skip) && SatAt(n, d) && forall i: nat :: i < |q| ==> SatAt(n, q[i])
    ensures (forall i: nat :: i < |q + [d]| ==> SatAt(n, (q + [d])[i])) && Output(n.cons[d]) < |n.det|
    ensures QueueCost(n, rank, top, skip, q + [d])
            == QueueCost(n, rank, top, skip, q) + Cost(n, rank, top, skip, Output(n.cons[d]))
  {
    hide Cost;
    OutputKnown(n, d);
    assert (q + [d])[..|q|] == q;
  }

  lemma ConsumingLast(n: Net, det: Option<nat>, list: seq<nat>, c: nat)
    requires list != [] && c == list[|list| - 1]
    ensures Consuming(n, det, list)
            == Consuming(n, det, list[..|list| - 1]) + if det != Some(c) && SatAt(n, c) then [c] else []
  {}
}
