/** Walkabout strengths, stay flags and values: what a constraint computes for its output. */
module DeltaBlueSteps {
  import opened DeltaBlueNet
  import opened Options

  function Lists(vars: seq<Var>): (l: seq<seq<nat>>)
    ensures |l| == |vars| && forall i: nat :: i < |vars| ==> l[i] == vars[i].constraints
  {
    seq(|vars|, i requires 0 <= i < |vars| => vars[i].constraints)
  }

  function Dets(vars: seq<Var>): (d: seq<Option<nat>>)
    ensures |d| == |vars| && forall i: nat :: i < |vars| ==> d[i] == vars[i].determinedBy
  {
    seq(|vars|, i requires 0 <= i < |vars| => vars[i].determinedBy)
  }

  function NetOf(vars: seq<Var>, cons: seq<Con>): (n: Net)
    ensures |n.lists| == |n.det| == |vars| && n.cons == cons
  {
    Net(cons, Lists(vars), Dets(vars))
  }

  /** The same network and the same marks: only strengths, flags and values may differ. */
  ghost predicate SameNet(a: seq<Var>, b: seq<Var>)
  {
    |a| == |b| && forall v: nat :: v < |a| ==> SameVar(a[v], b[v])
  }

  ghost predicate SameVar(a: Var, b: Var)
  {
    a.constraints == b.constraints && a.determinedBy == b.determinedBy && a.mark == b.mark
  }

  lemma SameNetOf(a: seq<Var>, b: seq<Var>, cons: seq<Con>)
    requires SameNet(a, b)
    ensures NetOf(a, cons) == NetOf(b, cons)
  {
    assert forall v: nat :: v < |a| ==> SameVar(a[v], b[v]);
    assert Lists(a) == Lists(b) && Dets(a) == Dets(b);
  }

  lemma SameNetTrans(a: seq<Var>, b: seq<Var>, c: seq<Var>)
    requires SameNet(a, b) && SameNet(b, c)
    ensures SameNet(a, c)
  {
    forall v: nat | v < |a| ensures SameVar(a[v], c[v]) { assert SameVar(a[v], b[v]) && SameVar(b[v], c[v]); }
  }

  lemma SameNetSelf(a: seq<Var>)
    ensures SameNet(a, a)
  {}

  // ── Computing an output ───────────────────────────────────────────

  /** Division that truncates toward zero. */
  function TruncDiv(a: int, b: int): int
    requires b != 0
  {
    var q := (if a < 0 then -a else a) / (if b < 0 then -b else b);
    if (a < 0) != (b < 0) then -q else q
  }

  /** The quotient is the one whose remainder is smaller than b and has the sign of a. */
  lemma TruncDivIff(a: int, b: int, q: int)
    requires b != 0
    ensures q == TruncDiv(a, b) <==> Remainder(a - q * b, a, b)
  {
    var m: nat, n: nat := if a < 0 then -a else a, if b < 0 then -b else b;
    var p: int := if (a < 0) != (b < 0) then -q else q;
    assert a - q * b == (if a < 0 then -(m - p * n) else m - p * n) by {
      assert q * b == if a < 0 then -(p * n) else p * n;
    }
    QuotientIff(m, n, p);
  }

  /** r is what may be left of a after division by b. */
  predicate Remainder(r: int, a: int, b: int)
  {
    (if b < 0 then b < r < -b else -b < r < b) && (r == 0 || (r < 0 <==> a < 0))
  }

  lemma QuotientIff(m: nat, n: nat, p: int)
    requires n > 0
    ensures p == m / n <==> 0 <= m - p * n < n
  {
    assert m == m / n * n + m % n;
    QuotientOf(m, n, m / n, m % n, p);
  }

  lemma QuotientOf(m: int, n: nat, q: int, r: int, p: int)
    requires m == q * n + r && 0 <= r < n
    ensures p == q <==> 0 <= m - p * n < n
  {
    TimesDifference(q, p, n);
    if q < p { TimesGap(p - q, n); }
    if q > p { TimesGap(q - p, n); }
  }

  lemma TimesDifference(q: int, p: int, n: int)
    ensures q * n - p * n == (q - p) * n == -((p - q) * n)
  {}

  lemma TimesGap(d: int, n: nat)
    requires d >= 1
    ensures d * n >= n
  {}

  ghost predicate KnownCon(vars: seq<Var>, k: Con) { ConInRange(k, |vars|) }

  /** Executing k does not divide by zero. */
  predicate CanExecute(vars: seq<Var>, k: Con)
    requires k.kind.Scale? ==> k.kind.scale < |vars|
  {
    k.kind.Scale? && k.dir != Forward ==> vars[k.kind.scale].value != 0
  }

  /** The value k gives its output. */
  function Computed(vars: seq<Var>, k: Con): int
    requires KnownCon(vars, k) && CanExecute(vars, k)
  {
    match k.kind
    case Equality => vars[Input(k)].value
    case Scale(scale, offset) =>
      if k.dir == Forward then vars[k.v1].value * vars[scale].value + vars[offset].value
      else TruncDiv(vars[k.v2].value - vars[offset].value, vars[scale].value)
    case _ => vars[k.v1].value
  }

  function Executed(vars: seq<Var>, k: Con): (r: seq<Var>)
    requires KnownCon(vars, k) && CanExecute(vars, k)
    ensures |r| == |vars|
  {
    vars[Output(k) := vars[Output(k)].(value := Computed(vars, k))]
  }

  /** The strength of whatever would change if k's output were changed instead. */
  function WalkOf(vars: seq<Var>, k: Con): int
    requires KnownCon(vars, k)
  {
    if Unary(k) || vars[Input(k)].walk < k.strength then k.strength else vars[Input(k)].walk
  }

  /** Whether k's output is constant. */
  function StayOf(vars: seq<Var>, k: Con): bool
    requires KnownCon(vars, k)
  {
    if Unary(k) then !IsInput(k)
    else vars[Input(k)].stay && (k.kind.Scale? ==> vars[k.kind.scale].stay && vars[k.kind.offset].stay)
  }

  /** A variable is as easy to change as the weakest of the constraint that determines it and that one's input. */
  lemma WalkWeakest(vars: seq<Var>, k: Con)
    requires KnownCon(vars, k)
    ensures WalkOf(vars, k) >= k.strength && (!Unary(k) ==> WalkOf(vars, k) >= vars[Input(k)].walk)
    ensures WalkOf(vars, k) == k.strength || (!Unary(k) && WalkOf(vars, k) == vars[Input(k)].walk)
  {}

  /** An output is constant exactly when its constraint is no input and everything that it reads is constant. */
  lemma StayIff(vars: seq<Var>, k: Con)
    requires KnownCon(vars, k)
    ensures StayOf(vars, k) <==> !IsInput(k) && forall v: nat :: v < |vars| && Feeds(k, v) ==> vars[v].stay
  {}

  function Annotated(vars: seq<Var>, k: Con): (r: seq<Var>)
    requires KnownCon(vars, k)
    ensures |r| == |vars|
  {
    vars[Output(k) := vars[Output(k)].(walk := WalkOf(vars, k), stay := StayOf(vars, k))]
  }

  predicate CanRecalculate(vars: seq<Var>, k: Con)
    requires KnownCon(vars, k)
  {
    StayOf(vars, k) ==> CanExecute(vars, k)
  }

  function Recalculated(vars: seq<Var>, k: Con): (r: seq<Var>)
    requires KnownCon(vars, k) && CanRecalculate(vars, k)
    ensures |r| == |vars|
  {
    if StayOf(vars, k) then Executed(Annotated(vars, k), k) else Annotated(vars, k)
  }

  lemma RecalculatedNet(vars: seq<Var>, k: Con)
    requires KnownCon(vars, k) && CanRecalculate(vars, k)
    ensures SameNet(vars, Recalculated(vars, k))
  {}

  lemma AnnotatedNet(vars: seq<Var>, k: Con)
    requires KnownCon(vars, k)
    ensures SameNet(vars, Annotated(vars, k))
  {}

  /** k's output carries what k computes: strength, flag, and the value when it is constant. */
  ghost predicate Fresh(vars: seq<Var>, k: Con)
  {
    && KnownCon(vars, k)
    && vars[Output(k)].walk == WalkOf(vars, k) && vars[Output(k)].stay == StayOf(vars, k)
    && (StayOf(vars, k) ==> CanExecute(vars, k) && vars[Output(k)].value == Computed(vars, k))
  }

  lemma RecalculatedFresh(vars: seq<Var>, k: Con)
    requires KnownCon(vars, k) && CanRecalculate(vars, k) && !Feeds(k, Output(k))
    ensures Fresh(Recalculated(vars, k), k)
  {}

  /** Recomputing an output leaves every constraint fresh that neither sets nor reads it. */
  lemma RecalculatedOthers(vars: seq<Var>, k: Con, j: Con)
    requires KnownCon(vars, k) && CanRecalculate(vars, k) && Fresh(vars, j)
    requires Output(j) != Output(k) && !Feeds(j, Output(k))
    ensures Fresh(Recalculated(vars, k), j)
  {}

  /** Every satisfied constraint outside todo is fresh, and undetermined variables are free. */
  ghost predicate FreshBut(vars: seq<Var>, cons: seq<Con>, todo: seq<nat>)
  {
    && (forall d: nat :: d < |cons| && Sat(cons[d]) ==> d in todo || Fresh(vars, cons[d]))
    && (forall v: nat :: v < |vars| && vars[v].determinedBy.None? ==> vars[v].walk == WEAKEST && vars[v].stay)
  }

  /** One turn of propagation: d is recomputed and its output's consumers queue up. */
  lemma PropagateStep(vars: seq<Var>, cons: seq<Con>, d: nat, rest: seq<nat>, vars': seq<Var>, todo: seq<nat>)
    requires Matched(NetOf(vars, cons)) && FreshBut(vars, cons, [d] + rest) && SatAt(NetOf(vars, cons), d)
    requires KnownCon(vars, cons[d]) && CanRecalculate(vars, cons[d]) && !Feeds(cons[d], Output(cons[d]))
    requires vars' == Recalculated(vars, cons[d])
    requires Output(cons[d]) < |vars| && todo == rest + Consumers(NetOf(vars, cons), Output(cons[d]))
    ensures FreshBut(vars', cons, todo) && SameNet(vars, vars')
  {
    hide Recalculated, Fresh, Matched;
    var n, o := NetOf(vars, cons), Output(cons[d]);
    RecalculatedNet(vars, cons[d]);
    RecalculatedFresh(vars, cons[d]);
    forall j: nat | j < |cons| && Sat(cons[j]) ensures j in todo || Fresh(vars', cons[j]) {
      if j != d && j !in rest {
        OutputKnown(n, j);
        OutputKnown(n, d);
        ConsumersFeed(n, o, j);
        FeedsTouches(cons[j], o);
        if !Feeds(cons[j], o) { RecalculatedOthers(vars, cons[d], cons[j]); }
      }
    }
    FreeKept(vars, cons[d]);
    forall v: nat | v < |vars'| && vars'[v].determinedBy.None? ensures vars'[v].walk == WEAKEST && vars'[v].stay {
      assert SameVar(vars[v], vars'[v]);
      OutputKnown(n, d);
    }
  }

  lemma FeedsTouches(k: Con, v: nat)
    ensures Feeds(k, v) ==> Touches(k, v)
  {}

  lemma FreeKept(vars: seq<Var>, k: Con)
    requires KnownCon(vars, k) && CanRecalculate(vars, k)
    ensures forall v: nat :: v < |vars| && v != Output(k) ==> Recalculated(vars, k)[v] == vars[v]
  {}

  // ── Choosing a method ─────────────────────────────────────────────

  /** The weakest unmarked end weaker than k becomes its output, if there is one. */
  function Chosen(vars: seq<Var>, k: Con, mark: int): Con
    requires KnownCon(vars, k)
  {
    if Unary(k) then k.(satisfied := vars[k.v1].mark != mark && k.strength < vars[k.v1].walk)
    else
      var a, b := vars[k.v1], vars[k.v2];
      k.(dir := if a.mark == mark then (if b.mark != mark && k.strength < b.walk then Forward else Unset)
                else if b.mark == mark then (if a.mark != mark && k.strength < a.walk then Backward else Unset)
                else if a.walk > b.walk then (if k.strength < a.walk then Backward else Unset)
                else if k.strength < b.walk then Forward else Unset)
  }

  /** v is one of the ends k may compute. */
  predicate EndOf(k: Con, v: nat) { v == k.v1 || (!Unary(k) && v == k.v2) }

  /** v is an end k could override now. */
  ghost predicate Open(vars: seq<Var>, k: Con, mark: int, v: nat)
    requires KnownCon(vars, k)
  {
    EndOf(k, v) && vars[v].mark != mark && k.strength < vars[v].walk
  }

  /** A method is chosen exactly when some end is open, and it is the open end of the weakest walkabout. */
  lemma ChosenIff(vars: seq<Var>, k: Con, mark: int)
    requires KnownCon(vars, k)
    ensures var k' := Chosen(vars, k, mark);
            && (Sat(k') <==> exists v: nat :: Open(vars, k, mark, v))
            && (Sat(k') ==> Open(vars, k, mark, Output(k'))
                            && forall v: nat :: Open(vars, k, mark, v) ==> vars[v].walk <= vars[Output(k')].walk)
            && k' == k.(dir := k'.dir, satisfied := k'.satisfied)
  {
    var k' := Chosen(vars, k, mark);
    if Sat(k') { assert Open(vars, k, mark, Output(k')); }
  }
}
