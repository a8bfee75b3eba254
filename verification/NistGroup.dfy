/** Scalar multiplication over an abstract group of prime order, and affine coordinates. */
module NistGroup {
  import opened Arith
  import opened NistField
  import opened NistPoint
  import opened NistPower
  import opened NumberTheory
  import opened Words

  /** The point all of whose coordinates are multiplied by s. */
  function Scaled(m: nat, s: int, p: Point<int>): Point<nat>
    requires m > 0
  {
    ModPoint(m, Point(s * p.x, s * p.y, s * p.z))
  }

  /**
   * The group laws that are taken as hypotheses. The residue triples accepted by on form a group of
   * order n under the complete sum, and log is its isomorphism to the integers modulo n that sends
   * the base point to 1; triples that are multiples of each other are one point.
   */
  ghost predicate Group(c: Curve, on: Point<nat> -> bool, log: Point<nat> -> nat)
    requires CurveOk(c)
  {
    && (forall p :: on(p) ==> InPoint(c, p) && log(p) < c.n.m && OnCurve(c.p.m, Val(c.p, c.b), p))
    && (forall p, q :: on(p) && on(q) ==> Adds(c, on, log, p, q))
    && (forall p, s: nat :: on(p) && 0 < s < c.p.m ==>
          on(Scaled(c.p.m, s, p)) && log(Scaled(c.p.m, s, p)) == log(p))
    && (forall p, q :: on(p) && on(q) && log(p) == log(q) ==> Proportional(c.p.m, p, q))
    && (forall p :: on(p) ==> (p.z == 0 <==> log(p) == 0))
    && on(Point(0, 1, 0)) && log(Point(0, 1, 0)) == 0
    && on(Vals(c, Generator(c))) && log(Vals(c, Generator(c))) == 1
  }

  ghost predicate Adds(c: Curve, on: Point<nat> -> bool, log: Point<nat> -> nat, p: Point<nat>, q: Point<nat>)
    requires CurveOk(c)
  {
    var s := ModPoint(c.p.m, Sum(Val(c.p, c.b), p, q));
    on(s) && log(s) == Mod(log(p) + log(q), c.n.m)
  }

  ghost predicate Proportional(m: nat, p: Point<nat>, q: Point<nat>)
    requires m > 0
  {
    Cong(p.x * q.z, q.x * p.z, m) && Cong(p.y * q.z, q.y * p.z, m)
  }

  /** A reduced word point standing for k times the base point. */
  ghost predicate Stands(c: Curve, on: Point<nat> -> bool, log: Point<nat> -> nat, p: Point<nat>, k: int)
    requires CurveOk(c)
  {
    InPoint(c, p) && on(Vals(c, p)) && log(Vals(c, p)) == Mod(k, c.n.m)
  }

  lemma MeansPointSelf(c: Curve, p: Point<nat>)
    requires CurveOk(c) && InPoint(c, p)
    ensures MeansPoint(c, p, Vals(c, p)) && Means(c.p, c.b, Val(c.p, c.b))
  {
    hide Val, Mod, Rendered, Prime;
    RenderedBounds(c.p);
    MeansSelf(c.p, p.x);
    MeansSelf(c.p, p.y);
    MeansSelf(c.p, p.z);
    MeansSelf(c.p, c.b);
  }

  lemma MeansVals(c: Curve, p: Point<nat>, x: Point<int>)
    requires CurveOk(c) && MeansPoint(c, p, x)
    ensures InPoint(c, p) && Vals(c, p) == ModPoint(c.p.m, x)
  {
    hide Val, Mod, Rendered, Prime, Means;
    RenderedBounds(c.p);
    MeansValue(c.p, p.x, x.x);
    MeansValue(c.p, p.y, x.y);
    MeansValue(c.p, p.z, x.z);
  }

  /** Addition of points adds their logarithms. */
  lemma AddStands(c: Curve, on: Point<nat> -> bool, log: Point<nat> -> nat, p: Point<nat>, q: Point<nat>, k: int,
      l: int)
    requires CurveOk(c) && Group(c, on, log) && Stands(c, on, log, p, k) && Stands(c, on, log, q, l)
    ensures Stands(c, on, log, AddPoint(c, p, q), k + l)
  {
    hide Val, Mod, Rendered, Prime, MeansPoint, AddPoint, Sum, Group, Vals, CurveOk, InPoint;
    MeansPointSelf(c, p);
    MeansPointSelf(c, q);
    CurveBounds(c);
    AddMeans(c, p, q, Vals(c, p), Vals(c, q), Val(c.p, c.b));
    MeansVals(c, AddPoint(c, p, q), Sum(Val(c.p, c.b), Vals(c, p), Vals(c, q)));
    GroupAdds(c, on, log, Vals(c, p), Vals(c, q));
    ModSum(k, l, c.n.m);
  }

  lemma CurveBounds(c: Curve)
    requires CurveOk(c)
    ensures Rendered(c.p) && Rendered(c.n) && In(c.p, c.b) && 2 < c.p.m < Pow2(c.p.k) && 2 < c.n.m < Pow2(c.p.k)
    ensures c.p.k > 0 && c.p.k < c.p.w && c.n.k == c.p.k && c.n.w == c.p.w && Pow2(c.p.k) < 2 * c.n.m
    ensures Prime(c.p.m) && Prime(c.n.m)
  {
    hide Pow2, Prime;
    Pow2Zero();
  }

  lemma Pow2Zero()
    ensures Pow2(0) == 1
  {}

  lemma GroupAdds(c: Curve, on: Point<nat> -> bool, log: Point<nat> -> nat, p: Point<nat>, q: Point<nat>)
    requires CurveOk(c) && Group(c, on, log) && on(p) && on(q)
    ensures Adds(c, on, log, p, q)
  {
    hide Adds, Rendered, Prime;
  }

  lemma ModSum(k: int, l: int, n: nat)
    requires n > 0
    ensures Mod(Mod(k, n) + Mod(l, n), n) == Mod(k + l, n)
  {
    hide Mod;
    CongMod(k, n);
    CongMod(l, n);
    CongAdd(Mod(k, n), k, Mod(l, n), l, n);
  }

  lemma DoubleStands(c: Curve, on: Point<nat> -> bool, log: Point<nat> -> nat, p: Point<nat>, k: int)
    requires CurveOk(c) && Group(c, on, log) && Stands(c, on, log, p, k)
    ensures Stands(c, on, log, DoublePoint(c, p), 2 * k)
  {
    hide Val, Mod, Rendered, Prime, AddPoint, DoublePoint, Adds, Proportional, OnCurve;
    DoubleIsSum(c, p);
    AddStands(c, on, log, p, p, k, k);
  }

  lemma StandsBelow(c: Curve, p: Point<nat>)
    requires CurveOk(c) && InPoint(c, p)
    ensures p.x < Pow2(c.p.w) && p.y < Pow2(c.p.w) && p.z < Pow2(c.p.w)
  {
    hide Pow2, Prime;
    Pow2Mono(c.p.k, c.p.w);
  }

  /** The ladder multiplies r by 2^n and adds the low n bits of k times p. */
  lemma {:induction false} LadderStands(c: Curve, on: Point<nat> -> bool, log: Point<nat> -> nat,
                                        k: nat, n: nat, r: Point<nat>, p: Point<nat>, i: int, j: int)
    requires CurveOk(c) && Group(c, on, log) && Stands(c, on, log, r, i) && Stands(c, on, log, p, j)
    ensures Stands(c, on, log, Ladder(c, k, n, r, p), Pow2(n) * i + Mod(k, Pow2(n)) * j)
    decreases n
  {
    hide *;
    LadderSteps(c, k, n, r, p);
    if n == 0 {
      ModOne(k);
    } else {
      var d := DoublePoint(c, r);
      DoubleStands(c, on, log, r, i);
      AddStands(c, on, log, d, p, 2 * i, j);
      var bit, b := Shr(k, n - 1), Bit(k, n - 1);
      SelectStands(c, on, log, bit, AddPoint(c, d, p), d, 2 * i + j, 2 * i);
      var e := SelectPoint(c, Mask(c.p, bit), AddPoint(c, d, p), d);
      TopBit(k, n);
      BitOf(k, n - 1);
      assert Stands(c, on, log, e, 2 * i + b * j);
      LadderStands(c, on, log, k, n - 1, e, p, 2 * i + b * j, j);
      Pow2Succ(n);
      LadderIdentity(Pow2(n - 1), i, j, b, Mod(k, Pow2(n - 1)), Pow2(n), Mod(k, Pow2(n)));
    }
  }

  lemma LadderSteps(c: Curve, k: nat, n: nat, r: Point<nat>, p: Point<nat>)
    ensures n == 0 ==> Ladder(c, k, n, r, p) == r
    ensures n > 0 ==>
              var d := DoublePoint(c, r);
              Ladder(c, k, n, r, p)
              == Ladder(c, k, n - 1, SelectPoint(c, Mask(c.p, Shr(k, n - 1)), AddPoint(c, d, p), d), p)
  {
    hide DoublePoint, SelectPoint, AddPoint, Mask, Shr;
  }

  lemma BitOf(k: nat, n: nat)
    ensures Shr(k, n) % 2 == Bit(k, n)
  {
    ModIsRemainder(Shr(k, n), 2);
  }

  lemma LadderIdentity(p: int, i: int, j: int, b: int, low: int, q: int, e: int)
    requires q == 2 * p && e == b * p + low
    ensures p * (2 * i + b * j) + low * j == q * i + e * j
  {
    assert p * (b * j) == b * p * j;
  }

  lemma SelectStands(c: Curve, on: Point<nat> -> bool, log: Point<nat> -> nat, bit: nat,
                     p: Point<nat>, q: Point<nat>, k: int, l: int)
    requires CurveOk(c) && Stands(c, on, log, p, k) && Stands(c, on, log, q, l)
    ensures Stands(c, on, log, SelectPoint(c, Mask(c.p, bit), p, q), if bit % 2 == 1 then k else l)
  {
    hide Val, Mod, Rendered, Prime, Blend, Mask, CurveOk, Pow2;
    StandsBelow(c, p);
    StandsBelow(c, q);
    BlendValue(c.p, bit, p.x, q.x);
    BlendValue(c.p, bit, p.y, q.y);
    BlendValue(c.p, bit, p.z, q.z);
  }

  /** Multiplication by any scalar of k bits. */
  lemma MulStands(c: Curve, on: Point<nat> -> bool, log: Point<nat> -> nat, k: nat, p: Point<nat>, j: int)
    requires CurveOk(c) && Group(c, on, log) && Stands(c, on, log, p, j) && k < Pow2(c.p.k)
    ensures Stands(c, on, log, MulPoint(c, k, p), k * j)
  {
    hide Val, Mod, Rendered, Prime, Group, Ladder, MeansPoint;
    assert Rendered(c.p);
    MeansInfinity(c);
    MeansVals(c, Infinity(c), Point(0, 1, 0));
    InfinityStands(c, on, log);
    LadderStands(c, on, log, k, c.p.k, Infinity(c), p, 0, j);
    DivModUnique(k, Pow2(c.p.k), 0, k);
    assert Pow2(c.p.k) * 0 == 0;
  }

  lemma InfinityStands(c: Curve, on: Point<nat> -> bool, log: Point<nat> -> nat)
    requires CurveOk(c) && Group(c, on, log) && InPoint(c, Infinity(c))
    requires Vals(c, Infinity(c)) == ModPoint(c.p.m, Point(0, 1, 0))
    ensures Stands(c, on, log, Infinity(c), 0)
  {
    hide Val, Rendered, Prime, Adds, OnCurve, Proportional, Vals;
    RenderedBounds(c.p);
    RenderedBounds(c.n);
    assert ModPoint(c.p.m, Point(0, 1, 0)) == Point(0, 1, 0);
  }

  lemma GeneratorStands(c: Curve, on: Point<nat> -> bool, log: Point<nat> -> nat)
    requires CurveOk(c) && Group(c, on, log)
    ensures Stands(c, on, log, Generator(c), 1)
  {
    hide Val, Rendered, Prime, Adds, OnCurve, Proportional, Vals;
    RenderedBounds(c.p);
    RenderedBounds(c.n);
    OneValue(c.p);
  }
}
