/** Leaving and entering projective coordinates, the curve test, and the private scalar test. */
module NistAffine {
  import opened Arith
  import opened NistField
  import opened NistGroup
  import opened NistPoint
  import opened NistPower
  import opened NumberTheory
  import opened Words

  /** Affine coordinates as ordinary integers; ok is false for infinity and for refused encodings. */
  datatype Affine = Affine(x: nat, y: nat, ok: bool)

  /** 1 when v is not zero, else 0. */
  function Nonzero(f: Modulus, v: nat): nat
    requires f.w > 0
  {
    And(Shr(Or(v, USub(f.w, 0, v)), f.w - 1), 1)
  }

  function ToAffine(c: Curve, p: Point<nat>): Affine
    requires c.p.k > 0 && c.p.m >= 2 && c.p.w > 0
  {
    var zi := Inv(c.p, p.z);
    Affine(From(c.p, Mont(c.p, p.x, zi)), From(c.p, Mont(c.p, p.y, zi)), Nonzero(c.p, p.z) == 1)
  }

  function FromAffine(c: Curve, a: Affine): Point<nat> { Point(To(c.p, a.x), To(c.p, a.y), c.p.one) }

  /** x^3 - 3 x + b, in Montgomery form. */
  function Rhs(c: Curve, xm: nat): nat
  {
    var f := c.p;
    Add(f, Sub(f, Mont(f, Mont(f, xm, xm), xm), Add(f, xm, Add(f, xm, xm))), c.b)
  }

  predicate IsOnCurve(c: Curve, x: nat, y: nat)
  {
    x < c.p.m && y < c.p.m && Mont(c.p, To(c.p, y), To(c.p, y)) == Rhs(c, To(c.p, x))
  }

  /** Whether d is a usable private scalar. */
  predicate ScalarOk(f: Modulus, d: nat)
    requires f.w > 0
  {
    And(And(Shr(USub(f.w, d, f.m), f.w - 1), 1), Nonzero(f, d)) == 1
  }

  // ── Tests on words ────────────────────────────────────────────────

  /** Or has its top bit where either word has. */
  lemma {:induction false} OrTop(a: nat, b: nat, w: nat)
    requires w > 0 && a < Pow2(w) && b < Pow2(w)
    ensures Or(a, b) < Pow2(w) && (Or(a, b) >= Pow2(w - 1) <==> a >= Pow2(w - 1) || b >= Pow2(w - 1))
  {
    if w == 1 {
      assert Pow2(1) == 2 && Pow2(0) == 1;
      OrHalf(a, b);
      assert Or(0, 0) == 0;
    } else {
      OrHalf(a, b);
      OrTop(a / 2, b / 2, w - 1);
      Pow2Succ(w);
      Pow2Succ(w - 1);
    }
  }

  lemma OrHalf(a: nat, b: nat)
    ensures Or(a, b) == 2 * Or(a / 2, b / 2) + (if a % 2 + b % 2 == 0 then 0 else 1)
  {
    assert Or(0, 0) == 0;
  }

  /** The top bit of a word. */
  lemma TopValue(v: nat, w: nat)
    requires w > 0 && v < Pow2(w)
    ensures And(Shr(v, w - 1), 1) == Shr(v, w - 1) == if v >= Pow2(w - 1) then 1 else 0
  {
    Pow2Succ(w);
    var h := Pow2(w - 1);
    DivModUnique(v, h, if v >= h then 1 else 0, if v >= h then v - h else v);
    assert And(0, 1) == 0 && And(1, 1) == 1 by { assert And(0, 0) == 0; }
  }

  /** The test is right for every word, not only those below 2^(w - 1). */
  lemma NonzeroValue(f: Modulus, v: nat)
    requires f.w > 0 && v < Pow2(f.w)
    ensures Nonzero(f, v) == if v == 0 then 0 else 1
  {
    hide And, Or, Pow2, Mod, Div;
    var w := f.w;
    Pow2Succ(w);
    DivModUnique(0 - v, Pow2(w), if v == 0 then 0 else -1, if v == 0 then 0 else Pow2(w) - v);
    OrTop(v, USub(w, 0, v), w);
    TopValue(Or(v, USub(w, 0, v)), w);
  }

  /**
   * The scalar test accepts exactly 1 .. n - 1 and the words from n + 2^(w - 1) up. The latter are
   * out of reach of every byte string that is loaded (8 KB < w - 1), where the test is 1 <= d < n.
   */
  lemma ScalarOkIff(f: Modulus, d: nat)
    requires f.w > 0 && d < Pow2(f.w) && 0 < f.m <= Pow2(f.w - 1)
    ensures ScalarOk(f, d) <==> 0 < d < f.m || d >= f.m + Pow2(f.w - 1)
  {
    hide And, Pow2, Mod, Div, Nonzero;
    var w := f.w;
    Pow2Succ(w);
    DivModUnique(d - f.m, Pow2(w), if d < f.m then -1 else 0, if d < f.m then d - f.m + Pow2(w) else d - f.m);
    TopValue(USub(w, d, f.m), w);
    NonzeroValue(f, d);
    AndBits();
  }

  lemma AndBits()
    ensures And(0, 0) == 0 && And(0, 1) == 0 && And(1, 0) == 0 && And(1, 1) == 1
  {}

  // ── Affine coordinates ────────────────────────────────────────────

  /** The affine coordinates are x/z and y/z, and ok says whether the point is finite. */
  lemma AffineValue(c: Curve, p: Point<nat>)
    requires CurveOk(c) && InPoint(c, p)
    ensures var a, v, zi := ToAffine(c, p), Vals(c, p), Val(c.p, Inv(c.p, p.z));
            && a.x == Mod(v.x * zi, c.p.m) && a.y == Mod(v.y * zi, c.p.m) && (a.ok <==> v.z != 0)
            && (v.z != 0 ==> Cong(v.z * zi, 1, c.p.m)) && (v.z == 0 ==> zi == 0)
  {
    hide Val, Mod, Div, Rendered, Prime, Inv, Mont, From, Nonzero, Pow2;
    CurveBounds(c);
    var f := c.p;
    InverseValue(f, p.z);
    var zi := Inv(f, p.z);
    FieldProduct(f, p.x, zi);
    FieldProduct(f, p.y, zi);
    LeaveValue(f, Mont(f, p.x, zi));
    LeaveValue(f, Mont(f, p.y, zi));
    StandsBelow(c, p);
    NonzeroValue(f, p.z);
    ZeroValue(f, p.z);
  }

  lemma ZeroValue(f: Modulus, a: nat)
    requires Rendered(f) && In(f, a)
    ensures Val(f, a) == 0 <==> a == 0
  {
    hide Val, Rendered;
    RenderedBounds(f);
    ValZero(f);
    if Val(f, a) == 0 { ValInjective(f, a, 0); }
  }

  /** Words standing for one point of the group have one pair of affine coordinates. */
  lemma AffineSame(c: Curve, on: Point<nat> -> bool, log: Point<nat> -> nat, p: Point<nat>, q: Point<nat>, k: int,
      l: int)
    requires CurveOk(c) && Group(c, on, log) && Stands(c, on, log, p, k) && Stands(c, on, log, q, l)
    requires Mod(k, c.n.m) == Mod(l, c.n.m)
    ensures ToAffine(c, p) == ToAffine(c, q) && (ToAffine(c, p).ok <==> Mod(k, c.n.m) != 0)
  {
    hide Val, Mod, Rendered, Prime, Inv, Group, ToAffine, CurveOk, Proportional;
    CurveBounds(c);
    AffineValue(c, p);
    AffineValue(c, q);
    GroupPair(c, on, log, Vals(c, p), Vals(c, q));
    var v, u := Vals(c, p), Vals(c, q);
    var zp, zq := Val(c.p, Inv(c.p, p.z)), Val(c.p, Inv(c.p, q.z));
    if v.z != 0 {
      ProportionalSame(c.p.m, v, u, zp, zq);
    } else {
      assert v.x * zp == 0 && u.x * zq == 0 && v.y * zp == 0 && u.y * zq == 0;
    }
  }

  lemma GroupPair(c: Curve, on: Point<nat> -> bool, log: Point<nat> -> nat, p: Point<nat>, q: Point<nat>)
    requires CurveOk(c) && Group(c, on, log) && on(p) && on(q) && log(p) == log(q)
    ensures Proportional(c.p.m, p, q) && (p.z == 0 <==> log(p) == 0) && (q.z == 0 <==> log(p) == 0)
    ensures OnCurve(c.p.m, Val(c.p, c.b), p)
  {
    hide Adds, Rendered, Prime, OnCurve;
  }

  lemma ProportionalSame(m: nat, p: Point<nat>, q: Point<nat>, zp: nat, zq: nat)
    requires m > 0 && Proportional(m, p, q) && Cong(p.z * zp, 1, m) && Cong(q.z * zq, 1, m)
    ensures Mod(p.x * zp, m) == Mod(q.x * zq, m) && Mod(p.y * zp, m) == Mod(q.y * zq, m)
  {
    hide Mod;
    Quotient(m, p.x, p.z, zp, q.x, q.z, zq);
    Quotient(m, p.y, p.z, zp, q.y, q.z, zq);
  }

  lemma Quotient(m: nat, x: nat, z: nat, zi: nat, x': nat, z': nat, zi': nat)
    requires m > 0 && Cong(x * z', x' * z, m) && Cong(z * zi, 1, m) && Cong(z' * zi', 1, m)
    ensures Cong(x * zi, x' * zi', m)
  {
    hide Mod;
    CongMul(x * z', x' * z, zi * zi', zi * zi', m);
    CongMul(x * zi, x * zi, z' * zi', 1, m);
    CongMul(x' * zi', x' * zi', z * zi, 1, m);
    QuotientIdentity(x, z', zi, zi');
    QuotientIdentity(x', z, zi', zi);
    assert zi * zi' == zi' * zi;
  }

  lemma QuotientIdentity(x: int, z: int, a: int, b: int)
    ensures x * z * (a * b) == x * a * (z * b)
  {}

  /** A finite point comes back from its affine coordinates. */
  lemma FromAffineStands(c: Curve, on: Point<nat> -> bool, log: Point<nat> -> nat, p: Point<nat>, k: int)
    requires CurveOk(c) && Group(c, on, log) && Stands(c, on, log, p, k) && ToAffine(c, p).ok
    ensures var a := ToAffine(c, p);
            a.x < c.p.m && a.y < c.p.m && Stands(c, on, log, FromAffine(c, a), k)
            && on(Point(a.x, a.y, 1)) && OnCurve(c.p.m, Val(c.p, c.b), Point(a.x, a.y, 1))
  {
    hide Val, Mod, Rendered, Prime, Inv, Group, ToAffine, CurveOk, Proportional, OnCurve, To;
    CurveBounds(c);
    AffineValue(c, p);
    var a, v, zi := ToAffine(c, p), Vals(c, p), Val(c.p, Inv(c.p, p.z));
    ScaleBack(c.p.m, zi, v, a.x, a.y);
    ValBound(c.p, Inv(c.p, p.z));
    GroupScale(c, on, log, v, zi);
    EnterValue(c.p, a.x);
    EnterValue(c.p, a.y);
    SmallMod(a.x, c.p.m);
    SmallMod(a.y, c.p.m);
    OneValue(c.p);
    assert Vals(c, FromAffine(c, a)) == Point(a.x, a.y, 1);
    GroupPair(c, on, log, Point(a.x, a.y, 1), Point(a.x, a.y, 1));
  }

  lemma SmallMod(x: nat, m: nat)
    requires x < m
    ensures Mod(x, m) == x
  {}

  lemma GroupScale(c: Curve, on: Point<nat> -> bool, log: Point<nat> -> nat, p: Point<nat>, s: nat)
    requires CurveOk(c) && Group(c, on, log) && on(p) && 0 < s < c.p.m
    ensures on(Scaled(c.p.m, s, p)) && log(Scaled(c.p.m, s, p)) == log(p)
  {
    hide Adds, Rendered, Prime, OnCurve, Scaled;
  }

  lemma ScaleBack(m: nat, zi: nat, v: Point<nat>, x: nat, y: nat)
    requires m > 1 && x == Mod(v.x * zi, m) && y == Mod(v.y * zi, m) && Cong(v.z * zi, 1, m)
    ensures Scaled(m, zi, v) == Point(x, y, 1) && zi > 0
  {
    hide Mod;
    assert zi * v.x == v.x * zi && zi * v.y == v.y * zi && zi * v.z == v.z * zi;
    ModOfCong(1, v.z * zi, m);
    if zi == 0 {
      assert v.z * zi == 0;
      CongSmall(0, 1, m);
    }
  }

  /** The curve test decides the curve equation for coordinates below p, and refuses all others. */
  lemma IsOnCurveIff(c: Curve, x: nat, y: nat)
    requires CurveOk(c)
    ensures IsOnCurve(c, x, y) <==>
              x < c.p.m && y < c.p.m && Cong(y * y, x * x * x - 3 * x + Val(c.p, c.b), c.p.m)
  {
    hide Val, Mod, Rendered, Prime, Mont, Rhs, To, Means;
    CurveBounds(c);
    var f := c.p;
    if x < f.m && y < f.m {
      EnterMeans(f, x);
      EnterMeans(f, y);
      RhsMeans(c, To(f, x), x);
      var l := Mont(f, To(f, y), To(f, y));
      MeansProduct(f, To(f, y), y, To(f, y), y);
      if Cong(y * y, x * x * x - 3 * x + Val(f, c.b), f.m) {
        MeansSame(f, l, y * y, Rhs(c, To(f, x)), x * x * x - 3 * x + Val(f, c.b));
      }
      if l == Rhs(c, To(f, x)) {
        MeansValue(f, l, y * y);
        MeansValue(f, l, x * x * x - 3 * x + Val(f, c.b));
      }
    }
  }

  lemma EnterMeans(f: Modulus, x: nat)
    requires Rendered(f) && x < f.m
    ensures Means(f, To(f, x), x)
  {
    hide Val, Mod, Rendered, To;
    RenderedBounds(f);
    EnterValue(f, x);
    CongMod(x, f.m);
  }

  lemma RhsMeans(c: Curve, xm: nat, x: int)
    requires Rendered(c.p) && In(c.p, c.b) && Means(c.p, xm, x)
    ensures Means(c.p, Rhs(c, xm), x * x * x - 3 * x + Val(c.p, c.b))
  {
    hide Val, Mod, Rendered, Means, Mont, Add, Sub;
    RenderedBounds(c.p);
    var f := c.p;
    MeansSelf(f, c.b);
    MeansProduct(f, xm, x, xm, x);
    MeansProduct(f, Mont(f, xm, xm), x * x, xm, x);
    MeansTriple(f, xm, x);
    MeansDifference(f, Mont(f, Mont(f, xm, xm), xm), x * x * x, Add(f, xm, Add(f, xm, xm)), 3 * x);
    MeansSum(f, Sub(f, Mont(f, Mont(f, xm, xm), xm), Add(f, xm, Add(f, xm, xm))), x * x * x - 3 * x, c.b, Val(f, c.b));
  }

  /** The affine equation is the projective one at z = 1. */
  lemma AffineEquation(m: nat, b: nat, x: nat, y: nat)
    requires m > 0
    ensures OnCurve(m, b, Point(x, y, 1)) <==> Cong(y * y, x * x * x - 3 * x + b, m)
  {
    assert y * y * 1 == y * y && x * 1 * 1 == x && b * (1 * 1 * 1) == b;
  }
}
