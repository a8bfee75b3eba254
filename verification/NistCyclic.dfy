/**
 * The complete formulas on words are the chord and tangent law, and from a curve that is a cyclic group
 * of order n under that law follow all the group laws the ladder, ECDH and ECDSA need.
 */
module NistCyclic {
  import opened Arith
  import opened NistAffine
  import opened NistChord
  import opened NistCurve
  import opened NistField
  import opened NistGroup
  import opened NistPoint
  import opened NistPower
  import opened NumberTheory

  // ── The formulas on words ─────────────────────────────────────────

  /** The chord law for the words of two affine points: X/Z = e^2/d^2 - x - x' and Y/Z = e/d (x - X/Z) - y. */
  lemma AddChord(c: Curve, p: Point<nat>, q: Point<nat>)
    requires CurveOk(c) && InPoint(c, p) && InPoint(c, q) && Vals(c, p).z == 1 && Vals(c, q).z == 1
    requires OnCurve(c.p.m, Val(c.p, c.b), Vals(c, p)) && OnCurve(c.p.m, Val(c.p, c.b), Vals(c, q))
    ensures Chord(c.p.m, Vals(c, p), Vals(c, q), Vals(c, AddPoint(c, p, q)))
  {
    hide Mod, Rendered, Prime, Val, AddPoint, Sum, OnCurve, OnCubic, Vals, Chord;
    CurveBounds(c);
    var b, u, v := Val(c.p, c.b), Vals(c, p), Vals(c, q);
    WordSum(c, p, q);
    AffineCubic(c.p.m, b, u.x, u.y);
    AffineCubic(c.p.m, b, v.x, v.y);
    ChordOf(c.p.m, b, u.x, u.y, v.x, v.y);
    ChordResidues(c.p.m, u, v, Sum(b, u, v), Vals(c, AddPoint(c, p, q)));
  }

  /**
   * s is where the chord through two affine points leads: X d^2 = Z (e^2 - (x + x') d^2) and
   * Y d = e (x Z - X) - y Z d.
   */
  ghost predicate Chord(m: nat, u: Point<int>, v: Point<int>, s: Point<int>)
    requires m > 0
  {
    var d, e := v.x - u.x, v.y - u.y;
    && Cong(s.x * (d * d), s.z * (e * e - (u.x + v.x) * (d * d)), m)
    && Cong(s.y * d, e * (u.x * s.z - s.x) - u.y * (s.z * d), m)
  }

  lemma ChordOf(m: nat, b: int, x: int, y: int, x': int, y': int)
    requires m > 0 && OnCubic(m, b, x, y) && OnCubic(m, b, x', y')
    ensures Chord(m, Point(x, y, 1), Point(x', y', 1), Sum(b, Point(x, y, 1), Point(x', y', 1)))
  {
    hide Mod, OnCubic, Sum;
    ChordLaw(m, b, x, y, x', y');
  }

  lemma ChordResidues(m: nat, u: Point<int>, v: Point<int>, t: Point<int>, s: Point<int>)
    requires m > 0 && CongPoint(m, s, t) && Chord(m, u, v, t)
    ensures Chord(m, u, v, s)
  {
    hide Mod;
    var d, e, w := v.x - u.x, v.y - u.y, u.x + v.x;
    CongMul(s.x, t.x, d * d, d * d, m);
    CongMul(s.z, t.z, e * e - w * (d * d), e * e - w * (d * d), m);
    ChordCong(m, s.x, t.x, s.y, t.y, s.z, t.z, d, e, u.x, u.y);
  }

  lemma WordSum(c: Curve, p: Point<nat>, q: Point<nat>)
    requires CurveOk(c) && InPoint(c, p) && InPoint(c, q)
    ensures var t, s := Sum(Val(c.p, c.b), Vals(c, p), Vals(c, q)), Vals(c, AddPoint(c, p, q));
            InPoint(c, AddPoint(c, p, q)) && s == ModPoint(c.p.m, t) && CongPoint(c.p.m, s, t)
  {
    hide Mod, Rendered, Prime, Val, AddPoint, Sum, MeansPoint, Means;
    MeansPointSelf(c, p);
    MeansPointSelf(c, q);
    CurveBounds(c);
    AddMeans(c, p, q, Vals(c, p), Vals(c, q), Val(c.p, c.b));
    var t := Sum(Val(c.p, c.b), Vals(c, p), Vals(c, q));
    MeansVals(c, AddPoint(c, p, q), t);
    CongMod(t.x, c.p.m);
    CongMod(t.y, c.p.m);
    CongMod(t.z, c.p.m);
  }

  lemma AffineCubic(m: nat, b: int, x: nat, y: nat)
    requires m > 0
    ensures OnCurve(m, b, Point(x, y, 1)) <==> OnCubic(m, b, x, y)
  {
    assert y * y * 1 == y * y && x * 1 * 1 == x && b * (1 * 1 * 1) == b;
  }

  /** Reduced words of a point of the curve. */
  ghost predicate OnWords(c: Curve, p: Point<nat>)
    requires CurveOk(c)
  {
    InPoint(c, p) && OnProj(c.p.m, Val(c.p, c.b), Vals(c, p))
  }

  ghost function WordPlace(c: Curve, p: Point<nat>): Place
    requires CurveOk(c)
  {
    PlaceOf(c.p.m, Vals(c, p))
  }

  /** Complete addition is chord and tangent, for every two points of a curve without points of order two. */
  lemma AddPlaces(c: Curve, p: Point<nat>, q: Point<nat>)
    requires CurveOk(c) && NoTwist(c.p.m, Val(c.p, c.b)) && OnWords(c, p) && OnWords(c, q)
    ensures OnWords(c, AddPoint(c, p, q))
    ensures ChordTangent(c.p.m, WordPlace(c, p), WordPlace(c, q), WordPlace(c, AddPoint(c, p, q)))
  {
    hide Mod, Rendered, Prime, Val, AddPoint, Sum, NoTwist, OnProj, Vals, ChordTangent;
    CurveBounds(c);
    WordSum(c, p, q);
    SumPlaces(c.p.m, Val(c.p, c.b), Vals(c, p), Vals(c, q));
  }

  lemma SumPlaces(m: nat, b: int, p: Point<nat>, q: Point<nat>)
    requires Prime(m) && m > 2 && NoTwist(m, b) && OnProj(m, b, p) && OnProj(m, b, q)
    ensures var s := ModPoint(m, Sum(b, p, q));
            OnProj(m, b, s) && ChordTangent(m, PlaceOf(m, p), PlaceOf(m, q), PlaceOf(m, s))
  {
    hide Mod, Prime, Sum, NoTwist, OnProj, ChordTangent, PlaceOf, Divides, Placed, Lift;
    var s := PlaceShown(m, b, p);
    var t := PlaceShown(m, b, q);
    var r, k := ShownSum(m, b, p, s, PlaceOf(m, p), q, t, PlaceOf(m, q));
    var z := Sum(b, p, q);
    CongMod(z.x, m);
    CongMod(z.y, m);
    CongMod(z.z, m);
    ShownPlace(m, b, ModPoint(m, z), k, r);
  }

  /** Doubling is the tangent. */
  lemma DoublePlaces(c: Curve, p: Point<nat>)
    requires CurveOk(c) && NoTwist(c.p.m, Val(c.p, c.b)) && OnWords(c, p)
    ensures OnWords(c, DoublePoint(c, p))
    ensures ChordTangent(c.p.m, WordPlace(c, p), WordPlace(c, p), WordPlace(c, DoublePoint(c, p)))
  {
    hide Mod, Rendered, Prime, Val, AddPoint, DoublePoint, NoTwist, ChordTangent, PlaceOf;
    CurveBounds(c);
    DoubleIsSum(c, p);
    AddPlaces(c, p, p);
  }

  // ── A cyclic group under chord and tangent ────────────────────────

  ghost function Base(c: Curve): Place
    requires c.p.m > 0
  {
    At(Val(c.p, c.gx), Val(c.p, c.gy))
  }

  /**
   * The one hypothesis about the curve: under chord and tangent its points are a cyclic group of order n
   * generated by the base point, log being the isomorphism to the integers modulo n.
   */
  ghost predicate Cyclic(c: Curve, log: Place -> nat)
    requires CurveOk(c)
  {
    var m, b, n := c.p.m, Val(c.p, c.b), c.n.m;
    && (forall p :: Placed(m, b, p) ==> log(p) < n)
    && (forall p, q, r :: Placed(m, b, p) && Placed(m, b, q) && ChordTangent(m, p, q, r) ==>
          log(r) == Mod(log(p) + log(q), n))
    && (forall p, q :: Placed(m, b, p) && Placed(m, b, q) && log(p) == log(q) ==> p == q)
    && Placed(m, b, Base(c)) && log(Base(c)) == 1
  }

  ghost function OnOf(c: Curve): Point<nat> -> bool
    requires CurveOk(c)
  {
    p => OnProj(c.p.m, Val(c.p, c.b), p)
  }

  ghost function LogOf(c: Curve, log: Place -> nat): Point<nat> -> nat
    requires CurveOk(c)
  {
    p => log(PlaceOf(c.p.m, p))
  }

  lemma LogSum(c: Curve, log: Place -> nat, p: Place, q: Place, r: Place)
    requires CurveOk(c) && Cyclic(c, log) && Placed(c.p.m, Val(c.p, c.b), p) && Placed(c.p.m, Val(c.p, c.b), q)
    requires ChordTangent(c.p.m, p, q, r)
    ensures log(r) == Mod(log(p) + log(q), c.n.m) && log(p) < c.n.m && log(q) < c.n.m
  {
    hide Mod, Rendered, Prime, Val, ChordTangent, Placed;
  }

  lemma LogSame(c: Curve, log: Place -> nat, p: Place, q: Place)
    requires CurveOk(c) && Cyclic(c, log) && Placed(c.p.m, Val(c.p, c.b), p) && Placed(c.p.m, Val(c.p, c.b), q)
    requires log(p) == log(q)
    ensures p == q
  {
    hide Mod, Rendered, Prime, Val, ChordTangent, Placed;
  }

  lemma OriginLog(c: Curve, log: Place -> nat)
    requires CurveOk(c) && Cyclic(c, log)
    ensures log(Origin) == 0
  {
    hide Rendered, Prime, Val, Cyclic, Mod;
    CurveBounds(c);
    LogSum(c, log, Origin, Origin, Origin);
    Halved(log(Origin), c.n.m);
  }

  lemma Halved(a: nat, n: nat)
    requires a < n && a == Mod(a + a, n)
    ensures a == 0
  {
    DivMod(a + a, n);
    hide Mod;
    if a + a < n { SmallMod(a + a, n); } else { DivModUnique(a + a, n, 1, a + a - n); }
  }

  /** The order is odd, so no point is its own opposite. */
  lemma CyclicNoTwist(c: Curve, log: Place -> nat)
    requires CurveOk(c) && Cyclic(c, log)
    ensures c.p.m > 0 && NoTwist(c.p.m, Val(c.p, c.b))
  {
    hide Rendered, Prime, Val, Cyclic, Mod, Placed, ChordTangent;
    CurveBounds(c);
    OriginLog(c, log);
    forall p: Place | Placed(c.p.m, Val(c.p, c.b), p) && p.At? ensures p.y != 0 {
      if p.y == 0 { OddOrder(c, log, p); }
    }
  }

  lemma OddOrder(c: Curve, log: Place -> nat, p: Place)
    requires CurveOk(c) && Cyclic(c, log) && log(Origin) == 0 && Placed(c.p.m, Val(c.p, c.b), p) && p.At?
    ensures p.y != 0
  {
    hide Rendered, Prime, Val, Cyclic, Mod;
    CurveBounds(c);
    if p.y == 0 {
      assert Cong(p.y + p.y, 0, c.p.m);
      LogSum(c, log, p, p, Origin);
      TwiceZero(log(p), c.n.m);
      LogSame(c, log, p, Origin);
    }
  }

  lemma TwiceZero(a: nat, n: nat)
    requires Prime(n) && n > 2 && a < n && Mod(a + a, n) == 0
    ensures a == 0
  {
    hide Mod, Prime;
    ModZero(n);
    assert 2 * a == a + a;
    if a > 0 {
      SmallUnit(n, 2);
      SmallUnit(n, a);
      UnitProduct(n, 2, a);
    }
  }

  // ── The group laws follow ─────────────────────────────────────────

  lemma CyclicAdds(c: Curve, log: Place -> nat, p: Point<nat>, q: Point<nat>)
    requires CurveOk(c) && Cyclic(c, log) && OnOf(c)(p) && OnOf(c)(q)
    ensures Adds(c, OnOf(c), LogOf(c, log), p, q)
  {
    hide Rendered, Prime, Val, Cyclic, Mod, Sum, OnProj, ChordTangent, PlaceOf, Placed, NoTwist;
    CurveBounds(c);
    CyclicNoTwist(c, log);
    var m, b := c.p.m, Val(c.p, c.b);
    SumPlaces(m, b, p, q);
    var s := PlaceShown(m, b, p);
    var t := PlaceShown(m, b, q);
    LogSum(c, log, PlaceOf(m, p), PlaceOf(m, q), PlaceOf(m, ModPoint(m, Sum(b, p, q))));
  }

  lemma CyclicScales(c: Curve, p: Point<nat>, s: nat)
    requires CurveOk(c) && OnOf(c)(p) && 0 < s < c.p.m
    ensures OnOf(c)(Scaled(c.p.m, s, p)) && PlaceOf(c.p.m, Scaled(c.p.m, s, p)) == PlaceOf(c.p.m, p)
  {
    hide Rendered, Prime, Val, Mod, OnProj, PlaceOf, Placed, Divides, Lift;
    CurveBounds(c);
    var m := c.p.m;
    var t := PlaceShown(m, Val(c.p, c.b), p);
    var l := Lift(PlaceOf(m, p));
    SmallUnit(m, s);
    UnitProduct(m, s, t);
    ShowsTimes(m, s, p.x, t, l.x);
    ShowsTimes(m, s, p.y, t, l.y);
    ShowsTimes(m, s, p.z, t, l.z);
    CongMod(s * p.x, m);
    CongMod(s * p.y, m);
    CongMod(s * p.z, m);
    ShownPlace(m, Val(c.p, c.b), Scaled(m, s, p), s * t, PlaceOf(m, p));
  }

  lemma CyclicSame(c: Curve, log: Place -> nat, p: Point<nat>, q: Point<nat>)
    requires CurveOk(c) && Cyclic(c, log) && OnOf(c)(p) && OnOf(c)(q) && LogOf(c, log)(p) == LogOf(c, log)(q)
    ensures Proportional(c.p.m, p, q)
  {
    hide Rendered, Prime, Val, Cyclic, Mod, OnProj, PlaceOf, Placed, Lift;
    CurveBounds(c);
    var m := c.p.m;
    var s := PlaceShown(m, Val(c.p, c.b), p);
    var t := PlaceShown(m, Val(c.p, c.b), q);
    LogSame(c, log, PlaceOf(m, p), PlaceOf(m, q));
    var l := Lift(PlaceOf(m, p));
    CrossShown(m, p.x, q.z, q.x, p.z, s, t, l.x, l.z);
    CrossShown(m, p.y, q.z, q.y, p.z, s, t, l.y, l.z);
  }

  lemma CrossShown(m: nat, a: int, d: int, c: int, b: int, s: int, t: int, x: int, z: int)
    requires m > 0 && Cong(a, s * x, m) && Cong(b, s * z, m) && Cong(c, t * x, m) && Cong(d, t * z, m)
    ensures Cong(a * d, c * b, m)
  {
    hide Mod;
    CongMul(a, s * x, d, t * z, m);
    CongMul(c, t * x, b, s * z, m);
    OneTimes(s, x, t, z);
    OneTimes(t, x, s, z);
    assert s * t == t * s;
  }

  lemma CyclicOrigin(c: Curve, log: Place -> nat, p: Point<nat>)
    requires CurveOk(c) && Cyclic(c, log) && OnOf(c)(p)
    ensures p.z == 0 <==> LogOf(c, log)(p) == 0
    ensures InPoint(c, p) && LogOf(c, log)(p) < c.n.m && OnCurve(c.p.m, Val(c.p, c.b), p)
  {
    hide Rendered, Prime, Val, Cyclic, Mod, Placed, ChordTangent;
    CurveBounds(c);
    OriginLog(c, log);
    var s := PlaceShown(c.p.m, Val(c.p, c.b), p);
    LogBelow(c, log, PlaceOf(c.p.m, p));
    OriginPlaced(c.p.m, Val(c.p, c.b));
    if LogOf(c, log)(p) == 0 { LogSame(c, log, PlaceOf(c.p.m, p), Origin); }
  }

  lemma LogBelow(c: Curve, log: Place -> nat, p: Place)
    requires CurveOk(c) && Cyclic(c, log) && Placed(c.p.m, Val(c.p, c.b), p)
    ensures log(p) < c.n.m
  {
    hide Mod, Rendered, Prime, Val, ChordTangent, Placed;
  }

  lemma CyclicBase(c: Curve, log: Place -> nat)
    requires CurveOk(c) && Cyclic(c, log)
    ensures OnOf(c)(Vals(c, Generator(c))) && LogOf(c, log)(Vals(c, Generator(c))) == 1
    ensures OnOf(c)(Point(0, 1, 0)) && LogOf(c, log)(Point(0, 1, 0)) == 0
  {
    hide Rendered, Prime, Val, Mod, Placed, ChordTangent, OnProj, PlaceOf, Divides, OnCurve, OnCubic;
    CurveBounds(c);
    OriginLog(c, log);
    OneValue(c.p);
    var m, b, g := c.p.m, Val(c.p, c.b), Vals(c, Generator(c));
    SmallUnit(m, 1);
    BaseShown(c);
    assert Placed(m, b, Origin) by { OriginPlaced(m, b); }
    ShownPlace(m, b, g, 1, Base(c));
    ShownPlace(m, b, Point(0, 1, 0), 1, Origin);
  }

  lemma OriginPlaced(m: nat, b: int)
    requires m > 0
    ensures Placed(m, b, Origin)
  {}

  lemma BaseShown(c: Curve)
    requires CurveOk(c)
    ensures var g := Vals(c, Generator(c));
            Shows(c.p.m, g, 1, Base(c)) && g.x < c.p.m && g.y < c.p.m && g.z < c.p.m
  {
    hide Rendered, Prime, Val, Mod;
    CurveBounds(c);
    OneValue(c.p);
    ValBound(c.p, c.gx);
    ValBound(c.p, c.gy);
  }

  /** All the group laws the ladder needs follow from the textbook's. */
  lemma CurveGroup(c: Curve, log: Place -> nat)
    requires CurveOk(c) && Cyclic(c, log)
    ensures Group(c, OnOf(c), LogOf(c, log))
  {
    hide Rendered, Prime, Val, Cyclic, Mod, Adds, Proportional, OnProj, Scaled, Vals, OnCurve, PlaceOf, InPoint;
    var on, lg := OnOf(c), LogOf(c, log);
    forall p | on(p)
      ensures InPoint(c, p) && lg(p) < c.n.m && OnCurve(c.p.m, Val(c.p, c.b), p) && (p.z == 0 <==> lg(p) == 0)
    {
      CyclicOrigin(c, log, p);
    }
    forall p, q | on(p) && on(q) ensures Adds(c, on, lg, p, q) { CyclicAdds(c, log, p, q); }
    forall p, s: nat | on(p) && 0 < s < c.p.m
      ensures on(Scaled(c.p.m, s, p)) && lg(Scaled(c.p.m, s, p)) == lg(p)
    {
      CyclicScales(c, p, s);
    }
    forall p, q | on(p) && on(q) && lg(p) == lg(q) ensures Proportional(c.p.m, p, q) { CyclicSame(c, log, p, q); }
    CyclicBase(c, log);
  }

  /** The affine form of k times the base point is the curve's point of logarithm k. */
  lemma MulPlace(c: Curve, log: Place -> nat, k: nat)
    requires CurveOk(c) && Cyclic(c, log) && k < Pow2(c.p.k)
    ensures c.p.k > 0 && c.p.m >= 2 && c.p.w > 0
    ensures var a := ToAffine(c, MulPoint(c, k, Generator(c)));
            && (a.ok <==> Mod(k, c.n.m) != 0)
            && (a.ok ==> Placed(c.p.m, Val(c.p, c.b), At(a.x, a.y)) && log(At(a.x, a.y)) == Mod(k, c.n.m))
  {
    hide *;
    CurveBounds(c);
    CurveGroup(c, log);
    var on, lg := OnOf(c), LogOf(c, log);
    GeneratorStands(c, on, lg);
    MulStands(c, on, lg, k, Generator(c), 1);
    var p := MulPoint(c, k, Generator(c));
    assert k * 1 == k;
    AffineSame(c, on, lg, p, p, k, k);
    if ToAffine(c, p).ok {
      FromAffineStands(c, on, lg, p, k);
      StandsPlace(c, log, ToAffine(c, p), k);
    }
  }

  lemma StandsPlace(c: Curve, log: Place -> nat, a: Affine, k: int)
    requires CurveOk(c) && Stands(c, OnOf(c), LogOf(c, log), FromAffine(c, a), k) && a.x < c.p.m && a.y < c.p.m
    requires OnCurve(c.p.m, Val(c.p, c.b), Point(a.x, a.y, 1))
    ensures Placed(c.p.m, Val(c.p, c.b), At(a.x, a.y)) && log(At(a.x, a.y)) == Mod(k, c.n.m)
  {
    hide Rendered, Prime, Val, Mod, To, PlaceOf, Divides, OnCubic, OnProj, OnCurve;
    CurveBounds(c);
    AffineCubic(c.p.m, Val(c.p, c.b), a.x, a.y);
    EnterValue(c.p, a.x);
    EnterValue(c.p, a.y);
    SmallMod(a.x, c.p.m);
    SmallMod(a.y, c.p.m);
    OneValue(c.p);
    SmallUnit(c.p.m, 1);
    ShownPlace(c.p.m, Val(c.p, c.b), Point(a.x, a.y, 1), 1, At(a.x, a.y));
    assert Vals(c, FromAffine(c, a)) == Point(a.x, a.y, 1);
  }
}
