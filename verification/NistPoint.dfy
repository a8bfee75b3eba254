/** Points of the NIST curves: complete projective formulas for a = -3 and the double-and-add-always ladder. */
module NistPoint {
  import opened Arith
  import opened NistField
  import opened NistPower
  import opened NumberTheory
  import opened Words

  /** A projective point, or a triple of residues or integers standing for one. */
  datatype Point<+T> = Point(x: T, y: T, z: T)

  /** The field, the group order, and b and the base point in Montgomery form. */
  datatype Curve = Curve(p: Modulus, n: Modulus, b: nat, gx: nat, gy: nat)

  ghost predicate CurveOk(c: Curve)
  {
    && Rendered(c.p) && Rendered(c.n) && c.n.k == c.p.k && c.n.w == c.p.w && Pow2(c.n.k) < 2 * c.n.m
    && In(c.p, c.b) && In(c.p, c.gx) && In(c.p, c.gy)
    && Prime(c.p.m) && c.p.m % 4 == 3 && Prime(c.n.m)
  }

  function Infinity(c: Curve): Point<nat> { Point(0, c.p.one, 0) }

  function Generator(c: Curve): Point<nat> { Point(c.gx, c.gy, c.p.one) }

  /** Complete addition. */
  function AddPoint(c: Curve, p: Point<nat>, q: Point<nat>): Point<nat>
  {
    var f := c.p;
    var t0 := Mont(f, p.x, q.x);
    var t1 := Mont(f, p.y, q.y);
    var t2 := Mont(f, p.z, q.z);
    var t3 := Sub(f, Mont(f, Add(f, p.x, p.y), Add(f, q.x, q.y)), Add(f, t0, t1));
    var t4 := Sub(f, Mont(f, Add(f, p.y, p.z), Add(f, q.y, q.z)), Add(f, t1, t2));
    var y3a := Sub(f, Mont(f, Add(f, p.x, p.z), Add(f, q.x, q.z)), Add(f, t0, t2));
    var x3b := Sub(f, y3a, Mont(f, c.b, t2));
    var x3c := Add(f, x3b, Add(f, x3b, x3b));
    var z3a := Sub(f, t1, x3c);
    var x3d := Add(f, t1, x3c);
    var t2b := Add(f, t2, Add(f, t2, t2));
    var y3b := Sub(f, Sub(f, Mont(f, c.b, y3a), t2b), t0);
    var y3c := Add(f, y3b, Add(f, y3b, y3b));
    var t0b := Sub(f, Add(f, t0, Add(f, t0, t0)), t2b);
    Point(Sub(f, Mont(f, t3, x3d), Mont(f, t4, y3c)),
          Add(f, Mont(f, x3d, z3a), Mont(f, t0b, y3c)),
          Add(f, Mont(f, t4, z3a), Mont(f, t3, t0b)))
  }

  /** Doubling. */
  function DoublePoint(c: Curve, p: Point<nat>): Point<nat>
  {
    var f := c.p;
    var t0 := Mont(f, p.x, p.x);
    var t1 := Mont(f, p.y, p.y);
    var t2 := Mont(f, p.z, p.z);
    var t3a := Mont(f, p.x, p.y);
    var t3 := Add(f, t3a, t3a);
    var z3a := Mont(f, p.x, p.z);
    var z3b := Add(f, z3a, z3a);
    var y3a := Sub(f, Mont(f, c.b, t2), z3b);
    var y3b := Add(f, y3a, Add(f, y3a, y3a));
    var x3a := Sub(f, t1, y3b);
    var y3c := Mont(f, x3a, Add(f, t1, y3b));
    var x3b := Mont(f, x3a, t3);
    var t2b := Add(f, t2, Add(f, t2, t2));
    var z3c := Sub(f, Sub(f, Mont(f, c.b, z3b), t2b), t0);
    var z3d := Add(f, z3c, Add(f, z3c, z3c));
    var t0b := Sub(f, Add(f, t0, Add(f, t0, t0)), t2b);
    var y3 := Add(f, y3c, Mont(f, t0b, z3d));
    var t0c := Mont(f, p.y, p.z);
    var t0d := Add(f, t0c, t0c);
    var x3 := Sub(f, x3b, Mont(f, t0d, z3d));
    var z3e := Mont(f, t0d, t1);
    var z3f := Add(f, z3e, z3e);
    Point(x3, y3, Add(f, z3f, z3f))
  }

  function SelectPoint(c: Curve, mask: nat, a: Point<nat>, b: Point<nat>): Point<nat>
  {
    Point(Blend(c.p, mask, a.x, b.x), Blend(c.p, mask, a.y, b.y), Blend(c.p, mask, a.z, b.z))
  }

  /** Double and always add, along the low n bits of k from bit n - 1 down. */
  function Ladder(c: Curve, k: nat, n: nat, r: Point<nat>, p: Point<nat>): Point<nat>
    decreases n
  {
    if n == 0 then r
    else
      var d := DoublePoint(c, r);
      Ladder(c, k, n - 1, SelectPoint(c, Mask(c.p, Shr(k, n - 1)), AddPoint(c, d, p), d), p)
  }

  function MulPoint(c: Curve, k: nat, p: Point<nat>): Point<nat> { Ladder(c, k, c.p.k, Infinity(c), p) }

  // ── What the formulas compute ─────────────────────────────────────

  predicate InPoint(c: Curve, p: Point<nat>) { In(c.p, p.x) && In(c.p, p.y) && In(c.p, p.z) }

  /** The residues of a point's coordinates. */
  function Vals(c: Curve, p: Point<nat>): Point<nat>
    requires c.p.m > 0
  {
    Point(Val(c.p, p.x), Val(c.p, p.y), Val(c.p, p.z))
  }

  function ModPoint(m: nat, p: Point<int>): Point<nat>
    requires m > 0
  {
    Point(Mod(p.x, m), Mod(p.y, m), Mod(p.z, m))
  }

  /** The complete sum over the integers, from the symmetric products of the coordinates. */
  function Sum(b: int, p: Point<int>, q: Point<int>): Point<int>
  {
    SumOf(p.x * q.y + q.x * p.y, p.y * q.z + q.y * p.z, p.y * q.y,
          p.x * q.z + q.x * p.z - b * (p.z * q.z),
          b * (p.x * q.z + q.x * p.z) - 3 * (p.z * q.z) - p.x * q.x,
          p.x * q.x - p.z * q.z)
  }

  function SumOf(xy: int, yz: int, yy: int, u: int, v: int, w: int): Point<int>
  {
    Point(xy * (yy + 3 * u) - yz * (3 * v),
          (yy + 3 * u) * (yy - 3 * u) + 3 * w * (3 * v),
          yz * (yy - 3 * u) + xy * (3 * w))
  }

  /** y^2 z = x^3 - 3 x z^2 + b z^3 modulo m. */
  ghost predicate OnCurve(m: nat, b: int, p: Point<int>)
    requires m > 0
  {
    Cong(p.y * p.y * p.z, p.x * p.x * p.x - 3 * (p.x * p.z * p.z) + b * (p.z * p.z * p.z), m)
  }

  /** a is reduced and stands for the residue of x. */
  ghost predicate Means(f: Modulus, a: nat, x: int)
    requires f.m > 0
  {
    In(f, a) && Cong(Val(f, a), x, f.m)
  }

  lemma MeansSum(f: Modulus, a: nat, x: int, b: nat, y: int)
    requires Rendered(f) && Means(f, a, x) && Means(f, b, y)
    ensures Means(f, Add(f, a, b), x + y)
  {
    hide Mod, Val, Rendered, Add;
    RenderedBounds(f);
    FieldSum(f, a, b);
    CongAdd(Val(f, a), x, Val(f, b), y, f.m);
    CongMod(Val(f, a) + Val(f, b), f.m);
  }

  lemma MeansTriple(f: Modulus, a: nat, x: int)
    requires Rendered(f) && Means(f, a, x)
    ensures Means(f, Add(f, a, Add(f, a, a)), 3 * x)
  {
    hide *;
    MeansSum(f, a, x, a, x);
    MeansSum(f, a, x, Add(f, a, a), x + x);
  }

  lemma MeansDifference(f: Modulus, a: nat, x: int, b: nat, y: int)
    requires Rendered(f) && Means(f, a, x) && Means(f, b, y)
    ensures Means(f, Sub(f, a, b), x - y)
  {
    hide Mod, Val, Rendered, Sub;
    RenderedBounds(f);
    FieldDifference(f, a, b);
    CongAdd(Val(f, a), x, Val(f, b), y, f.m);
    CongMod(Val(f, a) - Val(f, b), f.m);
  }

  lemma MeansProduct(f: Modulus, a: nat, x: int, b: nat, y: int)
    requires Rendered(f) && Means(f, a, x) && Means(f, b, y)
    ensures Means(f, Mont(f, a, b), x * y)
  {
    hide Mod, Val, Rendered, Mont;
    RenderedBounds(f);
    FieldProduct(f, a, b);
    CongMul(Val(f, a), x, Val(f, b), y, f.m);
    CongMod(Val(f, a) * Val(f, b), f.m);
  }

  lemma MeansSelf(f: Modulus, a: nat)
    requires f.m > 0 && In(f, a)
    ensures Means(f, a, Val(f, a))
  {}

  lemma MeansValue(f: Modulus, a: nat, x: int)
    requires f.m > 0 && Means(f, a, x)
    ensures In(f, a) && Val(f, a) == Mod(x, f.m)
  {
    hide Mod, Ri;
    ValBound(f, a);
    ModOfCong(Val(f, a), x, f.m);
  }

  /** Cross products from products of sums. */
  lemma CrossTerms(a: int, b: int, c: int, d: int)
    ensures (a + b) * (c + d) - (a * c + b * d) == a * d + c * b
  {}

  lemma MeansCross(f: Modulus, a: nat, x: int, b: nat, y: int, a': nat, x': int, b': nat, y': int)
    requires Rendered(f) && Means(f, a, x) && Means(f, b, y) && Means(f, a', x') && Means(f, b', y')
    ensures Means(f, Sub(f, Mont(f, Add(f, a, b), Add(f, a', b')), Add(f, Mont(f, a, a'), Mont(f, b, b'))),
                  x * y' + x' * y)
  {
    hide *;
    MeansSum(f, a, x, b, y);
    MeansSum(f, a', x', b', y');
    MeansProduct(f, Add(f, a, b), x + y, Add(f, a', b'), x' + y');
    MeansProduct(f, a, x, a', x');
    MeansProduct(f, b, y, b', y');
    MeansSum(f, Mont(f, a, a'), x * x', Mont(f, b, b'), y * y');
    MeansDifference(f, Mont(f, Add(f, a, b), Add(f, a', b')), (x + y) * (x' + y'),
                    Add(f, Mont(f, a, a'), Mont(f, b, b')), x * x' + y * y');
    CrossTerms(x, y, x', y');
  }

  /** Points that are reduced and stand for the residues of x, y, z. */
  ghost predicate MeansPoint(c: Curve, p: Point<nat>, q: Point<int>)
    requires c.p.m > 0
  {
    Means(c.p, p.x, q.x) && Means(c.p, p.y, q.y) && Means(c.p, p.z, q.z)
  }

  /** The last steps of addition, from their inputs' meanings. */
  lemma MeansFinish(f: Modulus, t3: nat, xy: int, t4: nat, yz: int, t1: nat, yy: int, x3b: nat, u: int,
                    y3b: nat, v: int, t0b: nat, w3: int)
    requires Rendered(f) && Means(f, t3, xy) && Means(f, t4, yz) && Means(f, t1, yy)
    requires Means(f, x3b, u) && Means(f, y3b, v) && Means(f, t0b, w3)
    ensures var x3c := Add(f, x3b, Add(f, x3b, x3b)); var y3c := Add(f, y3b, Add(f, y3b, y3b));
            var x3d, z3a := Add(f, t1, x3c), Sub(f, t1, x3c);
            && Means(f, Sub(f, Mont(f, t3, x3d), Mont(f, t4, y3c)), xy * (yy + 3 * u) - yz * (3 * v))
            && Means(f, Add(f, Mont(f, x3d, z3a), Mont(f, t0b, y3c)), (yy + 3 * u) * (yy - 3 * u) + w3 * (3 * v))
            && Means(f, Add(f, Mont(f, t4, z3a), Mont(f, t3, t0b)), yz * (yy - 3 * u) + xy * w3)
  {
    hide *;
    var x3c := Add(f, x3b, Add(f, x3b, x3b));
    var y3c := Add(f, y3b, Add(f, y3b, y3b));
    MeansTriple(f, x3b, u);
    MeansTriple(f, y3b, v);
    var x3d, z3a := Add(f, t1, x3c), Sub(f, t1, x3c);
    MeansSum(f, t1, yy, x3c, 3 * u);
    MeansDifference(f, t1, yy, x3c, 3 * u);
    MeansProduct(f, t3, xy, x3d, yy + 3 * u);
    MeansProduct(f, t4, yz, y3c, 3 * v);
    MeansDifference(f, Mont(f, t3, x3d), xy * (yy + 3 * u), Mont(f, t4, y3c), yz * (3 * v));
    MeansProduct(f, x3d, yy + 3 * u, z3a, yy - 3 * u);
    MeansProduct(f, t0b, w3, y3c, 3 * v);
    MeansSum(f, Mont(f, x3d, z3a), (yy + 3 * u) * (yy - 3 * u), Mont(f, t0b, y3c), w3 * (3 * v));
    MeansProduct(f, t4, yz, z3a, yy - 3 * u);
    MeansProduct(f, t3, xy, t0b, w3);
    MeansSum(f, Mont(f, t4, z3a), yz * (yy - 3 * u), Mont(f, t3, t0b), xy * w3);
  }

  /** Addition on words is the complete sum on residues. */
  lemma AddMeans(c: Curve, p: Point<nat>, q: Point<nat>, x: Point<int>, y: Point<int>, b: int)
    requires Rendered(c.p) && MeansPoint(c, p, x) && MeansPoint(c, q, y) && Means(c.p, c.b, b)
    ensures MeansPoint(c, AddPoint(c, p, q), Sum(b, x, y))
  {
    hide Mod, Rendered, Means, Mont, Add, Sub;
    var f := c.p;
    var t0, t1, t2 := Mont(f, p.x, q.x), Mont(f, p.y, q.y), Mont(f, p.z, q.z);
    MeansProduct(f, p.x, x.x, q.x, y.x);
    MeansProduct(f, p.y, x.y, q.y, y.y);
    MeansProduct(f, p.z, x.z, q.z, y.z);
    MeansCross(f, p.x, x.x, p.y, x.y, q.x, y.x, q.y, y.y);
    MeansCross(f, p.y, x.y, p.z, x.z, q.y, y.y, q.z, y.z);
    MeansCross(f, p.x, x.x, p.z, x.z, q.x, y.x, q.z, y.z);
    var y3a := Sub(f, Mont(f, Add(f, p.x, p.z), Add(f, q.x, q.z)), Add(f, t0, t2));
    var xz, xx, zz := x.x * y.z + y.x * x.z, x.x * y.x, x.z * y.z;
    MeansMiddle(f, t0, xx, t2, zz, y3a, xz, c.b, b);
    MeansFinish(f, Sub(f, Mont(f, Add(f, p.x, p.y), Add(f, q.x, q.y)), Add(f, t0, t1)), x.x * y.y + y.x * x.y,
                Sub(f, Mont(f, Add(f, p.y, p.z), Add(f, q.y, q.z)), Add(f, t1, t2)), x.y * y.z + y.y * x.z,
                t1, x.y * y.y, Sub(f, y3a, Mont(f, c.b, t2)), xz - b * zz,
                Sub(f, Sub(f, Mont(f, c.b, y3a), Add(f, t2, Add(f, t2, t2))), t0), b * xz - 3 * zz - xx,
                Sub(f, Add(f, t0, Add(f, t0, t0)), Add(f, t2, Add(f, t2, t2))), 3 * (xx - zz));
  }

  lemma MeansMiddle(f: Modulus, t0: nat, xx: int, t2: nat, zz: int, y3a: nat, xz: int, bm: nat, b: int)
    requires Rendered(f) && Means(f, t0, xx) && Means(f, t2, zz) && Means(f, y3a, xz) && Means(f, bm, b)
    ensures Means(f, Sub(f, y3a, Mont(f, bm, t2)), xz - b * zz)
    ensures Means(f, Sub(f, Sub(f, Mont(f, bm, y3a), Add(f, t2, Add(f, t2, t2))), t0), b * xz - 3 * zz - xx)
    ensures Means(f, Sub(f, Add(f, t0, Add(f, t0, t0)), Add(f, t2, Add(f, t2, t2))), 3 * (xx - zz))
  {
    hide *;
    MeansProduct(f, bm, b, t2, zz);
    MeansDifference(f, y3a, xz, Mont(f, bm, t2), b * zz);
    MeansTriple(f, t2, zz);
    MeansTriple(f, t0, xx);
    MeansProduct(f, bm, b, y3a, xz);
    MeansDifference(f, Mont(f, bm, y3a), b * xz, Add(f, t2, Add(f, t2, t2)), 3 * zz);
    MeansDifference(f, Sub(f, Mont(f, bm, y3a), Add(f, t2, Add(f, t2, t2))), b * xz - 3 * zz, t0, xx);
    MeansDifference(f, Add(f, t0, Add(f, t0, t0)), 3 * xx, Add(f, t2, Add(f, t2, t2)), 3 * zz);
  }

  /** The doubling formula over the integers. */
  function Twice(b: int, p: Point<int>): Point<int>
  {
    var u := b * (p.z * p.z) - 2 * (p.x * p.z);
    var v := b * (2 * (p.x * p.z)) - 3 * (p.z * p.z) - p.x * p.x;
    var yy := p.y * p.y;
    Point((yy - 3 * u) * (2 * (p.x * p.y)) - 2 * (p.y * p.z) * (3 * v),
          (yy - 3 * u) * (yy + 3 * u) + 3 * (p.x * p.x - p.z * p.z) * (3 * v),
          4 * (2 * (p.y * p.z) * yy))
  }

  lemma MeansDouble(f: Modulus, a: nat, x: int)
    requires Rendered(f) && Means(f, a, x)
    ensures Means(f, Add(f, a, a), 2 * x)
  {
    hide *;
    MeansSum(f, a, x, a, x);
  }

  /** Doubling on words is the doubling formula on residues. */
  lemma DoubleMeans(c: Curve, p: Point<nat>, x: Point<int>, b: int)
    requires Rendered(c.p) && MeansPoint(c, p, x) && Means(c.p, c.b, b)
    ensures MeansPoint(c, DoublePoint(c, p), Twice(b, x))
  {
    hide Mod, Rendered, Means, Mont, Add, Sub;
    var f := c.p;
    var xx, yy, zz, xy, xz, yz := x.x * x.x, x.y * x.y, x.z * x.z, x.x * x.y, x.x * x.z, x.y * x.z;
    var t0, t1, t2 := Mont(f, p.x, p.x), Mont(f, p.y, p.y), Mont(f, p.z, p.z);
    MeansProduct(f, p.x, x.x, p.x, x.x);
    MeansProduct(f, p.y, x.y, p.y, x.y);
    MeansProduct(f, p.z, x.z, p.z, x.z);
    MeansProduct(f, p.x, x.x, p.y, x.y);
    MeansProduct(f, p.x, x.x, p.z, x.z);
    MeansProduct(f, p.y, x.y, p.z, x.z);
    var z3b := Add(f, Mont(f, p.x, p.z), Mont(f, p.x, p.z));
    MeansDouble(f, Mont(f, p.x, p.z), xz);
    MeansProduct(f, c.b, b, t2, zz);
    MeansDifference(f, Mont(f, c.b, t2), b * zz, z3b, 2 * xz);
    MeansMiddle(f, t0, xx, t2, zz, z3b, 2 * xz, c.b, b);
    MeansDouble(f, Mont(f, p.x, p.y), xy);
    MeansDouble(f, Mont(f, p.y, p.z), yz);
    DoubleFinish(f, t1, yy, Add(f, Mont(f, p.x, p.y), Mont(f, p.x, p.y)), 2 * xy,
                 Add(f, Mont(f, p.y, p.z), Mont(f, p.y, p.z)), 2 * yz,
                 Sub(f, Mont(f, c.b, t2), z3b), b * zz - 2 * xz,
                 Sub(f, Sub(f, Mont(f, c.b, z3b), Add(f, t2, Add(f, t2, t2))), t0), b * (2 * xz) - 3 * zz - xx,
                 Sub(f, Add(f, t0, Add(f, t0, t0)), Add(f, t2, Add(f, t2, t2))), 3 * (xx - zz));
  }

  lemma DoubleFinish(f: Modulus, t1: nat, yy: int, t3: nat, xy: int, t0d: nat, yz: int, y3a: nat, u: int,
                     z3c: nat, v: int, t0b: nat, w3: int)
    requires Rendered(f) && Means(f, t1, yy) && Means(f, t3, xy) && Means(f, t0d, yz)
    requires Means(f, y3a, u) && Means(f, z3c, v) && Means(f, t0b, w3)
    ensures var y3b := Add(f, y3a, Add(f, y3a, y3a)); var z3d := Add(f, z3c, Add(f, z3c, z3c));
            var x3a := Sub(f, t1, y3b); var z3e := Mont(f, t0d, t1); var z3f := Add(f, z3e, z3e);
            && Means(f, Sub(f, Mont(f, x3a, t3), Mont(f, t0d, z3d)), (yy - 3 * u) * xy - yz * (3 * v))
            && Means(f, Add(f, Mont(f, x3a, Add(f, t1, y3b)), Mont(f, t0b, z3d)),
                     (yy - 3 * u) * (yy + 3 * u) + w3 * (3 * v))
            && Means(f, Add(f, z3f, z3f), 4 * (yz * yy))
  {
    hide *;
    var y3b := Add(f, y3a, Add(f, y3a, y3a));
    var z3d := Add(f, z3c, Add(f, z3c, z3c));
    MeansTriple(f, y3a, u);
    MeansTriple(f, z3c, v);
    var x3a := Sub(f, t1, y3b);
    MeansDifference(f, t1, yy, y3b, 3 * u);
    MeansSum(f, t1, yy, y3b, 3 * u);
    MeansProduct(f, x3a, yy - 3 * u, t3, xy);
    MeansProduct(f, t0d, yz, z3d, 3 * v);
    MeansDifference(f, Mont(f, x3a, t3), (yy - 3 * u) * xy, Mont(f, t0d, z3d), yz * (3 * v));
    MeansProduct(f, x3a, yy - 3 * u, Add(f, t1, y3b), yy + 3 * u);
    MeansProduct(f, t0b, w3, z3d, 3 * v);
    MeansSum(f, Mont(f, x3a, Add(f, t1, y3b)), (yy - 3 * u) * (yy + 3 * u), Mont(f, t0b, z3d), w3 * (3 * v));
    var z3e := Mont(f, t0d, t1);
    MeansProduct(f, t0d, yz, t1, yy);
    MeansDouble(f, z3e, yz * yy);
    MeansDouble(f, Add(f, z3e, z3e), 2 * (yz * yy));
  }

  // ── Laws of the formulas ──────────────────────────────────────────

  /** The x and y of doubling are those of adding a point to itself, as polynomials. */
  lemma TwiceXy(b: int, p: Point<int>)
    ensures Twice(b, p).x == Sum(b, p, p).x && Twice(b, p).y == Sum(b, p, p).y
  {
    var u := b * (p.z * p.z) - 2 * (p.x * p.z);
    assert p.x * p.z + p.x * p.z - b * (p.z * p.z) == -u;
    TwiceXyOf(p.x * p.y, p.y * p.z, p.y * p.y, u,
              b * (2 * (p.x * p.z)) - 3 * (p.z * p.z) - p.x * p.x, p.x * p.x - p.z * p.z);
    assert b * (p.x * p.z + p.x * p.z) == b * (2 * (p.x * p.z));
  }

  lemma TwiceXyOf(xy: int, yz: int, yy: int, u: int, v: int, w: int)
    ensures (yy - 3 * u) * (2 * xy) - 2 * yz * (3 * v) == SumOf(xy + xy, yz + yz, yy, -u, v, w).x
    ensures (yy - 3 * u) * (yy + 3 * u) + 3 * w * (3 * v) == SumOf(xy + xy, yz + yz, yy, -u, v, w).y
  {
    assert (yy - 3 * u) * (2 * xy) == (xy + xy) * (yy + 3 * -u);
    assert (yy - 3 * u) * (yy + 3 * u) == (yy + 3 * -u) * (yy - 3 * -u);
  }

  /** The z coordinates differ by a multiple of the curve equation. */
  lemma TwiceZ(b: int, x: int, y: int, z: int)
    ensures var p := Point(x, y, z); var e := y * y * z - (x * x * x - 3 * (x * z * z) + b * (z * z * z));
            Twice(b, p).z - Sum(b, p, p).z == 6 * y * e
  {
    var u := x * z + z * x - b * (z * z);
    var e := y * y * z - (x * x * x - 3 * (x * z * z) + b * (z * z * z));
    assert 4 * (2 * (y * z) * (y * y)) == 8 * y * (y * y * z) by { Degree4(y, z); }
    TwiceZOf(x, y, z, u, y * y, x * x - z * z);
    CurveTerm(b, x, z);
    assert y * z + y * z == 2 * (y * z) && x * y + x * y == 2 * (x * y);
    SpreadTerms(y, y * y * z, x * x * x - 3 * (x * z * z) + b * (z * z * z), z * u, x * (x * x - z * z));
  }

  lemma Degree4(y: int, z: int)
    ensures 4 * (2 * (y * z) * (y * y)) == 8 * y * (y * y * z)
  {
    assert y * z * (y * y) == y * (y * y * z);
  }

  lemma TwiceZOf(x: int, y: int, z: int, u: int, yy: int, w: int)
    requires yy == y * y
    ensures 2 * (y * z) * (yy - 3 * u) + 2 * (x * y) * (3 * w) == 2 * y * (yy * z - 3 * (z * u) + 3 * (x * w))
  {
    assert y * z * (yy - 3 * u) == y * (yy * z - 3 * (z * u));
    assert x * y * w == y * (x * w);
  }

  lemma CurveTerm(b: int, x: int, z: int)
    ensures x * (x * x - z * z) - z * (x * z + z * x - b * (z * z)) == x * x * x - 3 * (x * z * z) + b * (z * z * z)
  {
    assert x * (z * z) == x * z * z && z * (x * z) == x * z * z && z * (b * (z * z)) == b * (z * z * z);
  }

  lemma SpreadTerms(y: int, l: int, r: int, s: int, t: int)
    requires t - s == r
    ensures 8 * y * l - 2 * y * (l - 3 * s + 3 * t) == 6 * y * (l - r)
  {
    assert l - 3 * s + 3 * t == l + 3 * r;
    assert 2 * y * (l + 3 * r) == 2 * y * l + 6 * y * r;
  }

  /** On the curve doubling is adding a point to itself, coordinate for coordinate. */
  lemma DoubleIsSum(c: Curve, p: Point<nat>)
    requires Rendered(c.p) && In(c.p, c.b) && InPoint(c, p) && OnCurve(c.p.m, Val(c.p, c.b), Vals(c, p))
    ensures DoublePoint(c, p) == AddPoint(c, p, p)
  {
    hide Mod, Rendered, Means, Val, DoublePoint, AddPoint, Twice, Sum;
    RenderedBounds(c.p);
    var b, x := Val(c.p, c.b), Vals(c, p);
    MeansSelf(c.p, c.b);
    MeansSelf(c.p, p.x);
    MeansSelf(c.p, p.y);
    MeansSelf(c.p, p.z);
    DoubleMeans(c, p, x, b);
    AddMeans(c, p, p, x, x, b);
    TwiceXy(b, x);
    TwiceZ(b, x.x, x.y, x.z);
    CurveMultiple(c.p.m, b, x.x, x.y, x.z, Twice(b, x).z, Sum(b, x, x).z);
    var d, s := DoublePoint(c, p), AddPoint(c, p, p);
    MeansSame(c.p, d.x, Twice(b, x).x, s.x, Sum(b, x, x).x);
    MeansSame(c.p, d.y, Twice(b, x).y, s.y, Sum(b, x, x).y);
    MeansSame(c.p, d.z, Twice(b, x).z, s.z, Sum(b, x, x).z);
  }

  lemma CurveMultiple(m: nat, b: int, x: int, y: int, z: int, d: int, s: int)
    requires m > 0 && OnCurve(m, b, Point(x, y, z))
    requires d - s == 6 * y * (y * y * z - (x * x * x - 3 * (x * z * z) + b * (z * z * z)))
    ensures Cong(d, s, m)
  {
    hide Mod;
    var l, r := y * y * z, x * x * x - 3 * (x * z * z) + b * (z * z * z);
    var k := CongWitness(l, r, m);
    assert 6 * y * (l - r) == 6 * y * k * m by { assert l - r == k * m; Scale(6 * y, k, m); }
    CongFrom(d, s, 6 * y * k, m);
  }

  lemma Scale(a: int, k: int, m: int)
    ensures a * (k * m) == a * k * m
  {}

  lemma MeansSame(f: Modulus, a: nat, x: int, b: nat, y: int)
    requires Rendered(f) && Means(f, a, x) && Means(f, b, y) && Cong(x, y, f.m)
    ensures a == b
  {
    hide Mod, Val, Rendered;
    RenderedBounds(f);
    MeansValue(f, a, x);
    MeansValue(f, b, y);
    ValInjective(f, a, b);
  }

  /** Adding (0 : 1 : 0) scales a point by its y. */
  lemma AddInfinity(c: Curve, p: Point<nat>)
    requires Rendered(c.p) && In(c.p, c.b) && InPoint(c, p)
    ensures var y := Val(c.p, p.y);
            var r := AddPoint(c, p, Infinity(c));
            Vals(c, r) == ModPoint(c.p.m, Point(Val(c.p, p.x) * y, y * y, Val(c.p, p.z) * y))
  {
    hide Mod, Rendered, Means, Val, AddPoint;
    RenderedBounds(c.p);
    var b, x := Val(c.p, c.b), Vals(c, p);
    MeansSelf(c.p, c.b);
    MeansSelf(c.p, p.x);
    MeansSelf(c.p, p.y);
    MeansSelf(c.p, p.z);
    MeansInfinity(c);
    AddMeans(c, p, Infinity(c), x, Point(0, 1, 0), b);
    SumInfinity(b, x);
    var r := AddPoint(c, p, Infinity(c));
    MeansValue(c.p, r.x, x.x * x.y);
    MeansValue(c.p, r.y, x.y * x.y);
    MeansValue(c.p, r.z, x.z * x.y);
  }

  lemma MeansInfinity(c: Curve)
    requires Rendered(c.p)
    ensures MeansPoint(c, Infinity(c), Point(0, 1, 0))
  {
    hide Mod, Rendered, Val;
    RenderedBounds(c.p);
    OneValue(c.p);
    ValZero(c.p);
  }

  lemma SumInfinity(b: int, p: Point<int>)
    ensures Sum(b, p, Point(0, 1, 0)) == Point(p.x * p.y, p.y * p.y, p.z * p.y)
  {
    assert p.x * 0 == 0 && 0 * p.y == 0 && p.y * 0 == 0 && p.z * 0 == 0 && b * 0 == 0 && p.x * 1 == p.x
        && p.z * 1 == p.z;
  }

  /** Addition does not care about the order of its points. */
  lemma AddCommutes(c: Curve, p: Point<nat>, q: Point<nat>)
    requires Rendered(c.p) && In(c.p, c.b) && InPoint(c, p) && InPoint(c, q)
    ensures AddPoint(c, p, q) == AddPoint(c, q, p)
  {
    hide Mod, Rendered, Means, Val, AddPoint, Sum;
    RenderedBounds(c.p);
    var b, x, y := Val(c.p, c.b), Vals(c, p), Vals(c, q);
    MeansSelf(c.p, c.b);
    MeansSelf(c.p, p.x);
    MeansSelf(c.p, p.y);
    MeansSelf(c.p, p.z);
    MeansSelf(c.p, q.x);
    MeansSelf(c.p, q.y);
    MeansSelf(c.p, q.z);
    AddMeans(c, p, q, x, y, b);
    AddMeans(c, q, p, y, x, b);
    SumCommutes(b, x, y);
    var s, t := AddPoint(c, p, q), AddPoint(c, q, p);
    MeansSame(c.p, s.x, Sum(b, x, y).x, t.x, Sum(b, x, y).x);
    MeansSame(c.p, s.y, Sum(b, x, y).y, t.y, Sum(b, x, y).y);
    MeansSame(c.p, s.z, Sum(b, x, y).z, t.z, Sum(b, x, y).z);
  }

  lemma SumCommutes(b: int, p: Point<int>, q: Point<int>)
    ensures Sum(b, p, q) == Sum(b, q, p)
  {
    assert p.x * q.x == q.x * p.x && p.y * q.y == q.y * p.y && p.z * q.z == q.z * p.z;
    assert p.x * q.y + q.x * p.y == q.x * p.y + p.x * q.y;
  }
}
