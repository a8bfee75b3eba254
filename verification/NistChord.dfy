/**
 * What the complete sum of two affine points is: the chord, tangent and inverse laws, modulo the curve
 * equation. Everything here is integer algebra; the curve is y^2 = x^3 - 3x + b.
 */
module NistChord {
  import opened Arith
  import opened NistPoint

  function Cubic(b: int, x: int): int { x * x * x - 3 * x + b }

  /** The difference quotient of the cubic. */
  function Rise(x: int, z: int): int { x * x + x * z + z * z - 3 }

  /** What y, at x, contributes to the x and z coordinates of the sum with a point at z. */
  function XCoef(b: int, x: int, z: int): int { x * z * z * z + 3 * x * z + 3 * z * z + 9 - 2 * b * (x + 3 * z) }

  function ZCoef(b: int, x: int, z: int): int { z * z * z + 3 * x * z * z - 3 * x - 9 * z + 4 * b }

  function YForm(b: int, x: int, z: int): int
  {
    var u, v := x + z - b, b * (x + z) - 3 - x * z;
    Cubic(b, x) * Cubic(b, z) - 9 * (u * u) + 9 * ((x * z - 1) * v)
  }

  // ── The sum as a linear form in the two ordinates ─────────────────

  lemma XCoefIs(b: int, x: int, z: int)
    ensures XCoef(b, x, z) == x * Cubic(b, z) + 3 * (x + z - b) * z - 3 * (b * (x + z) - 3 - x * z)
  {}

  lemma ZCoefIs(b: int, x: int, z: int)
    ensures ZCoef(b, x, z) == Cubic(b, z) - 3 * (x + z - b) + 3 * (x * z - 1) * z
  {}

  /** Two points at z = 1. */
  lemma SumAtOne(b: int, x: int, y: int, x': int, y': int)
    ensures Sum(b, Point(x, y, 1), Point(x', y', 1))
            == SumOf(x * y' + x' * y, y + y', y * y', x + x' - b, b * (x + x') - 3 - x * x', x * x' - 1)
  {
    assert y * 1 == y && y' * 1 == y' && x * 1 == x && x' * 1 == x' && b * (1 * 1) == b;
  }

  lemma XForm(b: int, x: int, y: int, x': int, y': int, k: int, k': int)
    requires y * y == Cubic(b, x) + k && y' * y' == Cubic(b, x') + k'
    ensures Sum(b, Point(x, y, 1), Point(x', y', 1)).x ==
            XCoef(b, x, x') * y + XCoef(b, x', x) * y' + x' * y' * k + x * y * k'
  {
    hide XCoef, Cubic;
    SumAtOne(b, x, y, x', y');
    XCoefIs(b, x, x');
    XCoefIs(b, x', x);
    XFormOf(x, y, x', y', x + x' - b, b * (x + x') - 3 - x * x', Cubic(b, x), Cubic(b, x'), k, k');
    assert x * x' == x' * x;
  }

  lemma XFormOf(x: int, y: int, x': int, y': int, u: int, v: int, f: int, f': int, k: int, k': int)
    requires y * y == f + k && y' * y' == f' + k'
    ensures (x * y' + x' * y) * (y * y' + 3 * u) - (y + y') * (3 * v) ==
            (x * f' + 3 * u * x' - 3 * v) * y + (x' * f + 3 * u * x - 3 * v) * y' + x' * y' * k + x * y * k'
  {}

  lemma ZForm(b: int, x: int, y: int, x': int, y': int, k: int, k': int)
    requires y * y == Cubic(b, x) + k && y' * y' == Cubic(b, x') + k'
    ensures Sum(b, Point(x, y, 1), Point(x', y', 1)).z ==
            ZCoef(b, x, x') * y + ZCoef(b, x', x) * y' + y' * k + y * k'
  {
    hide ZCoef, Cubic;
    SumAtOne(b, x, y, x', y');
    ZCoefIs(b, x, x');
    ZCoefIs(b, x', x);
    ZFormOf(x, y, x', y', x + x' - b, x * x' - 1, Cubic(b, x), Cubic(b, x'), k, k');
    assert x * x' == x' * x;
  }

  lemma ZFormOf(x: int, y: int, x': int, y': int, u: int, w: int, f: int, f': int, k: int, k': int)
    requires y * y == f + k && y' * y' == f' + k'
    ensures (y + y') * (y * y' - 3 * u) + (x * y' + x' * y) * (3 * w) ==
            (f' - 3 * u + 3 * w * x') * y + (f - 3 * u + 3 * w * x) * y' + y' * k + y * k'
  {}

  lemma YFormIs(b: int, x: int, y: int, x': int, y': int, k: int, k': int)
    requires y * y == Cubic(b, x) + k && y' * y' == Cubic(b, x') + k'
    ensures Sum(b, Point(x, y, 1), Point(x', y', 1)).y ==
            YForm(b, x, x') + (Cubic(b, x') + k') * k + Cubic(b, x) * k'
  {
    hide Cubic;
    SumAtOne(b, x, y, x', y');
    YFormOf(y, y', x + x' - b, b * (x + x') - 3 - x * x', x * x' - 1, Cubic(b, x), Cubic(b, x'), k, k');
  }

  lemma YFormOf(y: int, y': int, u: int, v: int, w: int, f: int, f': int, k: int, k': int)
    requires y * y == f + k && y' * y' == f' + k'
    ensures (y * y' + 3 * u) * (y * y' - 3 * u) + 3 * w * (3 * v) ==
            f * f' - 9 * (u * u) + 9 * (w * v) + (f' + k') * k + f * k'
  {
    assert y * y' * (y * y') == (f + k) * (f' + k') by { Squares(y, y', f + k, f' + k'); }
  }

  lemma Squares(y: int, z: int, a: int, c: int)
    requires y * y == a && z * z == c
    ensures y * z * (y * z) == a * c
  {
    assert y * z * (y * z) == y * y * (z * z);
  }

  // ── Identities between the coefficients ───────────────────────────

  lemma CubicRise(b: int, x: int, z: int)
    ensures Cubic(b, z) - Cubic(b, x) == (z - x) * Rise(x, z)
  {}

  lemma ZCoefCubics(b: int, x: int, z: int)
    ensures ZCoef(b, x, z) == Cubic(b, x) + 3 * Cubic(b, z) - (z - x) * (z - x) * (x + 2 * z)
  {}

  lemma XCoefRise(b: int, x: int, z: int)
    ensures XCoef(b, x, z) == Rise(x, z) * Rise(x, z) - (x + 2 * z) * (Cubic(b, x) + Cubic(b, z))
                              + 2 * (2 * x + z) * Cubic(b, z) - (x + z) * ZCoef(b, x, z)
  {}

  lemma CoefsGap(b: int, x: int, z: int)
    ensures x * ZCoef(b, x, z) - XCoef(b, x, z) == Gap(b, x, z)
  {
    hide XCoef, ZCoef;
    ZCoefTimes(b, x, z);
    XCoefMonomials(b, x, z);
    assert b * (x + z) == b * x + b * z;
  }

  lemma ZCoefTimes(b: int, x: int, z: int)
    ensures x * ZCoef(b, x, z) ==
            x * (z * z * z) + 3 * (x * x * (z * z)) - 3 * (x * x) - 9 * (x * z) + 4 * (b * x)
  {
    assert ZCoef(b, x, z) == z * z * z + 3 * (x * (z * z)) - 3 * x - 9 * z + 4 * b by {
      assert 3 * x * z * z == 3 * (x * (z * z));
    }
    Spread(x, z * z * z, x * (z * z), x, z, b);
    assert x * (x * (z * z)) == x * x * (z * z) && x * b == b * x;
  }

  lemma XCoefMonomials(b: int, x: int, z: int)
    ensures XCoef(b, x, z) == x * (z * z * z) + 3 * (x * z) + 3 * (z * z) + 9 - 2 * (b * x) - 6 * (b * z)
  {
    assert x * z * z * z == x * (z * z * z);
    assert 2 * b * (x + 3 * z) == 2 * (b * x) + 6 * (b * z);
  }

  lemma Spread(t: int, a: int, b: int, c: int, d: int, e: int)
    ensures t * (a + 3 * b - 3 * c - 9 * d + 4 * e) == t * a + 3 * (t * b) - 3 * (t * c) - 9 * (t * d) + 4 * (t * e)
  {}

  function Gap(b: int, x: int, z: int): int
  {
    3 * (x * x * (z * z)) - 3 * (x * x) - 12 * (x * z) - 3 * (z * z) - 9 + 6 * (b * (x + z))
  }

  lemma CoefsCross(b: int, x: int, z: int)
    ensures x * ZCoef(b, x, z) - XCoef(b, x, z) == z * ZCoef(b, z, x) - XCoef(b, z, x)
  {
    CoefsGap(b, x, z);
    CoefsGap(b, z, x);
    assert x * x * (z * z) == z * z * (x * x) && x * z == z * x;
  }

  /** The y coordinate, by powers of b. */
  lemma YFormRise(b: int, x: int, z: int)
    ensures YForm(b, x, z) ==
            Gap(b, x, z) * Rise(x, z) - ZCoef(b, x, z) * Cubic(b, x) - ZCoef(b, z, x) * Cubic(b, z)
  {
    var g, h, c, e := x * x * x - 3 * x, z * z * z - 3 * z, ZCoef(0, x, z), ZCoef(0, z, x);
    var s, t, q, a := x + z, x * z, Rise(x, z), Gap(0, x, z);
    YLinear(x, z);
    YConstant(x, z);
    YPowers(b, g, h, c, e, s, t, q, a);
    assert ZCoef(b, x, z) == c + 4 * b && ZCoef(b, z, x) == e + 4 * b && Gap(b, x, z) == a + 6 * (b * s);
    assert Cubic(b, x) == g + b && Cubic(b, z) == h + b;
  }

  lemma YPowers(b: int, g: int, h: int, c: int, e: int, s: int, t: int, q: int, a: int)
    requires g + h + 18 * s + 9 * ((t - 1) * s) == 6 * (s * q) - c - 4 * g - e - 4 * h
    requires g * h - 9 * (s * s) - 9 * ((t - 1) * (3 + t)) == a * q - c * g - e * h
    ensures (g + b) * (h + b) - 9 * ((s - b) * (s - b)) + 9 * ((t - 1) * (b * s - 3 - t)) ==
            (a + 6 * (b * s)) * q - (c + 4 * b) * (g + b) - (e + 4 * b) * (h + b)
  {
    YLeft(b, g, h, s, t);
    YRight(b, g, h, c, e, s, q, a);
    assert b * (g + h + 18 * s + 9 * ((t - 1) * s)) == b * (6 * (s * q) - c - 4 * g - e - 4 * h);
  }

  lemma YLeft(b: int, g: int, h: int, s: int, t: int)
    ensures (g + b) * (h + b) - 9 * ((s - b) * (s - b)) + 9 * ((t - 1) * (b * s - 3 - t)) ==
            g * h - 9 * (s * s) - 9 * ((t - 1) * (3 + t)) + b * (g + h + 18 * s + 9 * ((t - 1) * s)) - 8 * (b * b)
  {
    assert (g + b) * (h + b) == g * h + b * (g + h) + b * b;
    assert (s - b) * (s - b) == s * s - 2 * (b * s) + b * b;
    assert (t - 1) * (b * s - 3 - t) == b * ((t - 1) * s) - (t - 1) * (3 + t) by { YPair(t - 1, b, s, 3 + t); }
    assert b * (g + h + 18 * s + 9 * ((t - 1) * s)) == b * (g + h) + 18 * (b * s) + 9 * (b * ((t - 1) * s));
  }

  lemma YPair(w: int, b: int, s: int, r: int)
    ensures w * (b * s - r) == b * (w * s) - w * r
  {}

  lemma YRight(b: int, g: int, h: int, c: int, e: int, s: int, q: int, a: int)
    ensures (a + 6 * (b * s)) * q - (c + 4 * b) * (g + b) - (e + 4 * b) * (h + b) ==
            a * q - c * g - e * h + b * (6 * (s * q) - c - 4 * g - e - 4 * h) - 8 * (b * b)
  {
    assert (a + 6 * (b * s)) * q == a * q + 6 * (b * (s * q));
    assert (c + 4 * b) * (g + b) == c * g + b * c + 4 * (b * g) + 4 * (b * b);
    assert (e + 4 * b) * (h + b) == e * h + b * e + 4 * (b * h) + 4 * (b * b);
    assert b * (6 * (s * q) - c - 4 * g - e - 4 * h) == 6 * (b * (s * q)) - b * c - 4 * (b * g) - b * e - 4 * (b * h);
  }

  lemma YLinear(x: int, z: int)
    ensures x * x * x - 3 * x + (z * z * z - 3 * z) + 18 * (x + z) + 9 * ((x * z - 1) * (x + z)) ==
            6 * ((x + z) * Rise(x, z)) - ZCoef(0, x, z) - 4 * (x * x * x - 3 * x)
            - ZCoef(0, z, x) - 4 * (z * z * z - 3 * z)
  {
    hide Rise, ZCoef;
    ZAtZero(x, z);
    ZAtZero(z, x);
    Monomials(x, z);
    PairSum(x, z);
    RiseSum(x, z);
    YLinearSum(x * x * x, z * z * z, x * x * z, x * (z * z), x, z, (x * z - 1) * (x + z), (x + z) * Rise(x, z),
               ZCoef(0, x, z), ZCoef(0, z, x));
  }

  lemma YLinearSum(x3: int, z3: int, p: int, q: int, x: int, z: int, pair: int, rise: int, c: int, e: int)
    requires pair == p + q - x - z && rise == x3 + 2 * p + 2 * q + z3 - 3 * x - 3 * z
    requires c == z3 + 3 * q - 3 * x - 9 * z && e == x3 + 3 * p - 3 * z - 9 * x
    ensures x3 - 3 * x + (z3 - 3 * z) + 18 * (x + z) + 9 * pair ==
            6 * rise - c - 4 * (x3 - 3 * x) - e - 4 * (z3 - 3 * z)
  {}

  lemma ZAtZero(x: int, z: int)
    ensures ZCoef(0, x, z) == z * z * z + 3 * (x * (z * z)) - 3 * x - 9 * z
  {
    assert 3 * x * z * z == 3 * (x * (z * z));
  }

  lemma PairSum(x: int, z: int)
    ensures (x * z - 1) * (x + z) == x * x * z + x * (z * z) - x - z
  {
    assert x * z * x == x * x * z && x * z * z == x * (z * z);
  }

  lemma RiseSum(x: int, z: int)
    ensures (x + z) * Rise(x, z) == x * x * x + 2 * (x * x * z) + 2 * (x * (z * z)) + z * z * z - 3 * x - 3 * z
  {
    RiseTimes(x, x, z);
    RiseTimes(z, x, z);
    Monomials(x, z);
    hide Rise;
    BothTimes(x, z, Rise(x, z));
  }

  lemma RiseTimes(t: int, x: int, z: int)
    ensures t * Rise(x, z) == t * (x * x) + t * (x * z) + t * (z * z) - 3 * t
  {
    FourTimes(t, x * x, x * z, z * z);
  }

  lemma Monomials(x: int, z: int)
    ensures x * (x * x) == x * x * x && x * (x * z) == x * x * z && z * (x * x) == x * x * z
    ensures z * (x * z) == x * (z * z) && z * (z * z) == z * z * z
  {}

  lemma BothTimes(x: int, z: int, r: int)
    ensures (x + z) * r == x * r + z * r
  {}

  lemma FourTimes(t: int, a: int, b: int, c: int)
    ensures t * (a + b + c - 3) == t * a + t * b + t * c - 3 * t
  {}

  lemma YConstant(x: int, z: int)
    ensures (x * x * x - 3 * x) * (z * z * z - 3 * z) - 9 * ((x + z) * (x + z)) - 9 * ((x * z - 1) * (3 + x * z)) ==
            Gap(0, x, z) * Rise(x, z) - ZCoef(0, x, z) * (x * x * x - 3 * x) - ZCoef(0, z, x) * (z * z * z - 3 * z)
  {}

  // ── The laws, modulo m ────────────────────────────────────────────

  /** (x, y) satisfies the curve equation modulo m. */
  ghost predicate OnCubic(m: nat, b: int, x: int, y: int)
    requires m > 0
  {
    Cong(y * y, Cubic(b, x), m)
  }

  lemma Absorb(a: int, b: int, u: int, k: int, v: int, l: int, m: int)
    requires m > 0 && Cong(k, 0, m) && Cong(l, 0, m) && a == b + u * k + v * l
    ensures Cong(a, b, m)
  {
    hide Mod;
    CongMul(u, u, k, 0, m);
    CongMul(v, v, l, 0, m);
    CongAdd(b, b, u * k, u * 0, m);
    CongAdd(b + u * k, b + u * 0, v * l, v * 0, m);
  }

  lemma Excess(m: nat, b: int, x: int, y: int) returns (k: int)
    requires m > 0 && OnCubic(m, b, x, y)
    ensures k == y * y - Cubic(b, x) && Cong(k, 0, m)
  {
    hide Mod, Cubic;
    k := y * y - Cubic(b, x);
    CongAdd(y * y, Cubic(b, x), Cubic(b, x), Cubic(b, x), m);
  }

  /** The sum of two points of the curve is linear in their ordinates, its y free of them. */
  lemma SumLinear(m: nat, b: int, x: int, y: int, x': int, y': int)
    requires m > 0 && OnCubic(m, b, x, y) && OnCubic(m, b, x', y')
    ensures var s := Sum(b, Point(x, y, 1), Point(x', y', 1));
            && Cong(s.x, XCoef(b, x, x') * y + XCoef(b, x', x) * y', m)
            && Cong(s.z, ZCoef(b, x, x') * y + ZCoef(b, x', x) * y', m)
            && Cong(s.y, YForm(b, x, x'), m)
  {
    hide Mod, Cubic, XCoef, ZCoef, YForm, Sum;
    var k := Excess(m, b, x, y);
    var k' := Excess(m, b, x', y');
    var s := Sum(b, Point(x, y, 1), Point(x', y', 1));
    XForm(b, x, y, x', y', k, k');
    ZForm(b, x, y, x', y', k, k');
    YFormIs(b, x, y, x', y', k, k');
    Absorb(s.x, XCoef(b, x, x') * y + XCoef(b, x', x) * y', x' * y', k, x * y, k', m);
    Absorb(s.z, ZCoef(b, x, x') * y + ZCoef(b, x', x) * y', y', k, y, k', m);
    Absorb(s.y, YForm(b, x, x'), Cubic(b, x') + k', k, Cubic(b, x), k', m);
  }

  /**
   * The chord law: with d and e the differences of the coordinates, X/Z is e^2/d^2 - x - x', and Y/Z is
   * e/d (x - X/Z) - y.
   */
  lemma ChordLaw(m: nat, b: int, x: int, y: int, x': int, y': int)
    requires m > 0 && OnCubic(m, b, x, y) && OnCubic(m, b, x', y')
    ensures var s := Sum(b, Point(x, y, 1), Point(x', y', 1)); var d, e := x' - x, y' - y;
            && Cong(s.x * (d * d), s.z * (e * e - (x + x') * (d * d)), m)
            && Cong(s.y * d, e * (x * s.z - s.x) - y * (s.z * d), m)
  {
    hide Mod, Cubic, XCoef, ZCoef, YForm, Sum;
    var s := Sum(b, Point(x, y, 1), Point(x', y', 1));
    var d, e := x' - x, y' - y;
    SumLinear(m, b, x, y, x', y');
    var f, f' := Cubic(b, x), Cubic(b, x');
    var k := Excess(m, b, x, y);
    var k' := Excess(m, b, x', y');
    var a1, a2, c1, c2 := XCoef(b, x, x'), XCoef(b, x', x), ZCoef(b, x, x'), ZCoef(b, x', x);
    var lx, lz := a1 * y + a2 * y', c1 * y + c2 * y';
    ChordX(b, x, x');
    ChordXOf(a1, a2, c1, c2, f, f', d * d, x + x', y, y', k, k');
    Absorb(lx * (d * d), lz * (e * e - (x + x') * (d * d)), 2 * (c1 * y') - lz, k, 2 * (c2 * y) - lz, k', m);
    CongMul(s.x, lx, d * d, d * d, m);
    CongMul(s.z, lz, e * e - (x + x') * (d * d), e * e - (x + x') * (d * d), m);
    ChordY(b, x, x');
    ChordYOf(YForm(b, x, x'), a1, a2, c1, c2, f, f', x, d, y, y', k, k');
    Absorb(YForm(b, x, x') * d, e * (x * lz - lx) - y * (lz * d), x * c1 - a1 + d * c1, k, a2 - x * c2, k', m);
    ChordCong(m, s.x, lx, s.y, YForm(b, x, x'), s.z, lz, d, e, x, y);
  }

  lemma ChordCong(m: nat, sx: int, lx: int, sy: int, ly: int, sz: int, lz: int, d: int, e: int, x: int, y: int)
    requires m > 0 && Cong(sx, lx, m) && Cong(sy, ly, m) && Cong(sz, lz, m)
    requires Cong(ly * d, e * (x * lz - lx) - y * (lz * d), m)
    ensures Cong(sy * d, e * (x * sz - sx) - y * (sz * d), m)
  {
    hide Mod;
    CongMul(sy, ly, d, d, m);
    CongMul(x, x, sz, lz, m);
    CongAdd(x * sz, x * lz, sx, lx, m);
    CongMul(e, e, x * sz - sx, x * lz - lx, m);
    CongMul(sz, lz, d, d, m);
    CongMul(y, y, sz * d, lz * d, m);
    CongAdd(e * (x * sz - sx), e * (x * lz - lx), y * (sz * d), y * (lz * d), m);
  }

  lemma ChordX(b: int, x: int, z: int)
    ensures var f, f', dd, t := Cubic(b, x), Cubic(b, z), (z - x) * (z - x), x + z;
            && XCoef(b, x, z) * dd == ZCoef(b, x, z) * (f + f' - t * dd) - 2 * (ZCoef(b, z, x) * f')
            && XCoef(b, z, x) * dd == ZCoef(b, z, x) * (f + f' - t * dd) - 2 * (ZCoef(b, x, z) * f)
  {
    hide Cubic, XCoef, ZCoef, Rise;
    ZCoefCubics(b, x, z);
    ZCoefCubics(b, z, x);
    XCoefRise(b, x, z);
    XCoefRise(b, z, x);
    CubicRise(b, x, z);
    CubicRise(b, z, x);
    var d, r, s, t := z - x, x + 2 * z, 2 * x + z, x + z;
    DoubledTerms(s, Cubic(b, z), r, Cubic(b, x));
    Opposed(x, z);
    assert 2 * z + x == r && z + 2 * x == s && z + x == t;
    ChordXCoef(d, r, s, t, Cubic(b, x), Cubic(b, z), Rise(x, z), ZCoef(b, x, z), ZCoef(b, z, x), XCoef(b, x, z));
    ChordXCoef(-d, s, r, t, Cubic(b, z), Cubic(b, x), Rise(z, x), ZCoef(b, z, x), ZCoef(b, x, z), XCoef(b, z, x));
  }

  lemma DoubledTerms(s: int, f: int, r: int, g: int)
    ensures 2 * s * f == 2 * (s * f) && 2 * r * g == 2 * (r * g)
  {}

  lemma Opposed(x: int, z: int)
    ensures (x - z) * (x - z) == (z - x) * (z - x) == -(z - x) * -(z - x)
  {}

  /** r, s and t stand for x + 2z, 2x + z and x + z, and d for z - x. */
  lemma ChordXCoef(d: int, r: int, s: int, t: int, f: int, g: int, q: int, c: int, e: int, a: int)
    requires g - f == d * q && a == q * q - r * (f + g) + 2 * (s * g) - t * c
    requires c == f + 3 * g - d * d * r && e == g + 3 * f - d * d * s
    ensures a * (d * d) == c * (f + g - t * (d * d)) - 2 * (e * g)
  {
    var dd := d * d;
    assert (g - f) * (g - f) == q * q * dd by { Squares2(d, q); }
    ChordXParts(f, g, dd, r, s, t, q * q * dd, c, e);
    ChordXSpread(q * q, r * (f + g), s * g, t * c, dd);
  }

  lemma Squares2(d: int, q: int)
    ensures d * q * (d * q) == q * q * (d * d)
  {}

  lemma ChordXSpread(q: int, r: int, s: int, t: int, dd: int)
    ensures (q - r + 2 * s - t) * dd == q * dd - r * dd + 2 * (s * dd) - t * dd
  {}

  lemma ChordXParts(f: int, g: int, dd: int, r: int, s: int, t: int, qq: int, c: int, e: int)
    requires (g - f) * (g - f) == qq && c == f + 3 * g - dd * r && e == g + 3 * f - dd * s
    ensures qq - r * (f + g) * dd + 2 * (s * g * dd) - t * c * dd == c * (f + g - t * dd) - 2 * (e * g)
  {
    CubicParts(f, g, dd * r, dd * s);
    assert c * (t * dd) == t * c * dd by { Rotated(c, t, dd); }
    assert dd * r * (f + g) == r * (f + g) * dd by { Rotated(dd, r, f + g); }
    assert dd * s * g == s * g * dd by { Rotated(dd, s, g); }
    assert c * (f + g - t * dd) == c * (f + g) - c * (t * dd);
  }

  lemma Rotated(a: int, b: int, c: int)
    ensures a * b * c == b * c * a && a * (b * c) == b * a * c
  {}

  lemma CubicParts(f: int, g: int, r: int, s: int)
    ensures (f + 3 * g - r) * (f + g) - 2 * ((g + 3 * f - s) * g) == (g - f) * (g - f) - r * (f + g) + 2 * (s * g)
  {}

  lemma ChordXOf(a: int, a': int, c: int, c': int, f: int, f': int, dd: int, t: int, y: int, y': int, k: int, k': int)
    requires a * dd == c * (f + f' - t * dd) - 2 * (c' * f') && a' * dd == c' * (f + f' - t * dd) - 2 * (c * f)
    requires y * y == f + k && y' * y' == f' + k'
    ensures var l := c * y + c' * y';
            (a * y + a' * y') * dd ==
            l * ((y' - y) * (y' - y) - t * dd) + (2 * (c * y') - l) * k + (2 * (c' * y) - l) * k'
  {
    var l, r := c * y + c' * y', f + f' - t * dd;
    LinearTimes(a, y, a', y', dd);
    LinearForms(c, c', r, f, f', y, y');
    assert (y' - y) * (y' - y) == y' * y' + y * y - 2 * (y * y');
    assert l * (y * y') == c * y' * (y * y) + c' * y * (y' * y') by { LinearSquares(c, c', y, y'); }
    assert c * y' * (f + k) == c * f * y' + c * y' * k && c' * y * (f' + k') == c' * f' * y + c' * y * k';
    FourTerms(l, r, k, k', y * y');
    assert (2 * (c * y') - l) * k == 2 * (c * y' * k) - l * k && (2 * (c' * y) - l) * k' == 2 * (c' * y * k') - l * k';
  }

  lemma LinearTimes(a: int, y: int, c: int, z: int, d: int)
    ensures (a * y + c * z) * d == a * d * y + c * d * z
  {}

  lemma LinearForms(c: int, c': int, r: int, f: int, f': int, y: int, y': int)
    ensures (c * r - 2 * (c' * f')) * y + (c' * r - 2 * (c * f)) * y' ==
            (c * y + c' * y') * r - 2 * (c' * f' * y) - 2 * (c * f * y')
  {}

  lemma LinearSquares(c: int, c': int, y: int, y': int)
    ensures (c * y + c' * y') * (y * y') == c * y' * (y * y) + c' * y * (y' * y')
  {}

  lemma FourTerms(l: int, r: int, k: int, k': int, p: int)
    ensures l * (r + k + k' - 2 * p) == l * r + l * k + l * k' - 2 * (l * p)
  {}

  lemma ChordY(b: int, x: int, z: int)
    ensures var g := x * ZCoef(b, x, z) - XCoef(b, x, z);
            && g - (x * ZCoef(b, z, x) - XCoef(b, z, x)) == (z - x) * ZCoef(b, z, x)
            && YForm(b, x, z) * (z - x) ==
               g * (Cubic(b, z) - Cubic(b, x)) - (z - x) * (ZCoef(b, x, z) * Cubic(b, x) + ZCoef(b, z, x) * Cubic(b, z))
  {
    hide Cubic, XCoef, ZCoef, Rise, YForm, Gap;
    CoefsCross(b, x, z);
    CoefsGap(b, x, z);
    YFormRise(b, x, z);
    CubicRise(b, x, z);
    assert (z - x) * ZCoef(b, z, x) == z * ZCoef(b, z, x) - x * ZCoef(b, z, x);
    ChordYSpread(Gap(b, x, z), Rise(x, z), ZCoef(b, x, z) * Cubic(b, x), ZCoef(b, z, x) * Cubic(b, z), z - x);
  }

  lemma ChordYSpread(g: int, q: int, s: int, t: int, d: int)
    ensures (g * q - s - t) * d == g * (d * q) - d * (s + t)
  {}

  lemma ChordYOf(v: int, a: int, a': int, c: int, c': int, f: int, f': int, x: int, d: int, y: int, y': int,
                 k: int, k': int)
    requires x * c - a - (x * c' - a') == d * c'
    requires v * d == (x * c - a) * (f' - f) - d * (c * f + c' * f')
    requires y * y == f + k && y' * y' == f' + k'
    ensures var lx, lz := a * y + a' * y', c * y + c' * y';
            v * d == (y' - y) * (x * lz - lx) - y * (lz * d) + (x * c - a + d * c) * k + (a' - x * c') * k'
  {
    var g, h := x * c - a, x * c' - a';
    YGap(x, c, c', a, a', y, y');
    YCross(g, h, y, y');
    YTerm(y, y', c, c', d);
    Factored(g, h, d * c', y * y');
    ChordYLast(g, h, d * c, d * c', f, f', k, k');
    assert d * (c * f + c' * f') == d * c * f + d * c' * f' by { Factors(d, c, f, c', f'); }
  }

  lemma YGap(x: int, c: int, c': int, a: int, a': int, y: int, y': int)
    ensures x * (c * y + c' * y') - (a * y + a' * y') == (x * c - a) * y + (x * c' - a') * y'
  {}

  lemma YCross(g: int, h: int, y: int, y': int)
    ensures (y' - y) * (g * y + h * y') == g * (y * y') + h * (y' * y') - g * (y * y) - h * (y * y')
  {}

  lemma Factored(g: int, h: int, q: int, t: int)
    requires g - h == q
    ensures g * t - h * t == q * t
  {}

  lemma Factors(d: int, c: int, f: int, c': int, f': int)
    ensures d * (c * f + c' * f') == d * c * f + d * c' * f'
  {}

  lemma YTerm(y: int, y': int, c: int, c': int, d: int)
    ensures y * ((c * y + c' * y') * d) == d * c * (y * y) + d * c' * (y * y')
  {}

  lemma ChordYLast(g: int, h: int, p: int, q: int, f: int, f': int, k: int, k': int)
    requires g - h == q
    ensures g * (f' - f) - (p * f + q * f') ==
            h * (f' + k') - g * (f + k) - p * (f + k) + (g + p) * k + -h * k'
  {}

  // ── How the result is scaled ──────────────────────────────────────

  /**
   * On a chord Z is d^3 times the ordinate of the difference of the points: with -s/d the slope through
   * (x, y) and (x', -y'), that ordinate is (s^3 - s d^2 (2x + x'))/d^3 - y.
   */
  lemma ChordScale(m: nat, b: int, x: int, y: int, x': int, y': int)
    requires m > 0 && OnCubic(m, b, x, y) && OnCubic(m, b, x', y')
    ensures var d, t := x' - x, y + y';
            Cong(Sum(b, Point(x, y, 1), Point(x', y', 1)).z,
                 t * (t * t) - t * (d * d * (2 * x + x')) - y * (d * (d * d)), m)
  {
    hide Mod, Cubic, ZCoef, Sum;
    SumLinear(m, b, x, y, x', y');
    var k := Excess(m, b, x, y);
    var k' := Excess(m, b, x', y');
    var d, t := x' - x, y + y';
    ZCoefCubics(b, x, x');
    ZCoefCubics(b, x', x);
    assert (x - x') * (x - x') == d * d && x' + 2 * x == 2 * x + x' && x + 2 * x' == 2 * x + x' + d;
    ScaleOf(ZCoef(b, x, x'), ZCoef(b, x', x), Cubic(b, x), Cubic(b, x'), d, 2 * x + x', y, y', k, k');
    Absorb(t * (t * t) - t * (d * d * (2 * x + x')) - y * (d * (d * d)), ZCoef(b, x, x') * y + ZCoef(b, x', x) * y',
           y + 3 * y', k, 3 * y + y', k', m);
  }

  lemma ScaleOf(c: int, c': int, f: int, f': int, d: int, s: int, y: int, y': int, k: int, k': int)
    requires c == f + 3 * f' - d * d * (s + d) && c' == f' + 3 * f - d * d * s
    requires y * y == f + k && y' * y' == f' + k'
    ensures var t := y + y';
            t * (t * t) - t * (d * d * s) - y * (d * (d * d)) == c * y + c' * y' + (y + 3 * y') * k + (3 * y + y') * k'
  {
    var dd := d * d;
    assert dd * (s + d) == dd * s + d * dd;
    CubeOf(y, y');
    ScaleTerms(f, f', dd * s, d * dd, y, y', k, k');
    ScaleCombined(c, c', f, f', dd * s, d * dd, y, y');
  }

  lemma ScaleCombined(c: int, c': int, f: int, f': int, r: int, q: int, y: int, y': int)
    requires c == f + 3 * f' - (r + q) && c' == f' + 3 * f - r
    ensures c * y + c' * y' == (f + 3 * f' - (r + q)) * y + (f' + 3 * f - r) * y'
  {}

  lemma CubeOf(y: int, z: int)
    ensures (y + z) * ((y + z) * (y + z)) == y * (y * y) + 3 * (z * (y * y)) + 3 * (y * (z * z)) + z * (z * z)
  {}

  lemma ScaleTerms(f: int, f': int, r: int, q: int, y: int, y': int, k: int, k': int)
    ensures y * (f + k) + 3 * (y' * (f + k)) + 3 * (y * (f' + k')) + y' * (f' + k') - (y + y') * r - y * q ==
            (f + 3 * f' - (r + q)) * y + (f' + 3 * f - r) * y' + (y + 3 * y') * k + (3 * y + y') * k'
  {}

  // ── Doubling and opposite points ──────────────────────────────────

  lemma DoubleCoefs(b: int, x: int)
    ensures var f, t := Cubic(b, x), 3 * (x * x) - 3;
            && ZCoef(b, x, x) == 4 * f && XCoef(b, x, x) == t * t - 8 * (x * f)
            && YForm(b, x, x) == t * (4 * (x * f) - XCoef(b, x, x)) - 8 * (f * f)
  {
    YFormRise(b, x, x);
    var f, t := Cubic(b, x), 3 * (x * x) - 3;
    assert Gap(b, x, x) == x * ZCoef(b, x, x) - XCoef(b, x, x) by { CoefsGap(b, x, x); }
    assert Rise(x, x) == t;
    assert ZCoef(b, x, x) * f == 4 * (f * f) by { assert ZCoef(b, x, x) == 4 * f; }
    assert x * ZCoef(b, x, x) == 4 * (x * f);
  }

  /** The tangent law: with t = 3x^2 - 3 and d = 2y, X/Z is t^2/d^2 - 2x, Y/Z is t/d (x - X/Z) - y, and Z is d^3. */
  lemma TangentLaw(m: nat, b: int, x: int, y: int)
    requires m > 0 && OnCubic(m, b, x, y)
    ensures var s := Sum(b, Point(x, y, 1), Point(x, y, 1)); var t, d := 3 * (x * x) - 3, 2 * y;
            && Cong(s.x * (d * d), s.z * (t * t - 2 * x * (d * d)), m)
            && Cong(s.y * d, t * (x * s.z - s.x) - y * (s.z * d), m)
            && Cong(s.z, d * (d * d), m)
  {
    hide Mod, Cubic, XCoef, ZCoef, YForm, Sum;
    var s := Sum(b, Point(x, y, 1), Point(x, y, 1));
    var t, d, f := 3 * (x * x) - 3, 2 * y, Cubic(b, x);
    SumLinear(m, b, x, y, x, y);
    var k := Excess(m, b, x, y);
    DoubleCoefs(b, x);
    var a := XCoef(b, x, x);
    var lx, lz, v := a * y + a * y, 4 * f * y + 4 * f * y, YForm(b, x, x);
    CongAdd(0, 0, 0, 0, m);
    TangentOf(a, f, t, x, y, k);
    Absorb(lx * (d * d), lz * (t * t - 2 * x * (d * d)), 8 * (a * y) + 64 * (x * f * y), k, 0, 0, m);
    CongMul(s.x, lx, d * d, d * d, m);
    CongMul(s.z, lz, t * t - 2 * x * (d * d), t * t - 2 * x * (d * d), m);
    TangentYOf(a, f, t, x, y, k, v);
    Absorb(v * d, t * (x * lz - lx) - y * (lz * d), 16 * f * y, k, 0, 0, m);
    ChordCong(m, s.x, lx, s.y, v, s.z, lz, d, t, x, y);
    assert d * (d * d) == 8 * (y * (y * y)) && y * (y * y) == y * f + y * k;
    assert lz == 8 * (y * f);
    Absorb(d * (d * d), lz, 8 * y, k, 0, 0, m);
  }

  lemma TangentOf(a: int, f: int, t: int, x: int, y: int, k: int)
    requires a == t * t - 8 * (x * f) && y * y == f + k
    ensures var d, lx, lz := 2 * y, a * y + a * y, 4 * f * y + 4 * f * y;
            lx * (d * d) == lz * (t * t - 2 * x * (d * d)) + (8 * (a * y) + 64 * (x * f * y)) * k
  {
    assert 2 * y * (2 * y) == 4 * f + 4 * k;
    assert (a * y + a * y) * (4 * f + 4 * k) == 8 * (a * f * y) + 8 * (a * y) * k by { TangentL(a, f, y, k); }
    assert t * t - 2 * x * (4 * f + 4 * k) == a - 8 * (x * k) by { TangentT(x, f, k); }
    assert (4 * f * y + 4 * f * y) * (a - 8 * (x * k)) == 8 * (a * f * y) - 64 * (x * f * y) * k by {
      TangentR(a, f, x, y, k);
    }
  }

  lemma TangentL(a: int, f: int, y: int, k: int)
    ensures (a * y + a * y) * (4 * f + 4 * k) == 8 * (a * f * y) + 8 * (a * y) * k
  {}

  lemma TangentT(x: int, f: int, k: int)
    ensures 2 * x * (4 * f + 4 * k) == 8 * (x * f) + 8 * (x * k)
  {}

  lemma TangentR(a: int, f: int, x: int, y: int, k: int)
    ensures (4 * f * y + 4 * f * y) * (a - 8 * (x * k)) == 8 * (a * f * y) - 64 * (x * f * y) * k
  {}

  lemma TangentYOf(a: int, f: int, t: int, x: int, y: int, k: int, v: int)
    requires v == t * (4 * (x * f) - a) - 8 * (f * f) && y * y == f + k
    ensures var d, lx, lz := 2 * y, a * y + a * y, 4 * f * y + 4 * f * y;
            v * d == t * (x * lz - lx) - y * (lz * d) + 16 * f * y * k
  {
    var d, lx, lz := 2 * y, a * y + a * y, 4 * f * y + 4 * f * y;
    assert x * lz - lx == 2 * (y * (4 * (x * f) - a)) by { TangentGap(x, f, a, y); }
    assert t * (2 * (y * (4 * (x * f) - a))) == 2 * (y * (t * (4 * (x * f) - a))) by { Pull(t, y, 4 * (x * f) - a); }
    assert y * (lz * d) == 16 * (f * y * (y * y)) by { TangentQuartic(f, y); }
    assert f * y * (f + k) == f * f * y + f * y * k by { assert f * y * f == f * f * y; }
    assert (t * (4 * (x * f) - a) - 8 * (f * f)) * (2 * y) == 2 * (y * (t * (4 * (x * f) - a))) - 16 * (f * f * y) by {
      TangentV(t * (4 * (x * f) - a), f * f, y);
    }
  }

  lemma TangentGap(x: int, f: int, a: int, y: int)
    ensures x * (4 * f * y + 4 * f * y) - (a * y + a * y) == 2 * (y * (4 * (x * f) - a))
  {}

  lemma Pull(t: int, y: int, q: int)
    ensures t * (2 * (y * q)) == 2 * (y * (t * q))
  {}

  lemma TangentQuartic(f: int, y: int)
    ensures y * ((4 * f * y + 4 * f * y) * (2 * y)) == 16 * (f * y * (y * y))
  {}

  lemma TangentV(p: int, q: int, y: int)
    ensures (p - 8 * q) * (2 * y) == 2 * (y * p) - 16 * (q * y)
  {}

  /** Opposite points: (0 : Y : 0), with Y d^3 times the ordinate of the double. */
  lemma OppositeLaw(m: nat, b: int, x: int, y: int)
    requires m > 0 && OnCubic(m, b, x, y)
    ensures var s := Sum(b, Point(x, y, 1), Point(x, 0 - y, 1)); var t, d := 3 * (x * x) - 3, 2 * y;
            && s.x == 0 && s.z == 0
            && Cong(s.y, t * (3 * (x * (d * d)) - t * t) - y * (d * (d * d)), m)
  {
    hide Mod, Cubic, XCoef, ZCoef, YForm, Sum;
    var s := Sum(b, Point(x, y, 1), Point(x, 0 - y, 1));
    var f, t, d := Cubic(b, x), 3 * (x * x) - 3, 2 * y;
    assert (0 - y) * (0 - y) == y * y;
    SumLinear(m, b, x, y, x, 0 - y);
    SumAtOne(b, x, y, x, 0 - y);
    assert x * (0 - y) + x * y == 0;
    SumOpposite(y * (0 - y), x + x - b, b * (x + x) - 3 - x * x, x * x - 1);
    var k := Excess(m, b, x, y);
    DoubleCoefs(b, x);
    CongAdd(0, 0, 0, 0, m);
    OppositeOf(f, t, x, y, k);
    Absorb(t * (3 * (x * (d * d)) - t * t) - y * (d * (d * d)), YForm(b, x, x), 12 * (t * x) - 16 * f - 8 * k, k, 0, 0,
      m);
  }

  lemma SumOpposite(yy: int, u: int, v: int, w: int)
    ensures SumOf(0, 0, yy, u, v, w).x == 0 && SumOf(0, 0, yy, u, v, w).z == 0
  {}

  lemma OppositeOf(f: int, t: int, x: int, y: int, k: int)
    requires y * y == f + k
    ensures var d := 2 * y;
            t * (3 * (x * (d * d)) - t * t) - y * (d * (d * d)) ==
            t * (4 * (x * f) - (t * t - 8 * (x * f))) - 8 * (f * f) + (12 * (t * x) - 16 * f - 8 * k) * k
  {
    assert 2 * y * (2 * y) == 4 * f + 4 * k;
    assert y * (2 * y * (4 * f + 4 * k)) == 8 * ((f + k) * (f + k)) by {
      assert y * (2 * y) == 2 * (f + k);
      Regroup(y, 2 * y, 4 * f + 4 * k);
    }
    assert (f + k) * (f + k) == f * f + 2 * (f * k) + k * k;
    assert 3 * (x * (4 * f + 4 * k)) == 12 * (x * f) + 12 * (x * k);
    OppositeT(t, x * f, x * k, t * t);
    assert (12 * (t * x) - 16 * f - 8 * k) * k == 12 * (t * (x * k)) - 16 * (f * k) - 8 * (k * k) by {
      OppositeK(t, x, f, k);
    }
  }

  lemma Regroup(a: int, b: int, c: int)
    ensures a * (b * c) == a * b * c
  {}

  lemma OppositeT(t: int, p: int, q: int, r: int)
    ensures t * (12 * p + 12 * q - r) == t * (12 * p - r) + 12 * (t * q)
  {}

  lemma OppositeK(t: int, x: int, f: int, k: int)
    ensures (12 * (t * x) - 16 * f - 8 * k) * k == 12 * (t * (x * k)) - 16 * (f * k) - 8 * (k * k)
  {}
}
