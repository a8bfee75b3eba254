/**
 * The curve y^2 = x^3 - 3x + b over the residues modulo a prime with the chord and tangent law of the
 * textbooks, and that the complete projective sum computes exactly this law.
 */
module NistCurve {
  import opened Arith
  import opened NistChord
  import opened NistPoint
  import opened NumberTheory

  /** A point of the curve: the one at infinity, or a pair of residues. */
  datatype Place = Origin | At(x: nat, y: nat)

  ghost predicate Placed(m: nat, b: int, p: Place)
    requires m > 0
  {
    p.At? ==> p.x < m && p.y < m && OnCubic(m, b, p.x, p.y)
  }

  /** l is the slope of the chord through p and q, or of the tangent when they have one x. */
  ghost predicate Slope(m: nat, p: Place, q: Place, l: int)
    requires m > 0 && p.At? && q.At?
  {
    if p.x == q.x then Cong(l * (2 * p.y), 3 * (p.x * p.x) - 3, m) else Cong(l * (q.x - p.x), q.y - p.y, m)
  }

  ghost predicate Third(m: nat, p: Place, q: Place, r: Place, l: int)
    requires m > 0 && p.At? && q.At? && r.At?
  {
    Slope(m, p, q, l) && Cong(r.x, l * l - p.x - q.x, m) && Cong(r.y, l * (p.x - r.x) - p.y, m)
  }

  /** The group law: infinity is neutral, opposite points sum to it, and otherwise chord or tangent decides. */
  ghost predicate ChordTangent(m: nat, p: Place, q: Place, r: Place)
    requires m > 0
  {
    if p == Origin then r == q
    else if q == Origin then r == p
    else if p.x == q.x && Cong(p.y + q.y, 0, m) then r == Origin
    else r.At? && r.x < m && r.y < m && exists l: int :: Third(m, p, q, r, l)
  }

  // ── Residues modulo a prime ───────────────────────────────────────

  lemma UnitInverse(m: nat, a: int) returns (i: int)
    requires Prime(m) && !Divides(m, a)
    ensures m > 0 && Cong(a * i, 1, m)
  {
    hide Mod, Prime;
    PrimeAboveOne(m);
    Fermat(a, m);
    i := Pow(a, m - 2);
    assert Pow(a, m - 1) == a * Pow(a, m - 2);
  }

  lemma CancelUnit(m: nat, a: int, b: int, c: int)
    requires Prime(m) && !Divides(m, c) && Cong(a * c, b * c, m)
    ensures Cong(a, b, m)
  {
    hide Mod, Prime, Divides;
    var i := UnitInverse(m, c);
    CongCancel(a, b, c, i, m);
  }

  lemma UnitProduct(m: nat, a: int, b: int)
    requires Prime(m) && !Divides(m, a) && !Divides(m, b)
    ensures !Divides(m, a * b)
  {
    hide Mod, Prime, Divides;
    PrimeAboveOne(m);
    if Divides(m, a * b) { Euclid(m, a, b); }
  }

  lemma UnitCong(m: nat, a: int, b: int)
    requires m > 0 && Cong(a, b, m)
    ensures Divides(m, a) <==> Divides(m, b)
  {}

  lemma DistinctUnit(m: nat, x: nat, z: nat)
    requires x < m && z < m && x != z
    ensures !Divides(m, z - x)
  {
    hide Mod;
    if Divides(m, z - x) {
      CongAdd(z - x, 0, x, x, m);
      CongSmall(x, z, m);
    }
  }

  lemma SmallUnit(m: nat, y: nat)
    requires 0 < y < m
    ensures !Divides(m, y)
  {
    DistinctUnit(m, 0, y);
  }

  /** The curve equation only looks at residues. */
  lemma OnCubicCong(m: nat, b: int, x: int, y: int, x': int, y': int)
    requires m > 0 && OnCubic(m, b, x, y) && Cong(x, x', m) && Cong(y, y', m)
    ensures OnCubic(m, b, x', y')
  {
    hide Mod;
    CongMul(y, y', y, y', m);
    CongMul(x, x', x, x', m);
    CongMul(x * x, x' * x', x, x', m);
    CongMul(3, 3, x, x', m);
    CongAdd(x * x * x, x' * x' * x', 3 * x, 3 * x', m);
    CongAdd(x * x * x - 3 * x, x' * x' * x' - 3 * x', b, b, m);
  }

  // ── The third point of a line is on the curve ─────────────────────

  /** What is left of the cubic minus the line's square after its three roots are taken out. */
  function Residual(b: int, x: int, y: int, z: int, l: int, t: int): int
  {
    var w := l * l - x - z;
    (-3 - 2 * (l * (y - l * x)) - (x * z + x * w + z * w)) * t + (b - (y - l * x) * (y - l * x) + x * (z * w))
  }

  lemma LineCubic(b: int, x: int, y: int, z: int, l: int, t: int)
    ensures Cubic(b, t) - (y + l * (t - x)) * (y + l * (t - x)) ==
            (t - x) * ((t - z) * (t - (l * l - x - z))) + Residual(b, x, y, z, l, t)
  {
    var w, h := l * l - x - z, y - l * x;
    assert y + l * (t - x) == h + l * t by { assert l * (t - x) == l * t - l * x; }
    assert (h + l * t) * (h + l * t) == h * h + 2 * (l * h * t) + l * l * (t * t) by { SquareOf(h, l, t); }
    assert (t - x) * ((t - z) * (t - w)) ==
           t * t * t - (x + z + w) * (t * t) + (x * z + x * w + z * w) * t - x * (z * w) by { RootsOf(t, x, z, w); }
    var e := x * z + x * w + z * w;
    assert (-3 - 2 * (l * h) - e) * t == -3 * t - 2 * (l * h * t) - e * t by {
      SpreadThree(l * h, x * z + x * w + z * w, t);
    }
  }

  lemma SquareOf(h: int, l: int, t: int)
    ensures (h + l * t) * (h + l * t) == h * h + 2 * (l * h * t) + l * l * (t * t)
  {}

  lemma RootsOf(t: int, x: int, z: int, w: int)
    ensures (t - x) * ((t - z) * (t - w)) ==
            t * t * t - (x + z + w) * (t * t) + (x * z + x * w + z * w) * t - x * (z * w)
  {}

  lemma SpreadThree(p: int, q: int, t: int)
    ensures (-3 - 2 * p - q) * t == -3 * t - 2 * (p * t) - q * t
  {}

  /** A line that meets the curve in x and z, or touches it there, meets it a third time at l^2 - x - z. */
  lemma LineThird(m: nat, b: int, x: int, y: int, z: int, l: int)
    requires Prime(m) && OnCubic(m, b, x, y)
    requires if Cong(x, z, m) then x == z && Cong(l * (2 * y), 3 * (x * x) - 3, m)
             else OnCubic(m, b, z, y + l * (z - x))
    ensures var w := l * l - x - z; OnCubic(m, b, w, l * (x - w) - y)
  {
    hide Mod, Prime, Cubic, Residual;
    var w := l * l - x - z;
    ResidualZero(m, b, x, y, z, l);
    LineCubic(b, x, y, z, l, w);
    assert (w - x) * ((w - z) * (w - w)) == 0;
    var u := y + l * (w - x);
    assert u * u == (l * (x - w) - y) * (l * (x - w) - y) by { assert l * (x - w) == -(l * (w - x)); }
    CongAdd(Residual(b, x, y, z, l, w), 0, u * u, u * u, m);
  }

  /** Where the line meets the curve the residual vanishes; it is linear, so it vanishes everywhere. */
  lemma ResidualZero(m: nat, b: int, x: int, y: int, z: int, l: int)
    requires Prime(m) && OnCubic(m, b, x, y)
    requires if Cong(x, z, m) then x == z && Cong(l * (2 * y), 3 * (x * x) - 3, m)
             else OnCubic(m, b, z, y + l * (z - x))
    ensures forall t: int :: Cong(Residual(b, x, y, z, l, t), 0, m)
  {
    hide Mod, Prime, Cubic;
    var w, h := l * l - x - z, y - l * x;
    var a, c := -3 - 2 * (l * h) - (x * z + x * w + z * w), b - h * h + x * (z * w);
    ResidualAtRoot(m, b, x, y, z, l);
    if Cong(x, z, m) {
      TangentResidual(x, y, l);
      CongAdd(3 * (x * x) - 3, l * (2 * y), l * (2 * y), l * (2 * y), m);
    } else {
      CongAdd(a * z + c, 0, a * x + c, 0, m);
      assert a * z - a * x == a * (z - x);
      NotCongUnit(m, x, z);
      CancelUnit(m, a, 0, z - x);
    }
    LinearZero(m, a, c, x);
    forall t: int ensures Cong(Residual(b, x, y, z, l, t), 0, m) { assert Residual(b, x, y, z, l, t) == a * t + c; }
  }

  lemma NotCongUnit(m: nat, x: int, z: int)
    requires m > 0 && !Cong(x, z, m)
    ensures !Divides(m, z - x)
  {
    hide Mod;
    if Divides(m, z - x) { CongAdd(z - x, 0, x, x, m); }
  }

  lemma LinearZero(m: nat, a: int, c: int, x: int)
    requires m > 0 && Cong(a, 0, m) && Cong(a * x + c, 0, m)
    ensures forall t: int :: Cong(a * t + c, 0, m)
  {
    hide Mod;
    CongMul(a, 0, x, x, m);
    CongAdd(a * x + c, 0, a * x, 0, m);
    forall t: int ensures Cong(a * t + c, 0, m) {
      CongMul(a, 0, t, t, m);
      CongAdd(a * t, 0, c, 0, m);
    }
  }

  lemma ResidualAtRoot(m: nat, b: int, x: int, y: int, z: int, l: int)
    requires m > 0 && OnCubic(m, b, x, y) && (!Cong(x, z, m) ==> OnCubic(m, b, z, y + l * (z - x)))
    ensures Cong(Residual(b, x, y, z, l, x), 0, m)
    ensures !Cong(x, z, m) ==> Cong(Residual(b, x, y, z, l, z), 0, m)
  {
    hide Mod, Cubic, Residual;
    LineCubic(b, x, y, z, l, x);
    var w := l * l - x - z;
    assert (x - x) * ((x - z) * (x - w)) == 0 && l * (x - x) == 0;
    CongAdd(Cubic(b, x), y * y, y * y, y * y, m);
    if !Cong(x, z, m) {
      LineCubic(b, x, y, z, l, z);
      assert (z - x) * ((z - z) * (z - w)) == 0;
      var u := y + l * (z - x);
      CongAdd(Cubic(b, z), u * u, u * u, u * u, m);
    }
  }

  lemma TangentResidual(x: int, y: int, l: int)
    ensures var w, h := l * l - x - x, y - l * x;
            -3 - 2 * (l * h) - (x * x + x * w + x * w) == 3 * (x * x) - 3 - l * (2 * y)
  {
    assert l * (y - l * x) == l * y - l * l * x;
    assert x * (l * l - x - x) == l * l * x - 2 * (x * x);
  }

  /** Chord and tangent stay on the curve. */
  lemma LawClosed(m: nat, b: int, p: Place, q: Place, r: Place)
    requires Prime(m) && Placed(m, b, p) && Placed(m, b, q) && ChordTangent(m, p, q, r)
    ensures Placed(m, b, r)
  {
    hide Mod, Prime, OnCubic;
    PrimeAboveOne(m);
    if p.At? && q.At? && r.At? {
      var l: int :| Third(m, p, q, r, l);
      if p.x != q.x {
        LineMeets(m, b, p, q, l);
        DistinctCong(m, p.x, q.x);
      }
      LineThird(m, b, p.x, p.y, q.x, l);
      var w := l * l - p.x - q.x;
      CongAdd(p.x, p.x, w, r.x, m);
      CongMul(l, l, p.x - w, p.x - r.x, m);
      CongAdd(l * (p.x - w), l * (p.x - r.x), p.y, p.y, m);
      OnCubicCong(m, b, w, l * (p.x - w) - p.y, r.x, r.y);
    }
  }

  lemma DistinctCong(m: nat, x: nat, z: nat)
    requires x < m && z < m && x != z
    ensures !Cong(x, z, m)
  {
    hide Mod;
    if Cong(x, z, m) { CongSmall(x, z, m); }
  }

  lemma LineMeets(m: nat, b: int, p: Place, q: Place, l: int)
    requires m > 0 && p.At? && q.At? && p.x != q.x && Slope(m, p, q, l) && Placed(m, b, q)
    ensures OnCubic(m, b, q.x, p.y + l * (q.x - p.x))
  {
    hide Mod, OnCubic;
    CongAdd(p.y, p.y, q.y - p.y, l * (q.x - p.x), m);
    OnCubicCong(m, b, q.x, q.y, q.x, p.y + l * (q.x - p.x));
  }

  /** Over one x lie opposite points only. */
  lemma SameX(m: nat, b: int, p: Place, q: Place)
    requires Prime(m) && Placed(m, b, p) && Placed(m, b, q) && p.At? && q.At? && p.x == q.x
    ensures m > 0 && (p.y == q.y || Cong(p.y + q.y, 0, m))
  {
    hide Mod, Prime;
    PrimeAboveOne(m);
    CongAdd(p.y * p.y, q.y * q.y, q.y * q.y, q.y * q.y, m);
    assert (p.y + q.y) * (q.y - p.y) == q.y * q.y - p.y * p.y;
    CongAdd(q.y * q.y, p.y * p.y, p.y * p.y, p.y * p.y, m);
    if p.y != q.y {
      DistinctUnit(m, p.y, q.y);
      Euclid(m, p.y + q.y, q.y - p.y);
    }
  }

  // ── The complete sum is chord and tangent ─────────────────────────

  function Lift(p: Place): Point<int> { if p.At? then Point(p.x, p.y, 1) else Point(0, 1, 0) }

  /** The triple p is s times the place's own triple. */
  ghost predicate Shows(m: nat, p: Point<int>, s: int, q: Place)
    requires m > 0
  {
    Cong(p.x, s * Lift(q).x, m) && Cong(p.y, s * Lift(q).y, m) && Cong(p.z, s * Lift(q).z, m)
  }

  /** No point of the curve is its own opposite but infinity. */
  ghost predicate NoTwist(m: nat, b: int)
    requires m > 0
  {
    forall p: Place :: Placed(m, b, p) && p.At? ==> p.y != 0
  }

  /** From the laws in e/d to the slope l with l d = e. */
  lemma FromLaw(m: nat, sx: int, sy: int, sz: int, d: int, e: int, l: int, p: Place, q: Place) returns (r: Place)
    requires Prime(m) && p.At? && q.At? && !Divides(m, d) && !Divides(m, sz) && Cong(l * d, e, m)
    requires Cong(sx * (d * d), sz * (e * e - (p.x + q.x) * (d * d)), m)
    requires Cong(sy * d, e * (p.x * sz - sx) - p.y * (sz * d), m)
    ensures r.At? && r.x < m && r.y < m && Shows(m, Point(sx, sy, sz), sz, r)
    ensures Cong(r.x, l * l - p.x - q.x, m) && Cong(r.y, l * (p.x - r.x) - p.y, m)
  {
    hide Mod, Prime, Divides;
    PrimeAboveOne(m);
    var i := UnitInverse(m, sz);
    r := At(Mod(sx * i, m), Mod(sy * i, m));
    QuotientBack(m, sx, sz, i);
    QuotientBack(m, sy, sz, i);
    LawX(m, sx, sz, d, e, l, p.x + q.x);
    LawY(m, sx, sy, sz, d, e, l, p.x, p.y);
    DivideX(m, sx, sz, i, l * l - (p.x + q.x));
    DivideY(m, sx, sy, sz, i, l, p.x, p.y);
    CongMod(sx * i, m);
    CongMod(sy * i, m);
    CongMul(l, l, p.x - r.x, p.x - sx * i, m) by { CongAdd(p.x, p.x, r.x, sx * i, m); }
    CongAdd(l * (p.x - r.x), l * (p.x - sx * i), p.y, p.y, m);
    assert sz * 1 == sz;
  }

  lemma QuotientBack(m: nat, a: int, z: int, i: int)
    requires m > 0 && Cong(z * i, 1, m)
    ensures Cong(a, z * Mod(a * i, m), m)
  {
    hide Mod;
    CongMod(a * i, m);
    CongMul(z, z, Mod(a * i, m), a * i, m);
    CongMul(a, a, z * i, 1, m);
    assert z * (a * i) == a * (z * i) && a * 1 == a;
  }

  lemma LawX(m: nat, sx: int, sz: int, d: int, e: int, l: int, t: int)
    requires Prime(m) && !Divides(m, d) && Cong(l * d, e, m)
    requires Cong(sx * (d * d), sz * (e * e - t * (d * d)), m)
    ensures Cong(sx, sz * (l * l - t), m)
  {
    hide Mod, Prime, Divides;
    PrimeAboveOne(m);
    CongMul(l * d, e, l * d, e, m);
    assert l * d * (l * d) == l * l * (d * d) by { Squares(l, d, l * l, d * d); }
    CongAdd(l * l * (d * d), e * e, t * (d * d), t * (d * d), m);
    CongMul(sz, sz, l * l * (d * d) - t * (d * d), e * e - t * (d * d), m);
    assert sz * (l * l * (d * d) - t * (d * d)) == sz * (l * l - t) * (d * d) by { PullOut(sz, l * l, t, d * d); }
    UnitProduct(m, d, d);
    CancelUnit(m, sx, sz * (l * l - t), d * d);
  }

  lemma PullOut(s: int, a: int, t: int, q: int)
    ensures s * (a * q - t * q) == s * (a - t) * q
  {}

  lemma LawY(m: nat, sx: int, sy: int, sz: int, d: int, e: int, l: int, x: int, y: int)
    requires Prime(m) && !Divides(m, d) && Cong(l * d, e, m)
    requires Cong(sy * d, e * (x * sz - sx) - y * (sz * d), m)
    ensures Cong(sy, l * (x * sz - sx) - y * sz, m)
  {
    hide Mod, Prime, Divides;
    PrimeAboveOne(m);
    CongMul(l * d, e, x * sz - sx, x * sz - sx, m);
    CongAdd(l * d * (x * sz - sx), e * (x * sz - sx), y * (sz * d), y * (sz * d), m);
    LawYPull(l, x * sz - sx, y, sz, d);
    CancelUnit(m, sy, l * (x * sz - sx) - y * sz, d);
  }

  lemma LawYPull(l: int, g: int, y: int, z: int, d: int)
    ensures l * d * g - y * (z * d) == (l * g - y * z) * d
  {}

  lemma DivideX(m: nat, sx: int, sz: int, i: int, w: int)
    requires m > 0 && Cong(sz * i, 1, m) && Cong(sx, sz * w, m)
    ensures Cong(sx * i, w, m)
  {
    hide Mod;
    CongMul(sx, sz * w, i, i, m);
    CongMul(sz * i, 1, w, w, m);
    assert sz * w * i == sz * i * w by { Turn(sz, w, i); }
  }

  lemma Turn(a: int, b: int, c: int)
    ensures a * b * c == a * c * b
  {}

  lemma DivideY(m: nat, sx: int, sy: int, sz: int, i: int, l: int, x: int, y: int)
    requires m > 0 && Cong(sz * i, 1, m) && Cong(sy, l * (x * sz - sx) - y * sz, m)
    ensures Cong(sy * i, l * (x - sx * i) - y, m)
  {
    hide Mod;
    CongMul(sy, l * (x * sz - sx) - y * sz, i, i, m);
    DivideTerms(l, x, sx, y, sz, i);
    CongMul(l * x - y, l * x - y, sz * i, 1, m);
    CongAdd((l * x - y) * (sz * i), (l * x - y) * 1, l * (sx * i), l * (sx * i), m);
    assert (l * x - y) * 1 - l * (sx * i) == l * (x - sx * i) - y by {
      assert l * (x - sx * i) == l * x - l * (sx * i);
    }
  }

  lemma DivideTerms(l: int, x: int, sx: int, y: int, sz: int, i: int)
    ensures (l * (x * sz - sx) - y * sz) * i == (l * x - y) * (sz * i) - l * (sx * i)
  {}

  /** The ordinate where the line of slope l through (x, y) and over z meets the curve again, mirrored. */
  function ThirdY(x: int, y: int, z: int, l: int): int { l * (x - (l * l - x - z)) - y }

  /** A point with ordinate 0 is a twist: the third point of no line has ordinate 0. */
  lemma ThirdUnit(m: nat, b: int, x: int, y: int, z: int, l: int)
    requires Prime(m) && NoTwist(m, b) && OnCubic(m, b, x, y)
    requires if Cong(x, z, m) then x == z && Cong(l * (2 * y), 3 * (x * x) - 3, m)
             else OnCubic(m, b, z, y + l * (z - x))
    ensures !Divides(m, ThirdY(x, y, z, l))
  {
    hide Mod, Prime, OnCubic;
    PrimeAboveOne(m);
    var w := l * l - x - z;
    var v := l * (x - w) - y;
    LineThird(m, b, x, y, z, l);
    CongMod(w, m);
    CongMod(v, m);
    OnCubicCong(m, b, w, v, Mod(w, m), Mod(v, m));
    assert Placed(m, b, At(Mod(w, m), Mod(v, m)));
    ModUnit(m, v);
  }

  lemma ModUnit(m: nat, v: int)
    requires m > 0 && Mod(v, m) != 0
    ensures !Divides(m, v)
  {}

  /** On a chord the sum's z is d^3 times the ordinate of the difference, so it does not vanish. */
  lemma ChordFinite(m: nat, b: int, p: Place, q: Place)
    requires Prime(m) && NoTwist(m, b) && Placed(m, b, p) && Placed(m, b, q) && p.At? && q.At? && p.x != q.x
    ensures m > 0 && !Divides(m, Sum(b, Lift(p), Lift(q)).z)
  {
    hide Mod, Prime, OnCubic, Sum, NoTwist, Divides;
    PrimeAboveOne(m);
    DistinctUnit(m, p.x, q.x);
    var v := MirrorOrdinate(m, b, p, q, q.x - p.x, p.y + q.y);
    ChordScale(m, b, p.x, p.y, q.x, q.y);
    UnitCube(m, v, q.x - p.x, Sum(b, Lift(p), Lift(q)).z);
  }

  /** The ordinate of the difference of p and q, times d^3. */
  lemma MirrorOrdinate(m: nat, b: int, p: Place, q: Place, d: int, t: int) returns (v: int)
    requires Prime(m) && NoTwist(m, b) && Placed(m, b, p) && Placed(m, b, q) && p.At? && q.At? && p.x != q.x
    requires d == q.x - p.x && t == p.y + q.y
    ensures m > 0 && !Divides(m, v)
    ensures Cong(v * (d * (d * d)), t * (t * t) - t * (d * d * (2 * p.x + q.x)) - p.y * (d * (d * d)), m)
  {
    hide Mod, Prime, OnCubic, NoTwist, Divides, ThirdY;
    PrimeAboveOne(m);
    DistinctCong(m, p.x, q.x);
    var l := MirrorSlope(m, b, p, q);
    ThirdUnit(m, b, p.x, p.y, q.x, l);
    v := ThirdY(p.x, p.y, q.x, l);
    MirrorForm(m, p.x, p.y, q.x, d, t, l);
  }

  lemma MirrorForm(m: nat, x: int, y: int, z: int, d: int, t: int, l: int)
    requires m > 0 && Cong(l * d, -t, m)
    ensures Cong(ThirdY(x, y, z, l) * (d * (d * d)), t * (t * t) - t * (d * d * (2 * x + z)) - y * (d * (d * d)), m)
  {
    hide Mod, ThirdY;
    Ordinate(m, x, y, z, d, -t, l);
    ScaleForm(t, d, x, z);
  }

  /** The chord through p and the opposite of q. */
  lemma MirrorSlope(m: nat, b: int, p: Place, q: Place) returns (l: int)
    requires Prime(m) && Placed(m, b, q) && p.At? && q.At? && p.x < m && p.x != q.x
    ensures m > 0 && Cong(l * (q.x - p.x), -(p.y + q.y), m) && OnCubic(m, b, q.x, p.y + l * (q.x - p.x))
  {
    hide Mod, Prime, OnCubic, Divides;
    PrimeAboveOne(m);
    DistinctUnit(m, p.x, q.x);
    l := UnitSlope(m, q.x - p.x, -(p.y + q.y));
    CongAdd(p.y, p.y, l * (q.x - p.x), -(p.y + q.y), m);
    Negated(m, b, q.x, q.y);
    OnCubicCong(m, b, q.x, 0 - q.y, q.x, p.y + l * (q.x - p.x));
  }

  lemma UnitSlope(m: nat, d: int, e: int) returns (l: int)
    requires Prime(m) && !Divides(m, d)
    ensures m > 0 && Cong(l * d, e, m)
  {
    hide Mod, Prime, Divides;
    var i := UnitInverse(m, d);
    l := e * i;
    assert l * d == e * (d * i) by { Turn(e, i, d); Regroup(e, d, i); }
    CongMul(e, e, d * i, 1, m);
    assert e * 1 == e;
  }

  lemma UnitCube(m: nat, v: int, d: int, z: int)
    requires Prime(m) && !Divides(m, v) && !Divides(m, d) && Cong(v * (d * (d * d)), z, m)
    ensures !Divides(m, z)
  {
    hide Mod, Prime, Divides;
    UnitProduct(m, d, d);
    UnitProduct(m, d, d * d);
    UnitProduct(m, v, d * (d * d));
    UnitCong(m, v * (d * (d * d)), z);
  }

  lemma Negated(m: nat, b: int, x: int, y: int)
    requires m > 0 && OnCubic(m, b, x, y)
    ensures OnCubic(m, b, x, 0 - y)
  {
    assert (0 - y) * (0 - y) == y * y;
  }

  /** The ordinate of the third point times d^3, for the slope e/d. */
  lemma Ordinate(m: nat, x: int, y: int, z: int, d: int, e: int, l: int)
    requires m > 0 && Cong(l * d, e, m)
    ensures Cong(ThirdY(x, y, z, l) * (d * (d * d)),
                 e * ((2 * x + z) * (d * d) - e * e) - y * (d * (d * d)), m)
  {
    hide Mod;
    CongMul(l * d, e, l * d, e, m);
    CongAdd((2 * x + z) * (d * d), (2 * x + z) * (d * d), l * d * (l * d), e * e, m);
    CongMul(l * d, e, (2 * x + z) * (d * d) - l * d * (l * d), (2 * x + z) * (d * d) - e * e, m);
    CongAdd(l * d * ((2 * x + z) * (d * d) - l * d * (l * d)), e * ((2 * x + z) * (d * d) - e * e),
            y * (d * (d * d)), y * (d * (d * d)), m);
    OrdinateOf(l, d, 2 * x + z, y);
    assert x - (l * l - x - z) == 2 * x + z - l * l;
  }

  lemma OrdinateOf(l: int, d: int, t: int, y: int)
    ensures (l * (t - l * l) - y) * (d * (d * d)) == l * d * (t * (d * d) - l * d * (l * d)) - y * (d * (d * d))
  {
    assert l * d * (l * d) == l * l * (d * d) by { Squares(l, d, l * l, d * d); }
    OrdinatePull(l, t, l * l, d, d * d);
    assert (l * (t - l * l) - y) * (d * (d * d)) == l * (t - l * l) * (d * (d * d)) - y * (d * (d * d));
  }

  lemma OrdinatePull(l: int, t: int, a: int, d: int, q: int)
    ensures l * (t - a) * (d * q) == l * d * (t * q - a * q)
  {}

  lemma ScaleForm(t: int, d: int, x: int, z: int)
    ensures -t * ((2 * x + z) * (d * d) - -t * -t) == t * (t * t) - t * (d * d * (2 * x + z))
  {
    assert -t * -t == t * t;
    assert (2 * x + z) * (d * d) == d * d * (2 * x + z);
    SpreadNeg(t, d * d * (2 * x + z), t * t);
  }

  lemma SpreadNeg(t: int, a: int, c: int)
    ensures -t * (a - c) == t * c - t * a
  {}

  /** Different x: the chord. */
  lemma ChordShows(m: nat, b: int, p: Place, q: Place) returns (r: Place, s: int)
    requires Prime(m) && NoTwist(m, b) && Placed(m, b, p) && Placed(m, b, q) && p.At? && q.At? && p.x != q.x
    ensures m > 0 && ChordTangent(m, p, q, r) && !Divides(m, s) && Shows(m, Sum(b, Lift(p), Lift(q)), s, r)
  {
    hide Mod, Prime, OnCubic, Sum, NoTwist, Divides;
    PrimeAboveOne(m);
    var t := Sum(b, Lift(p), Lift(q));
    var d, e := q.x - p.x, q.y - p.y;
    ChordFinite(m, b, p, q);
    ChordLaw(m, b, p.x, p.y, q.x, q.y);
    DistinctUnit(m, p.x, q.x);
    var l := UnitSlope(m, d, e);
    s := t.z;
    r := FromLaw(m, t.x, t.y, t.z, d, e, l, p, q);
    assert Third(m, p, q, r, l);
  }

  /** One point twice: the tangent. */
  lemma TangentShows(m: nat, b: int, p: Place) returns (r: Place, s: int)
    requires Prime(m) && m > 2 && NoTwist(m, b) && Placed(m, b, p) && p.At?
    ensures ChordTangent(m, p, p, r) && !Divides(m, s) && Shows(m, Sum(b, Lift(p), Lift(p)), s, r)
  {
    hide Mod, Prime, OnCubic, Sum, NoTwist, Divides;
    var t := Sum(b, Lift(p), Lift(p));
    var d, e := 2 * p.y, 3 * (p.x * p.x) - 3;
    OrdinateUnit(m, b, p);
    TangentLaw(m, b, p.x, p.y);
    UnitProduct(m, d, d);
    UnitProduct(m, d, d * d);
    UnitCong(m, d * (d * d), t.z);
    var l := UnitSlope(m, d, e);
    s := t.z;
    assert p.x + p.x == 2 * p.x;
    r := FromLaw(m, t.x, t.y, t.z, d, e, l, p, p);
    assert Third(m, p, p, r, l);
    NotDividedCong(m, p.y + p.y);
  }

  lemma NotDividedCong(m: nat, a: int)
    requires m > 0 && !Divides(m, a)
    ensures !Cong(a, 0, m)
  {}

  lemma OrdinateUnit(m: nat, b: int, p: Place)
    requires Prime(m) && m > 2 && NoTwist(m, b) && Placed(m, b, p) && p.At?
    ensures !Divides(m, 2 * p.y)
  {
    hide Mod, Prime;
    SmallUnit(m, p.y);
    SmallUnit(m, 2);
    UnitProduct(m, 2, p.y);
  }

  /** Opposite points: infinity. */
  lemma OppositeShows(m: nat, b: int, p: Place, q: Place) returns (s: int)
    requires Prime(m) && m > 2 && NoTwist(m, b) && Placed(m, b, p) && Placed(m, b, q)
    requires p.At? && q.At? && p.x == q.x && Cong(p.y + q.y, 0, m)
    ensures !Divides(m, s) && Shows(m, Sum(b, Lift(p), Lift(q)), s, Origin)
  {
    hide Mod, Prime, OnCubic, Sum, Divides, NoTwist;
    var mirror := Point(p.x, 0 - p.y, 1);
    OppositeFinite(m, b, p);
    CongAdd(p.y + q.y, 0, p.y, p.y, m);
    SumCong(m, b, Lift(p), Lift(q), Lift(p), mirror);
    s := Sum(b, Lift(p), mirror).y;
    assert s * 0 == 0 && s * 1 == s;
  }

  lemma OppositeFinite(m: nat, b: int, p: Place)
    requires Prime(m) && m > 2 && NoTwist(m, b) && Placed(m, b, p) && p.At?
    ensures var s := Sum(b, Lift(p), Point(p.x, 0 - p.y, 1)); s.x == 0 && s.z == 0 && !Divides(m, s.y)
  {
    hide Mod, Prime, OnCubic, Sum, Divides, NoTwist, ThirdY, IsDouble;
    var d, t, l := DoubleSlope(m, b, p);
    Ordinate(m, p.x, p.y, p.x, d, t, l);
    OppositeAt(m, b, p.x, p.y, d, t);
    OppositeUnit(m, ThirdY(p.x, p.y, p.x, l), d, t, p.x, p.y, Sum(b, Lift(p), Point(p.x, 0 - p.y, 1)).y);
  }

  /** The tangent at p. */
  lemma DoubleSlope(m: nat, b: int, p: Place) returns (d: int, t: int, l: int)
    requires Prime(m) && m > 2 && NoTwist(m, b) && Placed(m, b, p) && p.At?
    ensures IsDouble(p.x, p.y, d, t) && !Divides(m, d) && Cong(l * d, t, m) && !Divides(m, ThirdY(p.x, p.y, p.x, l))
  {
    hide Mod, Prime, OnCubic, Divides, NoTwist, ThirdY;
    d, t := 2 * p.y, 3 * (p.x * p.x) - 3;
    OrdinateUnit(m, b, p);
    l := UnitSlope(m, d, t);
    ThirdUnit(m, b, p.x, p.y, p.x, l);
  }

  ghost predicate IsDouble(x: int, y: int, d: int, t: int) { d == 2 * y && t == 3 * (x * x) - 3 }

  lemma OppositeAt(m: nat, b: int, x: int, y: int, d: int, t: int)
    requires m > 0 && OnCubic(m, b, x, y) && IsDouble(x, y, d, t)
    ensures var s := Sum(b, Point(x, y, 1), Point(x, 0 - y, 1));
            s.x == 0 && s.z == 0 && Cong(s.y, t * (3 * (x * (d * d)) - t * t) - y * (d * (d * d)), m)
  {
    hide Mod, OnCubic, Sum;
    OppositeLaw(m, b, x, y);
  }

  lemma OppositeUnit(m: nat, v: int, d: int, t: int, x: int, y: int, s: int)
    requires Prime(m) && !Divides(m, v) && !Divides(m, d)
    requires Cong(v * (d * (d * d)), t * ((2 * x + x) * (d * d) - t * t) - y * (d * (d * d)), m)
    requires Cong(s, t * (3 * (x * (d * d)) - t * t) - y * (d * (d * d)), m)
    ensures !Divides(m, s)
  {
    hide Mod, Prime, Divides;
    Thrice(x, d * d);
    UnitCube(m, v, d, s);
  }

  lemma Thrice(x: int, q: int)
    ensures (2 * x + x) * q == 3 * (x * q)
  {}

  lemma ProductSum(a: int, b: int, c: int, d: int, a': int, b': int, c': int, d': int, m: nat)
    requires m > 0 && Cong(a, a', m) && Cong(b, b', m) && Cong(c, c', m) && Cong(d, d', m)
    ensures Cong(a * b + c * d, a' * b' + c' * d', m)
  {
    hide Mod;
    CongMul(a, a', b, b', m);
    CongMul(c, c', d, d', m);
    CongAdd(a * b, a' * b', c * d, c' * d', m);
  }

  ghost predicate CongPoint(m: nat, p: Point<int>, q: Point<int>)
    requires m > 0
  {
    Cong(p.x, q.x, m) && Cong(p.y, q.y, m) && Cong(p.z, q.z, m)
  }

  /** The sum only looks at residues. */
  lemma SumCong(m: nat, b: int, p: Point<int>, q: Point<int>, p': Point<int>, q': Point<int>)
    requires m > 0 && CongPoint(m, p, p') && CongPoint(m, q, q')
    ensures CongPoint(m, Sum(b, p, q), Sum(b, p', q'))
  {
    hide Mod;
    ProductSum(p.x, q.y, q.x, p.y, p'.x, q'.y, q'.x, p'.y, m);
    ProductSum(p.y, q.z, q.y, p.z, p'.y, q'.z, q'.y, p'.z, m);
    ProductSum(p.x, q.z, q.x, p.z, p'.x, q'.z, q'.x, p'.z, m);
    CongMul(p.x, p'.x, q.x, q'.x, m);
    CongMul(p.y, p'.y, q.y, q'.y, m);
    CongMul(p.z, p'.z, q.z, q'.z, m);
    var xz, xz', zz, zz', xx, xx' := p.x * q.z + q.x * p.z, p'.x * q'.z + q'.x * p'.z, p.z * q.z, p'.z * q'.z,
        p.x * q.x, p'.x * q'.x;
    CongMul(b, b, zz, zz', m);
    CongMul(b, b, xz, xz', m);
    CongMul(3, 3, zz, zz', m);
    CongAdd(xz, xz', b * zz, b * zz', m);
    CongAdd(b * xz, b * xz', 3 * zz, 3 * zz', m);
    CongAdd(b * xz - 3 * zz, b * xz' - 3 * zz', xx, xx', m);
    CongAdd(xx, xx', zz, zz', m);
    SumOfCong(m, p.x * q.y + q.x * p.y, p.y * q.z + q.y * p.z, p.y * q.y, xz - b * zz, b * xz - 3 * zz - xx, xx - zz,
              p'.x * q'.y + q'.x * p'.y, p'.y * q'.z + q'.y * p'.z, p'.y * q'.y, xz' - b * zz', b * xz' - 3 * zz' - xx',
              xx' - zz');
  }

  lemma SumOfCong(m: nat, a: int, b: int, y: int, u: int, v: int, w: int, a': int, b': int, y': int, u': int, v': int,
                  w': int)
    requires m > 0 && Cong(a, a', m) && Cong(b, b', m) && Cong(y, y', m) && Cong(u, u', m) && Cong(v, v', m)
    requires Cong(w, w', m)
    ensures CongPoint(m, SumOf(a, b, y, u, v, w), SumOf(a', b', y', u', v', w'))
  {
    hide Mod;
    CongMul(3, 3, u, u', m);
    CongMul(3, 3, v, v', m);
    CongMul(3, 3, w, w', m);
    CongAdd(y, y', 3 * u, 3 * u', m);
    CongMul(a, a', y + 3 * u, y' + 3 * u', m);
    CongMul(b, b', 3 * v, 3 * v', m);
    CongAdd(a * (y + 3 * u), a' * (y' + 3 * u'), b * (3 * v), b' * (3 * v'), m);
    CongMul(b, b', y - 3 * u, y' - 3 * u', m);
    CongMul(a, a', 3 * w, 3 * w', m);
    CongAdd(b * (y - 3 * u), b' * (y' - 3 * u'), a * (3 * w), a' * (3 * w'), m);
    CongMul(y + 3 * u, y' + 3 * u', y - 3 * u, y' - 3 * u', m);
    CongMul(3 * w, 3 * w', 3 * v, 3 * v', m);
    CongAdd((y + 3 * u) * (y - 3 * u), (y' + 3 * u') * (y' - 3 * u'), 3 * w * (3 * v), 3 * w' * (3 * v'), m);
  }

  /** Any two places: the complete sum of their triples shows the place that chord and tangent give. */
  lemma SumShows(m: nat, b: int, p: Place, q: Place) returns (r: Place, s: int)
    requires Prime(m) && m > 2 && NoTwist(m, b) && Placed(m, b, p) && Placed(m, b, q)
    ensures ChordTangent(m, p, q, r) && Placed(m, b, r)
    ensures !Divides(m, s) && Shows(m, Sum(b, Lift(p), Lift(q)), s, r)
  {
    hide Mod, Prime, OnCubic, Sum, Divides, NoTwist, Shows, ChordTangent;
    if p == Origin || q == Origin {
      r, s := NeutralShows(m, b, p, q);
    } else if p.x != q.x {
      r, s := ChordShows(m, b, p, q);
    } else {
      SameX(m, b, p, q);
      if Cong(p.y + q.y, 0, m) {
        s := OppositeShows(m, b, p, q);
        r := Origin;
        OppositeIsThird(m, p, q);
      } else {
        r, s := TangentShows(m, b, p);
      }
    }
    LawClosed(m, b, p, q, r);
  }

  lemma OppositeIsThird(m: nat, p: Place, q: Place)
    requires m > 0 && p.At? && q.At? && p.x == q.x && Cong(p.y + q.y, 0, m)
    ensures ChordTangent(m, p, q, Origin)
  {}

  lemma NeutralShows(m: nat, b: int, p: Place, q: Place) returns (r: Place, s: int)
    requires Prime(m) && m > 2 && NoTwist(m, b) && Placed(m, b, p) && Placed(m, b, q) && (p == Origin || q == Origin)
    ensures ChordTangent(m, p, q, r) && !Divides(m, s) && Shows(m, Sum(b, Lift(p), Lift(q)), s, r)
  {
    hide Mod, Prime, OnCubic, Sum, Divides, NoTwist, Shows, Lift;
    if q == Origin {
      r := p;
      s := InfinityShows(m, b, p);
    } else {
      SumCommutes(b, Lift(p), Lift(q));
      r := q;
      s := InfinityShows(m, b, q);
    }
  }

  lemma InfinityShows(m: nat, b: int, p: Place) returns (s: int)
    requires Prime(m) && m > 2 && NoTwist(m, b) && Placed(m, b, p)
    ensures !Divides(m, s) && Shows(m, Sum(b, Lift(p), Lift(Origin)), s, p)
  {
    hide Mod, Prime, OnCubic, Sum, Divides;
    SmallUnit(m, 1);
    SumInfinity(b, Lift(p));
    s := Lift(p).y;
    if p.At? { SmallUnit(m, p.y); }
    var l := Lift(p);
    assert l.x * s == s * l.x && l.z * s == s * l.z;
  }

  // ── Triples ───────────────────────────────────────────────────────

  function Times(s: int, p: Point<int>): Point<int> { Point(s * p.x, s * p.y, s * p.z) }

  /** The complete sum is quadratic in each of its points. */
  lemma SumTimes(b: int, s: int, p: Point<int>, t: int, q: Point<int>)
    ensures Sum(b, Times(s, p), Times(t, q)) == Times(s * t * (s * t), Sum(b, p, q))
  {
    hide Sum, SumOf, Times;
    var k := s * t;
    var xy, yz, xz := p.x * q.y + q.x * p.y, p.y * q.z + q.y * p.z, p.x * q.z + q.x * p.z;
    var xx, yy, zz := p.x * q.x, p.y * q.y, p.z * q.z;
    TimesProducts(s, p, t, q);
    SumFrom(b, p, q, xy, yz, xz, xx, yy, zz);
    SumFrom(b, Times(s, p), Times(t, q), k * xy, k * yz, k * xz, k * xx, k * yy, k * zz);
    TimesForms(k, b, xz, zz, xx);
    SumOfTimes(k, xy, yz, yy, xz - b * zz, b * xz - 3 * zz - xx, xx - zz);
  }

  lemma TimesProducts(s: int, p: Point<int>, t: int, q: Point<int>)
    ensures var k, u, v := s * t, Times(s, p), Times(t, q);
            && u.x * v.y + v.x * u.y == k * (p.x * q.y + q.x * p.y)
            && u.y * v.z + v.y * u.z == k * (p.y * q.z + q.y * p.z)
            && u.x * v.z + v.x * u.z == k * (p.x * q.z + q.x * p.z)
            && u.x * v.x == k * (p.x * q.x) && u.y * v.y == k * (p.y * q.y) && u.z * v.z == k * (p.z * q.z)
  {
    PairTimes(s, p.x, t, q.y, q.x, p.y);
    PairTimes(s, p.y, t, q.z, q.y, p.z);
    PairTimes(s, p.x, t, q.z, q.x, p.z);
    OneTimes(s, p.x, t, q.x);
    OneTimes(s, p.y, t, q.y);
    OneTimes(s, p.z, t, q.z);
  }

  lemma TimesForms(k: int, b: int, xz: int, zz: int, xx: int)
    ensures k * xz - b * (k * zz) == k * (xz - b * zz)
    ensures b * (k * xz) - 3 * (k * zz) - k * xx == k * (b * xz - 3 * zz - xx)
    ensures k * xx - k * zz == k * (xx - zz)
  {
    Gather(k, xz, b, zz);
    Gather3(k, b, xz, zz, xx);
  }

  lemma SumFrom(b: int, p: Point<int>, q: Point<int>, xy: int, yz: int, xz: int, xx: int, yy: int, zz: int)
    requires xy == p.x * q.y + q.x * p.y && yz == p.y * q.z + q.y * p.z && xz == p.x * q.z + q.x * p.z
    requires xx == p.x * q.x && yy == p.y * q.y && zz == p.z * q.z
    ensures Sum(b, p, q) == SumOf(xy, yz, yy, xz - b * zz, b * xz - 3 * zz - xx, xx - zz)
  {
    hide SumOf;
  }

  lemma PairTimes(s: int, a: int, t: int, b: int, c: int, d: int)
    ensures s * a * (t * b) + t * c * (s * d) == s * t * (a * b + c * d)
  {
    OneTimes(s, a, t, b);
    OneTimes(t, c, s, d);
    assert t * s == s * t;
  }

  lemma OneTimes(s: int, a: int, t: int, b: int)
    ensures s * a * (t * b) == s * t * (a * b)
  {}

  lemma Gather(k: int, x: int, b: int, z: int)
    ensures k * x - b * (k * z) == k * (x - b * z)
  {}

  lemma Gather3(k: int, b: int, x: int, z: int, w: int)
    ensures b * (k * x) - 3 * (k * z) - k * w == k * (b * x - 3 * z - w)
  {}

  lemma SumOfTimes(k: int, a: int, b: int, y: int, u: int, v: int, w: int)
    ensures SumOf(k * a, k * b, k * y, k * u, k * v, k * w) == Times(k * k, SumOf(a, b, y, u, v, w))
  {
    TwoTimes(k, a, y, u, b, v);
    assert (k * y + 3 * (k * u)) * (k * y - 3 * (k * u)) == k * k * ((y + 3 * u) * (y - 3 * u)) by {
      assert k * y + 3 * (k * u) == k * (y + 3 * u) && k * y - 3 * (k * u) == k * (y - 3 * u);
      OneTimes(k, y + 3 * u, k, y - 3 * u);
    }
    assert 3 * (k * w) * (3 * (k * v)) == k * k * (3 * w * (3 * v)) by { NineTimes(k, w, v); }
    assert k * k * ((y + 3 * u) * (y - 3 * u)) + k * k * (3 * w * (3 * v)) ==
           k * k * ((y + 3 * u) * (y - 3 * u) + 3 * w * (3 * v));
    ThreeTimes(k, b, y, u, a, w);
  }

  lemma NineTimes(k: int, w: int, v: int)
    ensures 3 * (k * w) * (3 * (k * v)) == k * k * (3 * w * (3 * v))
  {}

  lemma TwoTimes(k: int, a: int, y: int, u: int, b: int, v: int)
    ensures k * a * (k * y + 3 * (k * u)) - k * b * (3 * (k * v)) == k * k * (a * (y + 3 * u) - b * (3 * v))
  {
    assert k * y + 3 * (k * u) == k * (y + 3 * u) && 3 * (k * v) == k * (3 * v);
    OneTimes(k, a, k, y + 3 * u);
    OneTimes(k, b, k, 3 * v);
  }

  lemma ThreeTimes(k: int, b: int, y: int, u: int, a: int, w: int)
    ensures k * b * (k * y - 3 * (k * u)) + k * a * (3 * (k * w)) == k * k * (b * (y - 3 * u) + a * (3 * w))
  {
    assert k * y - 3 * (k * u) == k * (y - 3 * u) && 3 * (k * w) == k * (3 * w);
    OneTimes(k, b, k, y - 3 * u);
    OneTimes(k, a, k, 3 * w);
  }

  /** Triples of places sum to a triple of the places' sum. */
  lemma ShownSum(m: nat, b: int, p: Point<int>, s: int, pp: Place, q: Point<int>, t: int, qq: Place)
      returns (r: Place, k: int)
    requires Prime(m) && m > 2 && NoTwist(m, b) && Placed(m, b, pp) && Placed(m, b, qq)
    requires !Divides(m, s) && Shows(m, p, s, pp) && !Divides(m, t) && Shows(m, q, t, qq)
    ensures ChordTangent(m, pp, qq, r) && Placed(m, b, r) && !Divides(m, k) && Shows(m, Sum(b, p, q), k, r)
  {
    hide Mod, Prime, OnCubic, Sum, Divides, NoTwist, ChordTangent, Lift;
    var l;
    r, l := SumShows(m, b, pp, qq);
    SumCong(m, b, p, q, Times(s, Lift(pp)), Times(t, Lift(qq)));
    SumTimes(b, s, Lift(pp), t, Lift(qq));
    var st := s * t;
    UnitProduct(m, s, t);
    UnitProduct(m, st, st);
    UnitProduct(m, st * st, l);
    k := st * st * l;
    var z := Sum(b, Lift(pp), Lift(qq));
    ShowsTimes(m, st * st, z.x, l, Lift(r).x);
    ShowsTimes(m, st * st, z.y, l, Lift(r).y);
    ShowsTimes(m, st * st, z.z, l, Lift(r).z);
  }

  lemma ShowsTimes(m: nat, k: int, z: int, l: int, a: int)
    requires m > 0 && Cong(z, l * a, m)
    ensures Cong(k * z, k * l * a, m)
  {
    hide Mod;
    CongMul(k, k, z, l * a, m);
    Regroup(k, l, a);
  }

  /** A reduced triple that is not all zero and satisfies the projective equation. */
  ghost predicate OnProj(m: nat, b: int, p: Point<nat>)
    requires m > 0
  {
    p.x < m && p.y < m && p.z < m && p != Point(0, 0, 0) && OnCurve(m, b, p)
  }

  /** The place a triple stands for. */
  function PlaceOf(m: nat, p: Point<nat>): Place
    requires m > 1
  {
    if p.z == 0 then Origin else At(Mod(p.x * Pow(p.z, m - 2), m), Mod(p.y * Pow(p.z, m - 2), m))
  }

  lemma PowInverse(m: nat, z: nat)
    requires Prime(m) && 0 < z < m
    ensures m > 1 && Cong(z * Pow(z, m - 2), 1, m)
  {
    hide Mod, Prime;
    SmallUnit(m, z);
    Fermat(z, m);
    assert Pow(z, m - 1) == z * Pow(z, m - 2);
  }

  /** Every triple of the curve shows its place. */
  lemma PlaceShown(m: nat, b: int, p: Point<nat>) returns (s: int)
    requires Prime(m) && OnProj(m, b, p)
    ensures m > 1 && Placed(m, b, PlaceOf(m, p)) && !Divides(m, s) && Shows(m, p, s, PlaceOf(m, p))
  {
    hide Mod, Prime, Divides, Pow;
    PrimeAboveOne(m);
    if p.z == 0 {
      InfinityTriple(m, b, p);
      s := p.y;
      SmallUnit(m, p.y);
    } else {
      PowInverse(m, p.z);
      var i := Pow(p.z, m - 2);
      s := p.z;
      SmallUnit(m, p.z);
      QuotientBack(m, p.x, p.z, i);
      QuotientBack(m, p.y, p.z, i);
      CubicOfTriple(m, b, p.x, p.y, p.z, i);
      CongMod(p.x * i, m);
      CongMod(p.y * i, m);
      OnCubicCong(m, b, p.x * i, p.y * i, Mod(p.x * i, m), Mod(p.y * i, m));
      assert p.z * 1 == p.z;
    }
  }

  lemma InfinityTriple(m: nat, b: int, p: Point<nat>)
    requires Prime(m) && OnProj(m, b, p) && p.z == 0
    ensures p.x == 0 && 0 < p.y < m
  {
    hide Mod, Prime;
    PrimeAboveOne(m);
    assert p.y * p.y * 0 == 0 && p.x * 0 * 0 == 0 && p.x * (0 * 0) == 0 && b * (0 * 0 * 0) == 0;
    if p.x != 0 {
      SmallUnit(m, p.x);
      UnitProduct(m, p.x, p.x);
      UnitProduct(m, p.x * p.x, p.x);
    }
  }

  /** The projective equation, divided by z^3. */
  lemma CubicOfTriple(m: nat, b: int, x: int, y: int, z: int, i: int)
    requires m > 0 && OnCurve(m, b, Point(x, y, z)) && Cong(z * i, 1, m)
    ensures OnCubic(m, b, x * i, y * i)
  {
    hide Mod;
    var u, v := x * i, y * i;
    CongMul(z * i, 1, z * i, 1, m);
    CongMul(z * i * (z * i), 1, z * i, 1, m);
    CongMul(y * y * z, x * x * x - 3 * (x * z * z) + b * (z * z * z), i * i * i, i * i * i, m);
    CubedTerms(b, x, y, z, i);
    CongMul(v * v, v * v, z * i, 1, m);
    CongMul(3 * u, 3 * u, z * i * (z * i), 1, m);
    CongMul(b, b, z * i * (z * i) * (z * i), 1, m);
    CongAdd(u * u * u, u * u * u, 3 * u * (z * i * (z * i)), 3 * u * 1, m);
    CongAdd(u * u * u - 3 * u * (z * i * (z * i)), u * u * u - 3 * u * 1, b * (z * i * (z * i) * (z * i)), b * 1, m);
    assert v * v * 1 == v * v && 3 * u * 1 == 3 * u && b * 1 == b;
  }

  lemma CubedTerms(b: int, x: int, y: int, z: int, i: int)
    ensures var u, v, q := x * i, y * i, z * i;
            && y * y * z * (i * i * i) == v * v * q
            && (x * x * x - 3 * (x * z * z) + b * (z * z * z)) * (i * i * i)
               == u * u * u - 3 * u * (q * q) + b * (q * q * q)
  {
    var c := i * i * i;
    assert y * y * z * c == y * i * (y * i) * (z * i) by { Cubed(y, y, z, i); }
    assert x * x * x * c == x * i * (x * i) * (x * i) by { Cubed(x, x, x, i); }
    assert x * z * z * c == x * i * (z * i) * (z * i) by { Cubed(x, z, z, i); }
    assert z * z * z * c == z * i * (z * i) * (z * i) by { Cubed(z, z, z, i); }
    assert (x * x * x - 3 * (x * z * z) + b * (z * z * z)) * c
        == x * x * x * c - 3 * (x * z * z * c) + b * (z * z * z * c) by {
      CubedSpread(x * x * x, x * z * z, b, z * z * z, c);
    }
    assert 3 * (x * i) * (z * i * (z * i)) == 3 * (x * i * (z * i) * (z * i)) by { Regroup(x * i, z * i, z * i); }
  }

  lemma Cubed(x: int, y: int, z: int, i: int)
    ensures x * y * z * (i * i * i) == x * i * (y * i) * (z * i)
  {
    OneTimes(x, i, y, i);
    OneTimes(x * y, i * i, z, i);
  }

  lemma CubedSpread(p: int, q: int, b: int, r: int, c: int)
    ensures (p - 3 * q + b * r) * c == p * c - 3 * (q * c) + b * (r * c)
  {}

  /** A reduced triple that shows a place is on the curve, and the place is its own. */
  lemma ShownPlace(m: nat, b: int, p: Point<nat>, s: int, q: Place)
    requires Prime(m) && Placed(m, b, q) && !Divides(m, s) && Shows(m, p, s, q) && p.x < m && p.y < m && p.z < m
    ensures m > 1 && OnProj(m, b, p) && PlaceOf(m, p) == q
  {
    hide Mod, Prime, Divides, Pow, OnCurve;
    PrimeAboveOne(m);
    ShownCurve(m, b, p, s, q);
    if q == Origin {
      OriginTriple(m, p, s);
    } else {
      assert s * 1 == s;
      FiniteTriple(m, p, s, q);
    }
  }

  lemma OriginTriple(m: nat, p: Point<nat>, s: int)
    requires m > 1 && !Divides(m, s) && Cong(p.x, s * 0, m) && Cong(p.y, s * 1, m) && Cong(p.z, s * 0, m)
    requires p.x < m && p.y < m && p.z < m
    ensures p.x == 0 && p.z == 0 && p.y != 0
  {
    hide Mod;
    assert s * 0 == 0 && s * 1 == s;
    CongSmall(p.x, 0, m);
    CongSmall(p.z, 0, m);
  }

  lemma FiniteTriple(m: nat, p: Point<nat>, s: int, q: Place)
    requires Prime(m) && !Divides(m, s) && q.At? && q.x < m && q.y < m && p.x < m && p.y < m && p.z < m
    requires m > 1 && Cong(p.x, s * q.x, m) && Cong(p.y, s * q.y, m) && Cong(p.z, s, m)
    ensures p.z != 0 && PlaceOf(m, p) == q
  {
    hide Mod, Prime, Pow;
    UnitCong(m, s, p.z);
    assert p.z != 0;
    PowInverse(m, p.z);
    var i := Pow(p.z, m - 2);
    CongMul(p.z, s, i, i, m);
    CongMul(p.x, s * q.x, i, i, m);
    CongMul(p.y, s * q.y, i, i, m);
    CongMul(q.x, q.x, s * i, 1, m);
    CongMul(q.y, q.y, s * i, 1, m);
    assert s * q.x * i == q.x * (s * i) && s * q.y * i == q.y * (s * i) && q.x * 1 == q.x && q.y * 1 == q.y by {
      Turn(s, q.x, i);
      Turn(s, q.y, i);
    }
    ModOfCong(q.x, p.x * i, m);
    ModOfCong(q.y, p.y * i, m);
  }

  lemma ShownCurve(m: nat, b: int, p: Point<nat>, s: int, q: Place)
    requires m > 0 && Placed(m, b, q) && Shows(m, p, s, q)
    ensures OnCurve(m, b, p)
  {
    hide Mod;
    var l := Lift(q);
    CurveCong(m, b, p, Times(s, l));
    if q.At? {
      CongMul(s * s * s, s * s * s, q.y * q.y, Cubic(b, q.x), m);
      ScaledCurve(b, s, q.x, q.y);
    } else {
      assert s * 0 == 0;
    }
  }

  lemma CurveCong(m: nat, b: int, p: Point<int>, q: Point<int>)
    requires m > 0 && CongPoint(m, p, q)
    ensures OnCurve(m, b, p) <==> OnCurve(m, b, q)
  {
    hide Mod;
    CongMul(p.y, q.y, p.y, q.y, m);
    CongMul(p.y * p.y, q.y * q.y, p.z, q.z, m);
    CongMul(p.x, q.x, p.x, q.x, m);
    CongMul(p.x * p.x, q.x * q.x, p.x, q.x, m);
    CongMul(p.x, q.x, p.z, q.z, m);
    CongMul(p.x * p.z, q.x * q.z, p.z, q.z, m);
    CongMul(3, 3, p.x * p.z * p.z, q.x * q.z * q.z, m);
    CongMul(p.z, q.z, p.z, q.z, m);
    CongMul(p.z * p.z, q.z * q.z, p.z, q.z, m);
    CongMul(b, b, p.z * p.z * p.z, q.z * q.z * q.z, m);
    CongAdd(p.x * p.x * p.x, q.x * q.x * q.x, 3 * (p.x * p.z * p.z), 3 * (q.x * q.z * q.z), m);
    CongAdd(p.x * p.x * p.x - 3 * (p.x * p.z * p.z), q.x * q.x * q.x - 3 * (q.x * q.z * q.z),
            b * (p.z * p.z * p.z), b * (q.z * q.z * q.z), m);
  }

  lemma ScaledCurve(b: int, s: int, x: int, y: int)
    ensures var c, u, v := s * s * s, s * x, s * y;
            c * (y * y) == v * v * (s * 1)
            && c * Cubic(b, x) == u * u * u - 3 * (u * (s * 1) * (s * 1)) + b * (s * 1 * (s * 1) * (s * 1))
  {
    var c := s * s * s;
    assert s * 1 == s;
    assert c * (y * y) == s * y * (s * y) * s by { Squares(s, y, s * s, y * y); Turn(s * s, y * y, s); }
    assert s * x * (s * x) * (s * x) == c * (x * x * x) by {
      Squares(s, x, s * s, x * x);
      OneTimes(s * s, x * x, s, x);
    }
    assert s * x * s * s == c * x by { Turn(s, x, s); Turn(s * s, x, s); }
    assert c * (x * x * x - 3 * x + b) == c * (x * x * x) - 3 * (c * x) + b * c by { Distribute(c, x * x * x, x, b); }
  }

  lemma Distribute(c: int, p: int, x: int, b: int)
    ensures c * (p - 3 * x + b) == c * p - 3 * (c * x) + b * c
  {}
}
