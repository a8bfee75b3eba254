/** Point encoding and decoding (sections 2.3.3 and 2.3.4 of SEC 1). */
module NistEncode {
  import opened Arith
  import opened NistAffine
  import opened NistField
  import opened NistGroup
  import opened NistPoint
  import opened NistPower
  import opened NumberTheory
  import opened Octets
  import opened Words

  /** Bytes of a coordinate. */
  function CoordBytes(c: Curve): nat { (c.p.k + 7) / 8 }

  /** The last coordinate's worth of bytes as an integer. */
  function LoadCoord(c: Curve, b: seq<Byte>): nat
  {
    var skip := if |b| > CoordBytes(c) then |b| - CoordBytes(c) else 0;
    Load(c.p.w, b[skip..], 0, 0)
  }

  function StoreCoord(c: Curve, v: nat): seq<Byte> { I2osp(v, CoordBytes(c)) }

  const BAD := Affine(0, 0, false)

  function Encode(c: Curve, a: Affine): seq<Byte> { [4] + StoreCoord(c, a.x) + StoreCoord(c, a.y) }

  /** The y coordinate of the given parity over x. */
  function Lift(c: Curve, x: nat, parity: nat): Affine
    requires c.p.k > 0
  {
    var f := c.p;
    var y2 := Rhs(c, To(f, x));
    var ym := Sqrt(f, y2);
    if Mont(f, ym, ym) != y2 then BAD
    else
      var y0 := From(f, ym);
      Affine(x, if y0 % 2 != parity then Csub(f, USub(f.w, f.m, y0)) else y0, true)
  }

  function Decode(c: Curve, b: seq<Byte>): Affine
    requires c.p.k > 0
  {
    var kb := CoordBytes(c);
    if |b| == 1 + 2 * kb && b[0] == 4 then
      var x, y := LoadCoord(c, b[1..1 + kb]), LoadCoord(c, b[1 + kb..]);
      if !IsOnCurve(c, x, y) then BAD else Affine(x, y, true)
    else if |b| == 1 + kb && (b[0] == 2 || b[0] == 3) then
      var x := LoadCoord(c, b[1..]);
      if x >= c.p.m then BAD else Lift(c, x, b[0] % 2)
    else BAD
  }

  /** The compressed form: the parity of y, then x. */
  function Compressed(c: Curve, a: Affine): seq<Byte> { [2 + a.y % 2] + StoreCoord(c, a.x) }

  // ── Coordinates as bytes ──────────────────────────────────────────

  lemma CoordRoom(c: Curve)
    requires CurveOk(c)
    ensures 8 * CoordBytes(c) <= c.p.w && c.p.m < Pow2(8 * CoordBytes(c))
  {
    hide Pow2, Prime, Mod;
    Pow2Mono(c.p.k, 8 * CoordBytes(c));
  }

  /** Loading a full coordinate string gives its value, and storing that gives the string back. */
  lemma LoadCoordValue(c: Curve, b: seq<Byte>)
    requires CurveOk(c) && |b| == CoordBytes(c)
    ensures LoadCoord(c, b) == BeVal(b) && StoreCoord(c, BeVal(b)) == b
  {
    hide Rendered, Load, I2osp, Prime, BeVal;
    CoordRoom(c);
    assert b[0..] == b;
    LoadBytes(c.p.w, b);
    I2ospOfBytes(b);
  }

  /** Of a byte string of any length the last coordinate's worth is loaded: its value modulo 2^(8 KB). */
  lemma LoadCoordAny(c: Curve, b: seq<Byte>)
    requires CurveOk(c)
    ensures LoadCoord(c, b) == Mod(BeVal(b), Pow2(8 * CoordBytes(c)))
  {
    hide Rendered, Load, Prime, BeVal, Pow2, Mod;
    CoordRoom(c);
    var skip := if |b| > CoordBytes(c) then |b| - CoordBytes(c) else 0;
    var s := b[skip..];
    assert s[0..] == s && b == b[..skip] + s;
    Pow2Mono(8 * |s|, c.p.w);
    LoadBytes(c.p.w, s);
    BeValPlus(b[..skip], s);
    BeValBound(s);
    Pow2Mono(8 * |s|, 8 * CoordBytes(c));
    if skip == 0 { BeValEmpty(b[..skip]); }
    DivModUnique(BeVal(b), Pow2(8 * CoordBytes(c)), BeVal(b[..skip]), BeVal(s));
  }

  lemma BeValEmpty(b: seq<Byte>)
    ensures b == [] ==> BeVal(b) == 0
  {}

  lemma StoreCoordValue(c: Curve, v: nat)
    requires CurveOk(c) && v < Pow2(8 * CoordBytes(c))
    ensures |StoreCoord(c, v)| == CoordBytes(c) && LoadCoord(c, StoreCoord(c, v)) == v
    ensures BeVal(StoreCoord(c, v)) == v
  {
    hide LoadCoord, I2osp, Prime, Rendered;
    I2ospValue(v, CoordBytes(c));
    SmallMod(v, Pow2(8 * CoordBytes(c)));
    LoadCoordValue(c, StoreCoord(c, v));
  }

  // ── Round trips ───────────────────────────────────────────────────

  /** Decoding undoes encoding for every point of the curve. */
  lemma DecodeEncode(c: Curve, a: Affine)
    requires CurveOk(c) && a.ok && IsOnCurve(c, a.x, a.y)
    ensures c.p.k > 0 && Decode(c, Encode(c, a)) == a
  {
    hide LoadCoord, StoreCoord, Prime, Rendered, CurveOk, To, Mont, Rhs;
    CurveBounds(c);
    CoordRoom(c);
    StoreCoordValue(c, a.x);
    StoreCoordValue(c, a.y);
    var b, kb := Encode(c, a), CoordBytes(c);
    assert b[1..1 + kb] == StoreCoord(c, a.x);
    assert b[1 + kb..] == StoreCoord(c, a.y);
  }

  /** An uncompressed string is accepted exactly when it is the encoding of a point of the curve, and decodes to it. */
  lemma DecodeFull(c: Curve, b: seq<Byte>)
    requires CurveOk(c) && |b| == 1 + 2 * CoordBytes(c) && b[0] == 4
    ensures c.p.k > 0
    ensures var a := Decode(c, b); a.ok ==> IsOnCurve(c, a.x, a.y) && b == Encode(c, a)
    ensures forall p: Affine :: p.ok && IsOnCurve(c, p.x, p.y) && b == Encode(c, p) ==> Decode(c, b) == p
  {
    forall p: Affine | p.ok && IsOnCurve(c, p.x, p.y) && b == Encode(c, p) ensures Decode(c, b) == p {
      DecodeEncode(c, p);
    }
    hide LoadCoord, StoreCoord, Prime, Rendered, CurveOk, IsOnCurve;
    CurveBounds(c);
    var kb := CoordBytes(c);
    LoadCoordValue(c, b[1..1 + kb]);
    LoadCoordValue(c, b[1 + kb..]);
    assert b == [4] + b[1..1 + kb] + b[1 + kb..];
  }

  /** The square root taken in Lift decides whether x is on the curve, and gives a root when it is. */
  lemma LiftRoot(c: Curve, x: nat)
    requires CurveOk(c) && x < c.p.m
    ensures c.p.k > 0
    ensures var f := c.p; var y2 := Rhs(c, To(f, x)); var ym := Sqrt(f, y2); var y0 := From(f, ym);
            && In(f, ym) && y0 < f.m
            && (Mont(f, ym, ym) == y2 <==> IsOnCurve(c, x, y0))
            && (Mont(f, ym, ym) == y2 <==> exists y: nat :: IsOnCurve(c, x, y))
  {
    hide Val, Mod, Rendered, Prime, Mont, Rhs, To, Means, IsOnCurve, Sqrt, From;
    CurveBounds(c);
    var f, r := c.p, x * x * x - 3 * x + Val(c.p, c.b);
    EnterMeans(f, x);
    RhsMeans(c, To(f, x), x);
    var y2 := Rhs(c, To(f, x));
    MeansValue(f, y2, r);
    SqrtIn(f, y2);
    var ym := Sqrt(f, y2);
    LeaveValue(f, ym);
    var y0 := From(f, ym);
    MeansSelf(f, ym);
    MeansProduct(f, ym, y0, ym, y0);
    IsOnCurveIff(c, x, y0);
    SquareDecides(f, Mont(f, ym, ym), y0 * y0, y2, r);
    forall y: nat | IsOnCurve(c, x, y) ensures Mont(f, ym, ym) == y2 {
      IsOnCurveIff(c, x, y);
      CongMod(r, f.m);
      RootValue(f, y2, y);
      CongTrans(y0 * y0, Val(f, y2), r, f.m);
    }
  }

  lemma SquareDecides(f: Modulus, a: nat, x: int, b: nat, y: int)
    requires Rendered(f) && Means(f, a, x) && Means(f, b, y)
    ensures a == b <==> Cong(x, y, f.m)
  {
    hide Val, Mod, Rendered, Means;
    RenderedBounds(f);
    if Cong(x, y, f.m) { MeansSame(f, a, x, b, y); }
    MeansValue(f, a, x);
    MeansValue(f, b, y);
  }

  lemma SqrtIn(f: Modulus, a: nat)
    requires Rendered(f) && In(f, a) && f.k > 0
    ensures In(f, Sqrt(f, a))
  {
    hide Val, Mod, Rendered, FPow, EBits;
    RenderedBounds(f);
    EBitsLength(f, (f.m + 1) / 4);
    PowerValue(f, a, (f.m + 1) / 4);
  }

  /** Over one x the curve has at most y and p - y. */
  lemma TwoRoots(c: Curve, x: nat, y: nat, y': nat)
    requires CurveOk(c) && IsOnCurve(c, x, y) && IsOnCurve(c, x, y')
    ensures y == y' || y + y' == c.p.m
  {
    hide Val, Mod, Rendered, Prime, IsOnCurve;
    CurveBounds(c);
    var m := c.p.m;
    IsOnCurveIff(c, x, y);
    IsOnCurveIff(c, x, y');
    CongAdd(y * y, y' * y', y' * y', y' * y', m);
    assert y * y - y' * y' == (y - y') * (y + y') by { DifferenceOfSquares(y, y'); }
    Euclid(m, y - y', y + y');
    if Divides(m, y - y') {
      CongAdd(y - y', 0, y', y', m);
      CongSmall(y, y', m);
    } else {
      var q := DividesWitness(m, y + y');
      SmallMultiple(y + y', q, m);
    }
  }

  lemma DifferenceOfSquares(a: int, b: int)
    ensures a * a - b * b == (a - b) * (a + b)
  {}

  lemma SmallMultiple(x: nat, q: int, m: nat)
    requires x == q * m && x < 2 * m
    ensures x == 0 || x == m
  {
    if q < 0 { MulMono(q, -1, m); }
    if q > 1 { MulMono(2, q, m); }
  }

  /** p - y is on the curve with y. */
  lemma Mirror(c: Curve, x: nat, y: nat)
    requires CurveOk(c) && IsOnCurve(c, x, y) && y > 0
    ensures y < c.p.m && IsOnCurve(c, x, c.p.m - y)
  {
    hide Val, Mod, Rendered, Prime, IsOnCurve;
    CurveBounds(c);
    IsOnCurveIff(c, x, y);
    IsOnCurveIff(c, x, c.p.m - y);
    MirrorSquare(c.p.m, y);
    CongFrom((c.p.m - y) * (c.p.m - y), y * y, c.p.m - 2 * y, c.p.m);
  }

  lemma MirrorSquare(m: int, y: int)
    ensures (m - y) * (m - y) == y * y + (m - 2 * y) * m
  {}

  /** Lift finds the point over x whose y has the given parity; y = 0 serves both. */
  lemma LiftValue(c: Curve, x: nat, parity: nat)
    requires CurveOk(c) && x < c.p.m && parity < 2
    ensures c.p.k > 0
    ensures var a := Lift(c, x, parity);
            && (a.ok <==> exists y: nat :: IsOnCurve(c, x, y))
            && (a.ok ==> a.x == x && IsOnCurve(c, x, a.y) && (a.y == 0 || a.y % 2 == parity))
  {
    hide *;
    CurveBounds(c);
    LiftRoot(c, x);
    var f := c.p;
    var y0 := From(f, Sqrt(f, Rhs(c, To(f, x))));
    FlipValue(f, y0);
    LiftDef(c, x, parity);
    CurveOdd(c);
    if IsOnCurve(c, x, y0) && y0 > 0 { Mirror(c, x, y0); }
  }

  lemma LiftDef(c: Curve, x: nat, parity: nat)
    requires c.p.k > 0
    ensures var f := c.p; var y2 := Rhs(c, To(f, x)); var ym := Sqrt(f, y2); var y0 := From(f, ym);
            Lift(c, x, parity) ==
            if Mont(f, ym, ym) != y2 then Affine(0, 0, false)
            else Affine(x, if y0 % 2 != parity then Csub(f, USub(f.w, f.m, y0)) else y0, true)
  {
    hide Rhs, To, Sqrt, Mont, From, Csub, USub;
  }

  /** p - y, reduced: 0 stays 0. */
  lemma FlipValue(f: Modulus, y: nat)
    requires Rendered(f) && y < f.m
    ensures Csub(f, USub(f.w, f.m, y)) == if y == 0 then 0 else f.m - y
  {
    hide Pow2, Csub, USub, Guard, Rendered;
    RenderedBounds(f);
    Room(f);
    Pow2Mono(f.k, f.w);
    USubExact(f.w, f.m, y);
    CsubValue(f, f.m - y);
  }

  /** The compressed form of every curve point decodes to that point. */
  lemma DecodeCompressed(c: Curve, a: Affine)
    requires CurveOk(c) && a.ok && IsOnCurve(c, a.x, a.y)
    ensures c.p.k > 0 && Decode(c, Compressed(c, a)) == a
  {
    hide LoadCoord, StoreCoord, Prime, Rendered, CurveOk, Lift, To, Mont, Rhs;
    CurveBounds(c);
    CoordRoom(c);
    StoreCoordValue(c, a.x);
    var b := Compressed(c, a);
    assert b[1..] == StoreCoord(c, a.x);
    CoordSome(c);
    LiftValue(c, a.x, a.y % 2);
    TwoRoots(c, a.x, a.y, Lift(c, a.x, a.y % 2).y);
    CurveOdd(c);
  }

  lemma CoordSome(c: Curve)
    requires CurveOk(c)
    ensures CoordBytes(c) > 0
  {
    hide Rendered, Prime;
    CurveBounds(c);
  }

  lemma CurveOdd(c: Curve)
    requires CurveOk(c)
    ensures c.p.m % 2 == 1
  {
    hide Rendered, Prime;
  }

  /** Every accepted string is an encoding, full or compressed, of the point it decodes to. */
  lemma DecodeSound(c: Curve, b: seq<Byte>)
    requires CurveOk(c)
    ensures c.p.k > 0
    ensures var a := Decode(c, b);
            a.ok ==> IsOnCurve(c, a.x, a.y)
                     && (b == Encode(c, a) || b == Compressed(c, a) || (a.y == 0 && b == [3] + StoreCoord(c, a.x)))
  {
    hide LoadCoord, StoreCoord, Prime, Rendered, CurveOk, Lift, IsOnCurve, Encode;
    CurveBounds(c);
    CoordSome(c);
    var kb := CoordBytes(c);
    if |b| == 1 + 2 * kb && b[0] == 4 {
      DecodeFull(c, b);
    } else if |b| == 1 + kb && (b[0] == 2 || b[0] == 3) {
      LoadCoordValue(c, b[1..]);
      assert b == [b[0]] + b[1..];
      if LoadCoord(c, b[1..]) < c.p.m { LiftValue(c, LoadCoord(c, b[1..]), b[0] % 2); }
    }
  }

  /** b is one of the encodings of the curve point p. */
  predicate Encodes(c: Curve, p: Affine, b: seq<Byte>)
  {
    && p.ok && IsOnCurve(c, p.x, p.y)
    && (b == Encode(c, p) || b == Compressed(c, p) || (p.y == 0 && b == [3] + StoreCoord(c, p.x)))
  }

  /**
   * The bytes of the encodings: the form, x, and then y or nothing; the parity of y is in the compressed
   * form's first.
   */
  lemma EncodeBytes(c: Curve, a: Affine)
    requires CurveOk(c) && a.x < c.p.m && a.y < c.p.m
    ensures var b, kb := Encode(c, a), CoordBytes(c);
            |b| == 1 + 2 * kb && b[0] == 4 && BeVal(b[1..1 + kb]) == a.x && BeVal(b[1 + kb..]) == a.y
    ensures var b, kb := Compressed(c, a), CoordBytes(c);
            |b| == 1 + kb && b[0] == (if a.y % 2 == 0 then 2 else 3) && BeVal(b[1..]) == a.x
  {
    hide StoreCoord, Prime, Rendered, BeVal;
    CurveBounds(c);
    CoordRoom(c);
    StoreCoordValue(c, a.x);
    StoreCoordValue(c, a.y);
    var b, kb := Encode(c, a), CoordBytes(c);
    assert b[1..1 + kb] == StoreCoord(c, a.x) && b[1 + kb..] == StoreCoord(c, a.y);
    assert Compressed(c, a)[1..] == StoreCoord(c, a.x);
  }

  /** A string is accepted exactly when it encodes a curve point, and that point is what it decodes to. */
  lemma DecodeIff(c: Curve, b: seq<Byte>)
    requires CurveOk(c)
    ensures c.p.k > 0
    ensures Decode(c, b).ok ==> Encodes(c, Decode(c, b), b)
    ensures forall p: Affine :: Encodes(c, p, b) ==> Decode(c, b) == p
  {
    hide Decode, IsOnCurve, Encode, Compressed, CurveOk;
    DecodeSound(c, b);
    forall p: Affine | Encodes(c, p, b) ensures Decode(c, b) == p {
      DecodeEncode(c, p);
      DecodeCompressed(c, p);
      if p.y == 0 { DecodeOdd(c, p); }
    }
  }

  /** A point with y = 0 has a second compressed form, with the other parity. */
  lemma DecodeOdd(c: Curve, p: Affine)
    requires CurveOk(c) && p.ok && IsOnCurve(c, p.x, p.y) && p.y == 0
    ensures c.p.k > 0 && Decode(c, [3] + StoreCoord(c, p.x)) == p
  {
    hide LoadCoord, StoreCoord, Prime, Rendered, CurveOk, Lift, To, Mont, Rhs;
    CurveBounds(c);
    CoordRoom(c);
    StoreCoordValue(c, p.x);
    var b := [3] + StoreCoord(c, p.x);
    assert b[1..] == StoreCoord(c, p.x);
    CoordSome(c);
    LiftValue(c, p.x, 1);
    OnCurveBelow(c, p.x, Lift(c, p.x, 1).y);
    TwoRoots(c, p.x, 0, Lift(c, p.x, 1).y);
  }

  lemma OnCurveBelow(c: Curve, x: nat, y: nat)
    ensures IsOnCurve(c, x, y) ==> y < c.p.m
  {}

  /** Of the words loaded from byte strings the scalar test accepts exactly 1 .. n - 1. */
  lemma LoadedScalar(c: Curve, b: seq<Byte>)
    requires CurveOk(c)
    ensures c.n.w > 0 && (ScalarOk(c.n, LoadCoord(c, b)) <==> 0 < LoadCoord(c, b) < c.n.m)
  {
    hide Prime, Rendered, ScalarOk, Load;
    CurveBounds(c);
    RenderedBounds(c.n);
    Room(c.n);
    CoordRoom(c);
    var t := b[if |b| > CoordBytes(c) then |b| - CoordBytes(c) else 0..];
    LoadBytes(c.p.w, t);
    Pow2Mono(8 * |t|, c.p.k + 8);
    Pow2Mono(c.p.k + 8, c.n.w - 1);
    Pow2Mono(c.p.k, c.n.w - 1);
    ScalarOkIff(c.n, LoadCoord(c, b));
  }
}
