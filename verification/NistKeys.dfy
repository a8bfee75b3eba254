/**
 * ECDH and ECDSA in the textbook's terms alone: points of the curve under chord and tangent, scalars modulo
 * the order, and bytes. No statement here mentions words, formulas or the ladder.
 */
module NistKeys {
  import opened Arith
  import opened NistAffine
  import opened NistChord
  import opened NistCurve
  import opened NistCyclic
  import opened NistEncode
  import opened NistField
  import opened NistGroup
  import opened NistPoint
  import opened NistSign
  import opened NumberTheory
  import opened Words

  /** A finite point of the curve. */
  ghost predicate Valid(c: Curve, q: Affine)
    requires CurveOk(c)
  {
    q.ok && Placed(c.p.m, Val(c.p, c.b), At(q.x, q.y))
  }

  lemma ValidIff(c: Curve, q: Affine)
    requires CurveOk(c)
    ensures Valid(c, q) <==> q.ok && IsOnCurve(c, q.x, q.y)
  {
    hide Mod, Rendered, Prime, Val, IsOnCurve;
    CurveBounds(c);
    IsOnCurveIff(c, q.x, q.y);
  }

  /** The words of a valid point stand for its logarithm. */
  lemma ValidStands(c: Curve, log: Place -> nat, q: Affine)
    requires CurveOk(c) && Cyclic(c, log) && Valid(c, q)
    ensures Stands(c, OnOf(c), LogOf(c, log), FromAffine(c, q), log(At(q.x, q.y)))
    ensures 0 < log(At(q.x, q.y)) < c.n.m
  {
    hide Rendered, Prime, Val, Mod, To, PlaceOf, Divides, OnCubic, OnProj, OnCurve, Cyclic;
    CurveBounds(c);
    EnterValue(c.p, q.x);
    EnterValue(c.p, q.y);
    SmallMod(q.x, c.p.m);
    SmallMod(q.y, c.p.m);
    OneValue(c.p);
    SmallUnit(c.p.m, 1);
    ShownPlace(c.p.m, Val(c.p, c.b), Point(q.x, q.y, 1), 1, At(q.x, q.y));
    assert Vals(c, FromAffine(c, q)) == Point(q.x, q.y, 1);
    LogBelow(c, log, At(q.x, q.y));
    SmallMod(log(At(q.x, q.y)), c.n.m);
    OriginLog(c, log);
    OriginPlaced(c.p.m, Val(c.p, c.b));
    if log(At(q.x, q.y)) == 0 { LogSame(c, log, At(q.x, q.y), Origin); }
  }

  /** A finite word point that stands for k is, in affine form, a valid point of logarithm k. */
  lemma StandsValid(c: Curve, log: Place -> nat, p: Point<nat>, k: int)
    requires CurveOk(c) && Cyclic(c, log) && Stands(c, OnOf(c), LogOf(c, log), p, k)
    ensures Sizes(c)
    ensures var a := ToAffine(c, p);
            && (a.ok <==> Mod(k, c.n.m) != 0)
            && (a.ok ==> Valid(c, a) && log(At(a.x, a.y)) == Mod(k, c.n.m))
  {
    hide *;
    SizesHold(c);
    SizesMean(c);
    CurveBounds(c);
    CurveGroup(c, log);
    var on, lg := OnOf(c), LogOf(c, log);
    AffineSame(c, on, lg, p, p, k, k);
    if ToAffine(c, p).ok {
      FromAffineStands(c, on, lg, p, k);
      StandsPlace(c, log, ToAffine(c, p), k);
      ValidDef(c, ToAffine(c, p));
    }
  }

  lemma ValidDef(c: Curve, q: Affine)
    requires CurveOk(c) && c.p.m > 0
    ensures Valid(c, q) <==> q.ok && Placed(c.p.m, Val(c.p, c.b), At(q.x, q.y))
  {
    hide Prime, Rendered, Placed;
  }

  /** One point has one logarithm. */
  lemma ValidSame(c: Curve, log: Place -> nat, p: Affine, q: Affine)
    requires CurveOk(c) && Cyclic(c, log) && Valid(c, p) && Valid(c, q)
    requires log(At(p.x, p.y)) == log(At(q.x, q.y))
    ensures p == q
  {
    hide Mod, Rendered, Prime, Val, Cyclic, Placed;
    CurveBounds(c);
    LogSame(c, log, At(p.x, p.y), At(q.x, q.y));
  }

  // ── Keys ──────────────────────────────────────────────────────────

  /** The public key of d is the point of logarithm d; every other scalar is refused. */
  lemma PublicIs(c: Curve, log: Place -> nat, d: nat)
    requires CurveOk(c) && Cyclic(c, log) && d < Pow2(c.p.k + 8)
    ensures Sizes(c)
    ensures var q := PublicKey(c, d);
            if 0 < d < c.n.m then Valid(c, q) && log(At(q.x, q.y)) == d else !q.ok
  {
    hide *;
    SizesHold(c);
    SizesMean(c);
    CurveBounds(c);
    ScalarRange(c, d);
    CurveGroup(c, log);
    var on, lg := OnOf(c), LogOf(c, log);
    if 0 < d < c.n.m {
      PublicStands(c, on, lg, d);
      KeyBelow(c, d);
      GeneratorStands(c, on, lg);
      MulStands(c, on, lg, d, Generator(c), 1);
      assert d * 1 == d;
      SmallMod(d, c.n.m);
      StandsValid(c, log, MulPoint(c, d, Generator(c)), d);
    } else {
      PublicBad(c, d);
    }
  }

  lemma PublicBad(c: Curve, d: nat)
    requires Sizes(c) && !ScalarOk(c.n, d)
    ensures !PublicKey(c, d).ok
  {
    hide ScalarOk, ToAffine, MulPoint;
  }

  /**
   * A key agreement gives the x coordinate of the point of logarithm a log(q), in as many bytes as a
   * coordinate has; for a scalar out of range or a point that is not on the curve it gives nothing.
   */
  lemma EcdhIs(c: Curve, log: Place -> nat, a: nat, q: Affine)
    requires CurveOk(c) && Cyclic(c, log) && a < Pow2(c.p.k + 8)
    ensures Sizes(c)
    ensures var s := Ecdh(c, a, q);
            if Valid(c, q) && 0 < a < c.n.m
            then |s| == CoordBytes(c) > 0
                 && exists y: nat :: Valid(c, Affine(BeVal(s), y, true))
                                     && log(At(BeVal(s), y)) == Mod(a * log(At(q.x, q.y)), c.n.m)
            else s == []
  {
    hide *;
    SizesHold(c);
    SizesMean(c);
    CurveBounds(c);
    ScalarRange(c, a);
    ValidIff(c, q);
    EcdhDef(c, a, q);
    if Valid(c, q) && 0 < a < c.n.m {
      CurveGroup(c, log);
      ValidStands(c, log, q);
      KeyBelow(c, a);
      var j := log(At(q.x, q.y));
      MulStands(c, OnOf(c), LogOf(c, log), a, FromAffine(c, q), j);
      ProductNonzero(a, j, c.n.m);
      var s := MulPoint(c, a, FromAffine(c, q));
      StandsValid(c, log, s, a * j);
      StoredCoord(c, ToAffine(c, s));
    }
  }

  lemma EcdhDef(c: Curve, a: nat, q: Affine)
    requires Sizes(c)
    ensures c.p.k > 0 && c.p.m >= 2 && c.p.w > 0 && c.n.w > 0
    ensures var s := ToAffine(c, MulPoint(c, a, FromAffine(c, q)));
            Ecdh(c, a, q) ==
            if q.ok && IsOnCurve(c, q.x, q.y) && ScalarOk(c.n, a) && s.ok then StoreCoord(c, s.x) else []
  {
    hide ScalarOk, ToAffine, MulPoint, StoreCoord, IsOnCurve, FromAffine;
  }

  lemma StoredCoord(c: Curve, a: Affine)
    requires CurveOk(c) && Valid(c, a)
    ensures var s := StoreCoord(c, a.x); |s| == CoordBytes(c) > 0 && Affine(BeVal(s), a.y, true) == a
  {
    hide Prime, Rendered, Val, StoreCoord, OnCubic;
    CurveBounds(c);
    CoordRoom(c);
    CoordSome(c);
    Pow2Mono(c.p.k, 8 * CoordBytes(c));
    StoreCoordValue(c, a.x);
  }

  // ── Signatures ────────────────────────────────────────────────────

  /**
   * Signing with key d and nonce k, q being the point of logarithm k when there is one: it succeeds exactly
   * when d and k are in range and neither q's x nor e + r d is 0 modulo the order; then r is that x and
   * s k = e + r d modulo the order, and otherwise nothing of them is released.
   */
  lemma SignIs(c: Curve, log: Place -> nat, d: nat, digest: seq<Byte>, k: nat, q: Affine)
    requires CurveOk(c) && Cyclic(c, log) && d < Pow2(c.p.k + 8) && k < Pow2(c.p.k + 8)
    requires BeVal(Lead(c, digest)) < 2 * c.n.m
    requires 0 < k < c.n.m ==> Valid(c, q) && log(At(q.x, q.y)) == k
    ensures Sizes(c)
    ensures var sig, e, r := SignK(c, d, digest, k), BeVal(Lead(c, digest)), Mod(q.x, c.n.m);
            && (sig.ok <==> 0 < d < c.n.m && 0 < k < c.n.m && r != 0 && Mod(e + r * d, c.n.m) != 0)
            && (if sig.ok then sig.r == r && 0 < sig.s < c.n.m && Cong(sig.s * k, e + r * d, c.n.m) else sig == REFUSED)
  {
    hide *;
    SizesHold(c);
    SizesMean(c);
    CurveBounds(c);
    CurveGroup(c, log);
    var on, lg := OnOf(c), LogOf(c, log);
    SignComplete(c, on, lg, d, digest, k);
    SignValue(c, on, lg, d, digest, k);
    if 0 < k < c.n.m {
      KeyBelow(c, k);
      GeneratorStands(c, on, lg);
      MulStands(c, on, lg, k, Generator(c), 1);
      assert k * 1 == k;
      SmallMod(k, c.n.m);
      StandsValid(c, log, MulPoint(c, k, Generator(c)), k);
      ValidSame(c, log, q, ToAffine(c, MulPoint(c, k, Generator(c))));
    }
  }

  /** A point u with r its x coordinate modulo the order and log(u) s = e + r j. */
  ghost predicate Witness(c: Curve, log: Place -> nat, e: nat, r: nat, s: nat, j: nat, u: Affine)
    requires CurveOk(c)
  {
    Valid(c, u) && Mod(u.x, c.n.m) == r && Mod(log(At(u.x, u.y)) * s, c.n.m) == Mod(e + r * j, c.n.m)
  }

  /**
   * Verification accepts exactly when the key is a point of the curve, r and s are in range, and some finite
   * point has x coordinate r modulo the order and a logarithm that solves the signing equation.
   */
  lemma VerifyIs(c: Curve, log: Place -> nat, digest: seq<Byte>, r: nat, s: nat, q: Affine)
    requires CurveOk(c) && Cyclic(c, log) && BeVal(Lead(c, digest)) < 2 * c.n.m
    ensures Sizes(c)
    ensures VerifyDigest(c, digest, r, s, q) <==>
              && Valid(c, q) && 0 < r < c.n.m && 0 < s < c.n.m
              && exists u: Affine :: Witness(c, log, BeVal(Lead(c, digest)), r, s, log(At(q.x, q.y)), u)
  {
    hide *;
    SizesHold(c);
    SizesMean(c);
    ValidIff(c, q);
    VerifyRange(c, digest, r, s, q);
    if Valid(c, q) && 0 < r < c.n.m && 0 < s < c.n.m { VerifyWitness(c, log, digest, r, s, q); }
  }

  lemma VerifyRange(c: Curve, digest: seq<Byte>, r: nat, s: nat, q: Affine)
    requires Sizes(c)
    ensures VerifyDigest(c, digest, r, s, q) ==>
              q.ok && IsOnCurve(c, q.x, q.y) && 0 < r < c.n.m && 0 < s < c.n.m
  {
    hide ToAffine, MulPoint, AddPoint, Csub, ScalarInv, To, From, Mont, Bits2Int, IsOnCurve, FromAffine;
  }

  lemma VerifyWitness(c: Curve, log: Place -> nat, digest: seq<Byte>, r: nat, s: nat, q: Affine)
    requires CurveOk(c) && Cyclic(c, log) && BeVal(Lead(c, digest)) < 2 * c.n.m
    requires Valid(c, q) && 0 < r < c.n.m && 0 < s < c.n.m
    ensures Sizes(c)
    ensures VerifyDigest(c, digest, r, s, q) <==>
              exists u: Affine :: Witness(c, log, BeVal(Lead(c, digest)), r, s, log(At(q.x, q.y)), u)
  {
    hide *;
    SizesHold(c);
    SizesMean(c);
    CurveBounds(c);
    CurveGroup(c, log);
    var on, lg, n := OnOf(c), LogOf(c, log), c.n.m;
    var e, j := BeVal(Lead(c, digest)), log(At(q.x, q.y));
    ValidIff(c, q);
    ValidStands(c, log, q);
    var w := InverseOf(n, s);
    var t := Mod((e + r * j) * w, n);
    KeyBelow(c, t);
    GeneratorStands(c, on, lg);
    MulStands(c, on, lg, t, Generator(c), 1);
    var p := MulPoint(c, t, Generator(c));
    assert t * 1 == t;
    SmallMod(t, n);
    StandsSame(c, on, lg, p, t, (e + r * j) * w);
    VerifyIff(c, on, lg, digest, r, s, q, j, w, p);
    StandsValid(c, log, p, t);
    var a := ToAffine(c, p);
    if VerifyDigest(c, digest, r, s, q) {
      WitnessMade(c, log, e, r, s, j, w, a);
    }
    if u: Affine :| Witness(c, log, e, r, s, j, u) {
      WitnessLog(c, log, e, r, s, j, w, u);
      ValidLog(c, log, u);
      ValidSame(c, log, u, a);
    }
  }

  lemma ValidLog(c: Curve, log: Place -> nat, u: Affine)
    requires CurveOk(c) && Cyclic(c, log) && Valid(c, u)
    ensures 0 < log(At(u.x, u.y)) < c.n.m
  {
    hide *;
    ValidStands(c, log, u);
  }

  lemma WitnessMade(c: Curve, log: Place -> nat, e: nat, r: nat, s: nat, j: nat, w: int, u: Affine)
    requires CurveOk(c) && Valid(c, u) && Mod(u.x, c.n.m) == r && c.n.m > 0 && Cong(s * w, 1, c.n.m)
    requires log(At(u.x, u.y)) == Mod((e + r * j) * w, c.n.m)
    ensures Witness(c, log, e, r, s, j, u)
  {
    hide Mod, Prime, Rendered, Valid;
    var n, t := c.n.m, e + r * j;
    CongMod(t * w, n);
    CongMul(log(At(u.x, u.y)), t * w, s, s, n);
    CongMul(t, t, s * w, 1, n);
    assert t * w * s == t * (s * w) && t * 1 == t by { Turn(t, w, s); NistChord.Regroup(t, s, w); }
  }

  lemma WitnessLog(c: Curve, log: Place -> nat, e: nat, r: nat, s: nat, j: nat, w: int, u: Affine)
    requires CurveOk(c) && Cyclic(c, log) && Witness(c, log, e, r, s, j, u) && c.n.m > 0 && Cong(s * w, 1, c.n.m)
    ensures Valid(c, u) && Mod(u.x, c.n.m) == r && log(At(u.x, u.y)) == Mod((e + r * j) * w, c.n.m)
  {
    hide Mod, Prime, Rendered, Valid, Cyclic;
    var n, t, l := c.n.m, e + r * j, log(At(u.x, u.y));
    CongMul(l * s, t, w, w, n);
    CongMul(l, l, s * w, 1, n);
    assert l * s * w == l * (s * w) && l * 1 == l by { NistChord.Regroup(l, s, w); }
    ValidLog(c, log, u);
    ModOfCong(l, t * w, n);
  }

  /** Every signature made verifies under the signer's public key. */
  lemma SignedVerifies(c: Curve, log: Place -> nat, d: nat, digest: seq<Byte>, k: nat)
    requires CurveOk(c) && Cyclic(c, log) && d < Pow2(c.p.k + 8) && k < Pow2(c.p.k + 8)
    requires BeVal(Lead(c, digest)) < 2 * c.n.m
    ensures Sizes(c)
    ensures var sig := SignK(c, d, digest, k);
            sig.ok ==> VerifyDigest(c, digest, sig.r, sig.s, PublicKey(c, d))
  {
    hide *;
    CurveGroup(c, log);
    SignVerifies(c, OnOf(c), LogOf(c, log), d, digest, k);
  }
}
