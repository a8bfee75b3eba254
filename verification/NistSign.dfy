/** Keys, ECDH and ECDSA (sections 3.3.1, 4.1.3 and 4.1.4 of SEC 1) over an abstract group of prime order. */
module NistSign {
  import opened Arith
  import opened NistAffine
  import opened NistEncode
  import opened NistField
  import opened NistGroup
  import opened NistPoint
  import opened NistPower
  import opened NumberTheory
  import opened Octets
  import opened Words

  datatype Signature = Signature(ok: bool, r: nat, s: nat)

  const REFUSED := Signature(false, 0, 0)

  function Lead(c: Curve, digest: seq<Byte>): seq<Byte>
  {
    if |digest| > CoordBytes(c) then digest[0..CoordBytes(c)] else digest
  }

  function Bits2Int(c: Curve, digest: seq<Byte>): nat { Csub(c.n, LoadCoord(c, Lead(c, digest))) }

  /** 1/a modulo the group order; the power starts from one converted on the spot. */
  function ScalarInv(f: Modulus, a: nat): nat
    requires f.k > 0 && f.m >= 2
  {
    EBitsLength(f, f.m - 2);
    FPow(f, a, EBits(f, f.m - 2), f.k, To(f, 1))
  }

  predicate Sizes(c: Curve)
  {
    c.p.k > 0 && c.p.m >= 2 && c.p.w > 0 && c.n.k > 0 && c.n.m >= 2 && c.n.w > 0
  }

  function PublicKey(c: Curve, d: nat): Affine
    requires Sizes(c)
  {
    if !ScalarOk(c.n, d) then BAD else ToAffine(c, MulPoint(c, d, Generator(c)))
  }

  /** The x coordinate of d Q as bytes, or nothing. */
  function Ecdh(c: Curve, d: nat, q: Affine): seq<Byte>
    requires Sizes(c)
  {
    if !q.ok || !IsOnCurve(c, q.x, q.y) || !ScalarOk(c.n, d) then []
    else
      var s := ToAffine(c, MulPoint(c, d, FromAffine(c, q)));
      if !s.ok then [] else StoreCoord(c, s.x)
  }

  function SignK(c: Curve, d: nat, digest: seq<Byte>, k: nat): Signature
    requires Sizes(c)
  {
    if !ScalarOk(c.n, d) || !ScalarOk(c.n, k) then REFUSED
    else
      var f := c.n;
      var rp := ToAffine(c, MulPoint(c, k, Generator(c)));
      var r := Csub(f, rp.x);
      var e := To(f, Bits2Int(c, digest));
      var rd := Mont(f, To(f, r), To(f, d));
      var s := From(f, Mont(f, ScalarInv(f, To(f, k)), Add(f, e, rd)));
      if !rp.ok || r == 0 || s == 0 then REFUSED else Signature(true, r, s)
  }

  predicate VerifyDigest(c: Curve, digest: seq<Byte>, r: nat, s: nat, q: Affine)
    requires Sizes(c)
  {
    && q.ok && IsOnCurve(c, q.x, q.y) && 0 < r < c.n.m && 0 < s < c.n.m
    && var f := c.n;
       var w := ScalarInv(f, To(f, s));
       var u1 := From(f, Mont(f, To(f, Bits2Int(c, digest)), w));
       var u2 := From(f, Mont(f, To(f, r), w));
       var pt := ToAffine(c, AddPoint(c, MulPoint(c, u1, Generator(c)), MulPoint(c, u2, FromAffine(c, q))));
       pt.ok && Csub(f, pt.x) == r
  }

  // ── Digests and scalars ───────────────────────────────────────────

  lemma SizesHold(c: Curve)
    requires CurveOk(c)
    ensures Sizes(c)
  {
    hide Prime, Rendered;
    CurveBounds(c);
  }

  /** The digest's integer is reduced modulo the order exactly when its leading bytes are below 2n. */
  lemma Bits2IntIff(c: Curve, digest: seq<Byte>)
    requires CurveOk(c)
    ensures Bits2Int(c, digest) == Mod(BeVal(Lead(c, digest)), c.n.m) <==> BeVal(Lead(c, digest)) < 2 * c.n.m
  {
    hide Prime, Rendered, BeVal, Csub, Load, Mod;
    CurveBounds(c);
    RenderedBounds(c.n);
    var b := Lead(c, digest);
    CoordRoom(c);
    assert b[0..] == b;
    LoadBytes(c.p.w, b);
    Pow2Mono(8 * |b|, c.n.k + 8);
    CsubReducesIff(c.n, BeVal(b));
  }

  /** The bytes kept of a long digest are the leading ones: its value without the last bytes. */
  lemma LeadValue(c: Curve, digest: seq<Byte>)
    requires c.p.k > 0
    ensures if |digest| <= CoordBytes(c) then Lead(c, digest) == digest
            else BeVal(Lead(c, digest)) == Div(BeVal(digest), Pow2(8 * (|digest| - CoordBytes(c))))
  {
    hide BeVal, Pow2, Div;
    if |digest| > CoordBytes(c) {
      var rest := digest[CoordBytes(c)..];
      assert digest == Lead(c, digest) + rest;
      BeValPlus(Lead(c, digest), rest);
      BeValBound(rest);
      DivModUnique(BeVal(digest), Pow2(8 * |rest|), BeVal(Lead(c, digest)), BeVal(rest));
    }
  }

  /** Digests of at most K bits always qualify: all of them for P-256 and P-384, 65 bytes for P-521. */
  lemma DigestFits(c: Curve, digest: seq<Byte>)
    requires CurveOk(c) && 8 * |Lead(c, digest)| <= c.p.k
    ensures BeVal(Lead(c, digest)) < 2 * c.n.m
  {
    hide Prime, Rendered, BeVal;
    BeValBound(Lead(c, digest));
    Pow2Mono(8 * |Lead(c, digest)|, c.p.k);
  }

  /** On a curve of 521 bits the 66-byte digest of all ones is not reduced modulo the order. */
  lemma WideDigest(c: Curve)
    requires CurveOk(c) && c.p.k == 521
    ensures var digest := seq(66, _ => 255 as Byte);
            Lead(c, digest) == digest && Bits2Int(c, digest) != Mod(BeVal(digest), c.n.m)
  {
    hide Prime, Rendered, BeVal, Csub, Load, Mod, Pow2;
    var digest := seq(66, _ => 255 as Byte);
    CurveBounds(c);
    assert digest == [255] + digest[1..];
    BeValCons(255, digest[1..]);
    Pow2Add(2, 520);
    Pow2Succ(521);
    Pow2Succ(2);
    Pow2Succ(1);
    Pow2Zero();
    MulMono(4, 255, Pow2(520));
    Bits2IntIff(c, digest);
  }

  lemma ScalarInvValue(f: Modulus, a: nat, x: int)
    requires Rendered(f) && Means(f, a, x) && f.k > 0 && Prime(f.m) && Mod(x, f.m) != 0
    ensures In(f, ScalarInv(f, a)) && Cong(x * Val(f, ScalarInv(f, a)), 1, f.m)
  {
    hide *;
    RenderedBounds(f);
    MeansValue(f, a, x);
    InverseValue(f, a);
    EnterValue(f, 1);
    SmallMod(1, f.m);
    OneValue(f);
    ValInjective(f, To(f, 1), f.one);
    ScalarInvDef(f, a);
    CongMod(x, f.m);
    InverseCong(f.m, x, Val(f, a), Val(f, Inv(f, a)));
  }

  lemma ScalarInvDef(f: Modulus, a: nat)
    requires f.k > 0 && f.m >= 2 && To(f, 1) == f.one
    ensures ScalarInv(f, a) == Inv(f, a)
  {}

  lemma InverseCong(m: nat, x: int, v: nat, i: nat)
    requires m > 0 && v == Mod(x, m) && Cong(v * i, 1, m)
    ensures Cong(x * i, 1, m)
  {
    hide Mod;
    CongMod(x, m);
    CongMul(v, x, i, i, m);
  }

  /** The scalar test on a k-bit word. */
  lemma ScalarRange(c: Curve, d: nat)
    requires CurveOk(c) && d < Pow2(c.p.k + 8)
    ensures Sizes(c) && (ScalarOk(c.n, d) <==> 0 < d < c.n.m)
  {
    hide Prime, Rendered, ScalarOk;
    SizesHold(c);
    CurveBounds(c);
    RenderedBounds(c.n);
    Room(c.n);
    Pow2Mono(c.p.k + 8, c.n.w - 1);
    Pow2Mono(c.p.k, c.n.w - 1);
    ScalarOkIff(c.n, d);
  }

  // ── Keys ──────────────────────────────────────────────────────────

  /** A usable scalar's public key stands for d times the base point, and passes the curve test. */
  lemma PublicStands(c: Curve, on: Point<nat> -> bool, log: Point<nat> -> nat, d: nat)
    requires CurveOk(c) && Group(c, on, log) && 0 < d < c.n.m
    ensures Sizes(c)
    ensures var q := PublicKey(c, d);
            && q.ok && q == ToAffine(c, MulPoint(c, d, Generator(c)))
            && IsOnCurve(c, q.x, q.y) && Stands(c, on, log, FromAffine(c, q), d)
  {
    hide *;
    SizesHold(c);
    SizesMean(c);
    CurveBounds(c);
    KeyBelow(c, d);
    ScalarRange(c, d);
    PublicKeyDef(c, d);
    GeneratorStands(c, on, log);
    var p := MulPoint(c, d, Generator(c));
    MulStands(c, on, log, d, Generator(c), 1);
    assert d * 1 == d;
    AffineSame(c, on, log, p, p, d, d);
    SmallMod(d, c.n.m);
    FromAffineStands(c, on, log, p, d);
    AffineEquation(c.p.m, Val(c.p, c.b), ToAffine(c, p).x, ToAffine(c, p).y);
    IsOnCurveIff(c, ToAffine(c, p).x, ToAffine(c, p).y);
  }

  lemma SizesMean(c: Curve)
    requires Sizes(c)
    ensures c.p.k > 0 && c.p.m >= 2 && c.p.w > 0 && c.n.k > 0 && c.n.m >= 2 && c.n.w > 0
  {}

  lemma KeyBelow(c: Curve, d: nat)
    requires CurveOk(c) && d < c.n.m
    ensures d < Pow2(c.p.k) && d < Pow2(c.p.k + 8)
  {
    hide Pow2, Prime, Rendered;
    CurveBounds(c);
    Pow2Mono(c.p.k, c.p.k + 8);
  }

  lemma PublicKeyDef(c: Curve, d: nat)
    requires Sizes(c) && ScalarOk(c.n, d)
    ensures PublicKey(c, d) == ToAffine(c, MulPoint(c, d, Generator(c)))
  {
    hide ScalarOk, ToAffine, MulPoint;
  }

  /** Both sides of a key agreement compute the same bytes. */
  lemma EcdhAgrees(c: Curve, on: Point<nat> -> bool, log: Point<nat> -> nat, a: nat, b: nat)
    requires CurveOk(c) && Group(c, on, log) && 0 < a < c.n.m && 0 < b < c.n.m
    ensures Sizes(c)
    ensures var s := Ecdh(c, a, PublicKey(c, b)); s == Ecdh(c, b, PublicKey(c, a)) && |s| == CoordBytes(c) > 0
  {
    hide Prime, Rendered, Group, Stands, CurveOk, ToAffine, MulPoint, FromAffine, IsOnCurve, ScalarOk, PublicKey,
        StoreCoord, Mod, Divides;
    SizesHold(c);
    CurveBounds(c);
    PublicStands(c, on, log, a);
    PublicStands(c, on, log, b);
    KeyBelow(c, a);
    KeyBelow(c, b);
    ScalarRange(c, a);
    ScalarRange(c, b);
    var p, q := FromAffine(c, PublicKey(c, a)), FromAffine(c, PublicKey(c, b));
    MulStands(c, on, log, a, q, b);
    MulStands(c, on, log, b, p, a);
    assert a * b == b * a;
    AffineSame(c, on, log, MulPoint(c, a, q), MulPoint(c, b, p), a * b, b * a);
    ProductNonzero(a, b, c.n.m);
    AffineBelow(c, on, log, MulPoint(c, a, q), a * b);
    CoordRoom(c);
    CoordSome(c);
    StoreCoordValue(c, ToAffine(c, MulPoint(c, a, q)).x);
  }

  lemma AffineBelow(c: Curve, on: Point<nat> -> bool, log: Point<nat> -> nat, p: Point<nat>, k: int)
    requires CurveOk(c) && Sizes(c) && Group(c, on, log) && Stands(c, on, log, p, k) && ToAffine(c, p).ok
    ensures ToAffine(c, p).x < c.p.m
  {
    hide *;
    CurveBounds(c);
    FromAffineStands(c, on, log, p, k);
  }

  lemma ProductNonzero(a: nat, b: nat, n: nat)
    requires Prime(n) && 0 < a < n && 0 < b < n
    ensures Mod(a * b, n) != 0
  {
    hide Mod, Prime;
    NotDivided(a, n);
    NotDivided(b, n);
    ModZero(n);
    if Mod(a * b, n) == 0 { Euclid(n, a, b); }
  }

  // ── Signatures ────────────────────────────────────────────────────

  /** An accepted signature solves the signing equation s k = e + r d modulo the order. */
  lemma SignValue(c: Curve, on: Point<nat> -> bool, log: Point<nat> -> nat, d: nat, digest: seq<Byte>, k: nat)
    requires CurveOk(c) && Group(c, on, log) && d < Pow2(c.p.k + 8) && k < Pow2(c.p.k + 8)
    requires BeVal(Lead(c, digest)) < 2 * c.n.m
    ensures Sizes(c)
    ensures var sig := SignK(c, d, digest, k); var rp := ToAffine(c, MulPoint(c, k, Generator(c)));
            sig.ok ==>
              && 0 < d < c.n.m && 0 < k < c.n.m && 0 < sig.r < c.n.m && 0 < sig.s < c.n.m
              && rp.ok && sig.r == Mod(rp.x, c.n.m) == Csub(c.n, rp.x)
              && Cong(sig.s * k, BeVal(Lead(c, digest)) + sig.r * d, c.n.m)
  {
    hide *;
    SizesHold(c);
    SizesMean(c);
    CurveBounds(c);
    ScalarRange(c, d);
    ScalarRange(c, k);
    SignDef(c, d, digest, k);
    if SignK(c, d, digest, k).ok {
      var rp := ToAffine(c, MulPoint(c, k, Generator(c)));
      KeyBelow(c, k);
      GeneratorStands(c, on, log);
      MulStands(c, on, log, k, Generator(c), 1);
      AffineBelow(c, on, log, MulPoint(c, k, Generator(c)), k * 1);
      OrderReduces(c, rp.x);
      Bits2IntIff(c, digest);
      CongMod(BeVal(Lead(c, digest)), c.n.m);
      SignCong(c, d, Bits2Int(c, digest), k, SignK(c, d, digest, k).r);
      CongAdd(Bits2Int(c, digest), BeVal(Lead(c, digest)), SignK(c, d, digest, k).r * d, SignK(c, d, digest, k).r * d,
        c.n.m);
      CongChain(SignK(c, d, digest, k).s * k, Bits2Int(c, digest) + SignK(c, d, digest, k).r * d,
                BeVal(Lead(c, digest)) + SignK(c, d, digest, k).r * d, c.n.m);
    }
  }

  /**
   * A scalar and a nonce in range are signed with unless r or s comes out as 0: unless the x coordinate of
   * k times the base or e + r d is 0 modulo the order.
   */
  lemma SignComplete(c: Curve, on: Point<nat> -> bool, log: Point<nat> -> nat, d: nat, digest: seq<Byte>, k: nat)
    requires CurveOk(c) && Group(c, on, log) && d < Pow2(c.p.k + 8) && k < Pow2(c.p.k + 8)
    requires BeVal(Lead(c, digest)) < 2 * c.n.m
    ensures Sizes(c)
    ensures var r := Mod(ToAffine(c, MulPoint(c, k, Generator(c))).x, c.n.m);
            SignK(c, d, digest, k).ok <==>
              0 < d < c.n.m && 0 < k < c.n.m && r != 0 && Mod(BeVal(Lead(c, digest)) + r * d, c.n.m) != 0
    ensures !SignK(c, d, digest, k).ok ==> SignK(c, d, digest, k) == REFUSED
  {
    hide *;
    SizesHold(c);
    SizesMean(c);
    CurveBounds(c);
    ScalarRange(c, d);
    ScalarRange(c, k);
    SignDef(c, d, digest, k);
    SignValue(c, on, log, d, digest, k);
    if 0 < d < c.n.m && 0 < k < c.n.m {
      var rp := ToAffine(c, MulPoint(c, k, Generator(c)));
      KeyBelow(c, k);
      GeneratorStands(c, on, log);
      MulStands(c, on, log, k, Generator(c), 1);
      var p := MulPoint(c, k, Generator(c));
      AffineSame(c, on, log, p, p, k * 1, k * 1);
      assert k * 1 == k;
      SmallMod(k, c.n.m);
      AffineBelow(c, on, log, p, k * 1);
      OrderReduces(c, rp.x);
      Bits2IntIff(c, digest);
      var t, e, r := BeVal(Lead(c, digest)), Bits2Int(c, digest), Csub(c.n, rp.x);
      CongMod(t, c.n.m);
      SignCong(c, d, e, k, r);
      CongAdd(e, t, r * d, r * d, c.n.m);
      ZeroSolved(c.n.m, SValue(c.n, d, e, k, r), k, e + r * d);
      CongMeans(e + r * d, t + r * d, c.n.m);
    }
  }

  lemma CongMeans(a: int, b: int, m: nat)
    requires m > 0 && Cong(a, b, m)
    ensures Mod(a, m) == Mod(b, m)
  {}

  lemma ZeroSolved(m: nat, s: nat, k: nat, t: int)
    requires Prime(m) && s < m && 0 < k < m && m > 0 && Cong(s * k, t, m)
    ensures s == 0 <==> Mod(t, m) == 0
  {
    hide Mod, Prime;
    ModZero(m);
    if s > 0 { ProductNonzero(s, k, m); }
  }

  lemma CongChain(a: int, b: int, x: int, m: nat)
    requires m > 0 && Cong(a, b, m) && Cong(b, x, m)
    ensures Cong(a, x, m)
  {}

  /** A coordinate is below 2n, so it reduces to its residue modulo the order. */
  lemma OrderReduces(c: Curve, x: nat)
    requires CurveOk(c) && x < c.p.m
    ensures Csub(c.n, x) == Mod(x, c.n.m)
  {
    hide Prime, Rendered, Csub, Mod, Pow2;
    CurveBounds(c);
    RenderedBounds(c.n);
    Room(c.n);
    CsubReducesIff(c.n, x);
  }

  /** s as SignK computes it from e and r. */
  function SValue(f: Modulus, d: nat, e: nat, k: nat, r: nat): nat
    requires f.k > 0 && f.m >= 2
  {
    From(f, Mont(f, ScalarInv(f, To(f, k)), Add(f, To(f, e), Mont(f, To(f, r), To(f, d)))))
  }

  lemma SignDef(c: Curve, d: nat, digest: seq<Byte>, k: nat)
    requires Sizes(c)
    ensures Sizes(c) && c.p.k > 0 && c.p.m >= 2 && c.p.w > 0 && c.n.k > 0 && c.n.m >= 2 && c.n.w > 0
    ensures var sig := SignK(c, d, digest, k); var rp := ToAffine(c, MulPoint(c, k, Generator(c)));
            sig.ok ==> ScalarOk(c.n, d) && ScalarOk(c.n, k) && rp.ok && sig.r == Csub(c.n, rp.x) > 0
                       && sig.s == SValue(c.n, d, Bits2Int(c, digest), k, sig.r) > 0
    ensures var sig := SignK(c, d, digest, k); var rp := ToAffine(c, MulPoint(c, k, Generator(c)));
            !sig.ok ==> sig == REFUSED
                        && (ScalarOk(c.n, d) && ScalarOk(c.n, k) && rp.ok && Csub(c.n, rp.x) > 0 ==>
                              SValue(c.n, d, Bits2Int(c, digest), k, Csub(c.n, rp.x)) == 0)
  {
    hide ScalarOk, ToAffine, MulPoint, Csub, ScalarInv, To, From, Mont, Add, Bits2Int;
  }

  lemma SignCong(c: Curve, d: nat, e: nat, k: nat, r: nat)
    requires CurveOk(c) && d < c.n.m && e < c.n.m && 0 < k < c.n.m && r < c.n.m && c.n.k > 0 && c.n.m >= 2
    ensures SValue(c.n, d, e, k, r) < c.n.m && Cong(SValue(c.n, d, e, k, r) * k, e + r * d, c.n.m)
  {
    hide Mod, Prime, Rendered, Means, Val, To, From, Mont, Add, ScalarInv, Pow2, CurveOk;
    CurveBounds(c);
    var f := c.n;
    EnterMeans(f, d);
    EnterMeans(f, e);
    EnterMeans(f, k);
    EnterMeans(f, r);
    SmallMod(k, f.m);
    ScalarInvValue(f, To(f, k), k);
    var ki := ScalarInv(f, To(f, k));
    MeansSelf(f, ki);
    MeansProduct(f, To(f, r), r, To(f, d), d);
    MeansSum(f, To(f, e), e, Mont(f, To(f, r), To(f, d)), r * d);
    var sum := Add(f, To(f, e), Mont(f, To(f, r), To(f, d)));
    MeansProduct(f, ki, Val(f, ki), sum, e + r * d);
    LeaveMeans(f, Mont(f, ki, sum), Val(f, ki) * (e + r * d));
    SolveSign(f.m, k, Val(f, ki), e + r * d, SValue(f, d, e, k, r));
  }

  lemma LeaveMeans(f: Modulus, a: nat, x: int)
    requires Rendered(f) && Means(f, a, x)
    ensures From(f, a) < f.m && Cong(From(f, a), x, f.m)
  {
    hide Mod, Rendered, Val, From;
    RenderedBounds(f);
    LeaveValue(f, a);
  }

  lemma SolveSign(m: nat, k: nat, ki: nat, t: int, s: nat)
    requires m > 0 && Cong(k * ki, 1, m) && Cong(s, ki * t, m)
    ensures Cong(s * k, t, m)
  {
    hide Mod;
    CongMul(s, ki * t, k, k, m);
    CongMul(k * ki, 1, t, t, m);
    assert ki * t * k == k * ki * t by { Rotate(k, ki, t); }
  }

  lemma Rotate(a: int, b: int, c: int)
    ensures b * c * a == a * b * c
  {}

  // ── Verification ──────────────────────────────────────────────────

  /**
   * Verification under a point standing for j times the base accepts exactly the pairs in range for
   * which the point (e + r j)/s times the base is finite and has x = r modulo the order.
   */
  lemma VerifyIff(c: Curve, on: Point<nat> -> bool, log: Point<nat> -> nat, digest: seq<Byte>, r: nat, s: nat,
                  q: Affine, j: int, w: int, u: Point<nat>)
    requires CurveOk(c) && Group(c, on, log) && BeVal(Lead(c, digest)) < 2 * c.n.m
    requires q.ok && IsOnCurve(c, q.x, q.y) && Stands(c, on, log, FromAffine(c, q), j)
    requires 0 < r < c.n.m && 0 < s < c.n.m && Cong(s * w, 1, c.n.m)
    requires Stands(c, on, log, u, (BeVal(Lead(c, digest)) + r * j) * w)
    ensures Sizes(c)
    ensures VerifyDigest(c, digest, r, s, q) <==> ToAffine(c, u).ok && Mod(ToAffine(c, u).x, c.n.m) == r
  {
    hide *;
    SizesHold(c);
    SizesMean(c);
    CurveBounds(c);
    var f, e := c.n, Bits2Int(c, digest);
    Bits2IntIff(c, digest);
    VerifyDef(c, digest, r, s, q);
    var t := BeVal(Lead(c, digest));
    CongMod(t, f.m);
    var u1, u2, wi := VerifyScalars(c, e, r, s);
    InverseUnique(f.m, s, w, wi);
    KeyBelow(c, u1);
    KeyBelow(c, u2);
    GeneratorStands(c, on, log);
    MulStands(c, on, log, u1, Generator(c), 1);
    MulStands(c, on, log, u2, FromAffine(c, q), j);
    var p := AddPoint(c, MulPoint(c, u1, Generator(c)), MulPoint(c, u2, FromAffine(c, q)));
    AddStands(c, on, log, MulPoint(c, u1, Generator(c)), MulPoint(c, u2, FromAffine(c, q)), u1 * 1, u2 * j);
    VerifyCong(f.m, u1, u2, e, t, r, j, w, wi);
    AffineSame(c, on, log, p, u, u1 * 1 + u2 * j, (t + r * j) * w);
    if ToAffine(c, p).ok {
      AffineBelow(c, on, log, p, u1 * 1 + u2 * j);
      OrderReduces(c, ToAffine(c, p).x);
    }
  }

  /** The two scalars verification multiplies by. */
  lemma VerifyScalars(c: Curve, e: nat, r: nat, s: nat) returns (u1: nat, u2: nat, wi: nat)
    requires CurveOk(c) && e < c.n.m && r < c.n.m && 0 < s < c.n.m && c.n.k > 0 && c.n.m >= 2
    ensures var f := c.n; var w := ScalarInv(f, To(f, s));
            u1 == From(f, Mont(f, To(f, e), w)) && u2 == From(f, Mont(f, To(f, r), w))
    ensures u1 < c.n.m && u2 < c.n.m && Cong(s * wi, 1, c.n.m)
    ensures Cong(u1, e * wi, c.n.m) && Cong(u2, r * wi, c.n.m)
  {
    hide Mod, Prime, Rendered, Means, Val, To, From, Mont, Add, ScalarInv, Pow2, CurveOk;
    CurveBounds(c);
    var f := c.n;
    EnterMeans(f, e);
    EnterMeans(f, r);
    EnterMeans(f, s);
    SmallMod(s, f.m);
    ScalarInvValue(f, To(f, s), s);
    var w := ScalarInv(f, To(f, s));
    wi := Val(f, w);
    MeansSelf(f, w);
    MeansProduct(f, To(f, e), e, w, wi);
    MeansProduct(f, To(f, r), r, w, wi);
    u1, u2 := From(f, Mont(f, To(f, e), w)), From(f, Mont(f, To(f, r), w));
    LeaveMeans(f, Mont(f, To(f, e), w), e * wi);
    LeaveMeans(f, Mont(f, To(f, r), w), r * wi);
  }

  lemma VerifyDef(c: Curve, digest: seq<Byte>, r: nat, s: nat, q: Affine)
    requires Sizes(c) && q.ok && IsOnCurve(c, q.x, q.y) && 0 < r < c.n.m && 0 < s < c.n.m
    ensures Sizes(c) && c.p.k > 0 && c.p.m >= 2 && c.p.w > 0 && c.n.k > 0 && c.n.m >= 2 && c.n.w > 0
    ensures var f := c.n;
            var w := ScalarInv(f, To(f, s));
            var u1, u2 := From(f, Mont(f, To(f, Bits2Int(c, digest)), w)), From(f, Mont(f, To(f, r), w));
            var pt := ToAffine(c, AddPoint(c, MulPoint(c, u1, Generator(c)), MulPoint(c, u2, FromAffine(c, q))));
            VerifyDigest(c, digest, r, s, q) <==> pt.ok && Csub(f, pt.x) == r
  {
    hide ToAffine, MulPoint, AddPoint, Csub, ScalarInv, To, From, Mont, Bits2Int, IsOnCurve, FromAffine;
  }

  lemma InverseUnique(m: nat, s: nat, w: int, v: int)
    requires m > 0 && Cong(s * w, 1, m) && Cong(s * v, 1, m)
    ensures Cong(v, w, m)
  {
    hide Mod;
    CongMul(s * w, 1, v, v, m);
    CongMul(s * v, 1, w, w, m);
    assert s * w * v == s * v * w by { Rotate(s, w, v); Rotate(s, v, w); assert w * v == v * w; Swap(s, w, v); }
  }

  lemma Swap(s: int, w: int, v: int)
    ensures s * w * v == s * v * w
  {}

  lemma VerifyCong(m: nat, u1: int, u2: int, e: int, t: int, r: int, j: int, w: int, wi: int)
    requires m > 0 && Cong(u1, e * wi, m) && Cong(u2, r * wi, m) && Cong(wi, w, m) && Cong(e, t, m)
    ensures Mod(u1 * 1 + u2 * j, m) == Mod((t + r * j) * w, m)
  {
    hide Mod;
    CongMul(e, t, wi, w, m);
    CongMul(r, r, wi, w, m);
    CongMul(u2, r * w, j, j, m);
    CongAdd(u1, t * w, u2 * j, r * w * j, m);
    assert t * w + r * w * j == (t + r * j) * w by { Spread(t, r, j, w); }
  }

  lemma Spread(t: int, r: int, j: int, w: int)
    ensures t * w + r * w * j == (t + r * j) * w
  {
    assert r * w * j == r * j * w;
  }

  /** Whatever SignK releases verifies under the signer's public key. */
  lemma SignVerifies(c: Curve, on: Point<nat> -> bool, log: Point<nat> -> nat, d: nat, digest: seq<Byte>, k: nat)
    requires CurveOk(c) && Group(c, on, log) && d < Pow2(c.p.k + 8) && k < Pow2(c.p.k + 8)
    requires BeVal(Lead(c, digest)) < 2 * c.n.m
    ensures Sizes(c)
    ensures var sig := SignK(c, d, digest, k);
            sig.ok ==> VerifyDigest(c, digest, sig.r, sig.s, PublicKey(c, d))
  {
    hide *;
    SizesHold(c);
    SizesMean(c);
    CurveBounds(c);
    SignValue(c, on, log, d, digest, k);
    var sig := SignK(c, d, digest, k);
    if sig.ok {
      PublicStands(c, on, log, d);
      var w := InverseOf(c.n.m, sig.s);
      var t := BeVal(Lead(c, digest));
      var u := MulPoint(c, k, Generator(c));
      KeyBelow(c, k);
      GeneratorStands(c, on, log);
      MulStands(c, on, log, k, Generator(c), 1);
      Solved(c.n.m, sig.s, w, k, t + sig.r * d);
      StandsSame(c, on, log, u, k * 1, (t + sig.r * d) * w);
      VerifyIff(c, on, log, digest, sig.r, sig.s, PublicKey(c, d), d, w, u);
    }
  }

  lemma InverseOf(m: nat, s: nat) returns (w: int)
    requires Prime(m) && 0 < s < m
    ensures Cong(s * w, 1, m)
  {
    hide Mod, Prime;
    PrimeAboveOne(m);
    NotDivided(s, m);
    Fermat(s, m);
    w := Pow(s, m - 2);
    assert Pow(s, m - 1) == s * Pow(s, m - 2);
  }

  lemma Solved(m: nat, s: nat, w: int, k: nat, t: int)
    requires m > 0 && Cong(s * w, 1, m) && Cong(s * k, t, m)
    ensures Mod(k * 1, m) == Mod(t * w, m)
  {
    hide Mod;
    CongMul(s * k, t, w, w, m);
    CongMul(s * w, 1, k, k, m);
    assert s * k * w == s * w * k by { Swap(s, k, w); }
    assert 1 * k == k * 1;
  }

  lemma StandsSame(c: Curve, on: Point<nat> -> bool, log: Point<nat> -> nat, p: Point<nat>, k: int, l: int)
    requires CurveOk(c) && Stands(c, on, log, p, k) && Mod(k, c.n.m) == Mod(l, c.n.m)
    ensures Stands(c, on, log, p, l)
  {
    hide Mod, Rendered, Prime;
  }
}
