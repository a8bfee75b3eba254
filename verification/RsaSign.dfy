/** RSA signing on big-endian byte strings: the two halves, Garner's
    recombination, PKCS#1 v1.5 encoding and the entry checks
    (sections 5.2.1, 8.2.1 and 9.2 of RFC 8017). */
module RsaSign {
  import opened Arith
  import opened Words
  import opened NumberTheory
  import opened Octets
  import opened RsaHalf

  // ── The two halves recombined ─────────────────────────────────────

  /** Garner's recombination of mp and mq with si = 1/q mod p. */
  function Garner(c: nat, mp: nat, mq: nat, sp: nat, sq: nat, si: nat): nat
  {
    var pinv := Newton(c, sp, 1, NewtonSteps);
    var rr := Doubled(c, 1, sp, 2 * c);
    var diff := Csub(c, UAdd(Wid(c), mp, USub(Wid(c), sp, Csub(c, mq, sp))), sp);
    var h := Mont(c, Mont(c, diff, si, sp, pinv), rr, sp, pinv);
    UAdd(Wid(c), mq, UMul(Wid(c), h, sq))
  }

  function SignEm(c: nat, em: seq<Byte>, k: nat, d: seq<Byte>, p: seq<Byte>, q: seq<Byte>, iqmp: seq<Byte>): seq<Byte>
  {
    var m, sd := Load(Wid(c), em, 0, 0), Load(Wid(c), d, 0, 0);
    var sp, sq, si := Load(Wid(c), p, 0, 0), Load(Wid(c), q, 0, 0), Load(Wid(c), iqmp, 0, 0);
    I2osp(Garner(c, Half(c, m, sd, sp), Half(c, m, sd, sq), sp, sq, si), k)
  }

  /** The private and public operation on integers, x^e mod n. */
  function ModExp(x: nat, e: nat, n: nat): nat { if n == 0 then 0 else Mod(Pow(x, e), n) }

  // ── Encoding, public keys and verification ────────────────────────

  datatype HashAlg = Sha1 | Sha256 | Sha384 | Sha512

  function DigestInfo(h: HashAlg): seq<Byte>
  {
    match h
    case Sha1 => []
    case Sha256 => [48, 49, 48, 13, 6, 9, 96, 134, 72, 1, 101, 3, 4, 2, 1, 5, 0, 4, 32]
    case Sha384 => [48, 65, 48, 13, 6, 9, 96, 134, 72, 1, 101, 3, 4, 2, 2, 5, 0, 4, 48]
    case Sha512 => [48, 81, 48, 13, 6, 9, 96, 134, 72, 1, 101, 3, 4, 2, 3, 5, 0, 4, 64]
  }

  /** 00 01 FF..FF 00 || DigestInfo || digest in k bytes, or nothing. */
  function Pkcs1Em(h: HashAlg, digest: seq<Byte>, k: nat): seq<Byte>
  {
    var t := DigestInfo(h) + digest;
    if |DigestInfo(h)| == 0 || k < |t| + 11 then []
    else [0, 1] + seq(k - 3 - |t|, _ => 255) + [0] + t
  }

  function LeadZeros(b: seq<Byte>, i: nat): (r: nat)
    requires i <= |b|
    ensures i <= r <= |b| && (r < |b| ==> b[r] != 0) && forall j :: i <= j < r ==> b[j] == 0
    decreases |b| - i
  {
    if i >= |b| || b[i] != 0 then i else LeadZeros(b, i + 1)
  }

  function Strip(b: seq<Byte>): seq<Byte> { b[LeadZeros(b, 0)..] }

  function BitLen(top: nat, nbytes: int): int
  {
    if top == 0 then (nbytes - 1) * 8 else BitLen(top / 2, nbytes) + 1
  }

  /** The keys that verification accepts. */
  predicate PublicKeyOk(n: seq<Byte>, e: seq<Byte>)
  {
    var nb, eb := Strip(n), Strip(e);
    && 0 < |eb| <= |nb|
    && 2048 <= BitLen(nb[0], |nb|) <= 16384
    && nb[|nb| - 1] % 2 == 1 && eb[|eb| - 1] % 2 == 1
    && (|eb| == 1 ==> eb[0] >= 3) && |eb| <= 4
    && (|eb| == |nb| ==> BeVal(eb) < BeVal(nb))
  }

  /** The public operation as section 5.2.2 of RFC 8017 states it. */
  function PublicOp(n: seq<Byte>, e: seq<Byte>, sig: seq<Byte>): seq<Byte>
    requires PublicKeyOk(n, e)
  {
    var nb := Strip(n);
    if |sig| != |nb| || BeVal(sig) >= BeVal(nb) then []
    else I2osp(ModExp(BeVal(sig), BeVal(e), BeVal(nb)), |nb|)
  }

  predicate Verify(h: HashAlg, n: seq<Byte>, e: seq<Byte>, digest: seq<Byte>, sig: seq<Byte>)
  {
    && PublicKeyOk(n, e)
    && var em, want := PublicOp(n, e, sig), Pkcs1Em(h, digest, |Strip(n)|);
       em != [] && want != [] && em == want
  }

  // ── The entry ─────────────────────────────────────────────────────

  function SizeClass(bits: nat): nat { if bits <= 1024 then 1024 else if bits <= 1536 then 1536 else 2048 }

  predicate Refused(n: seq<Byte>, e: seq<Byte>, d: seq<Byte>, p: seq<Byte>, q: seq<Byte>, iqmp: seq<Byte>)
  {
    var k := |n|;
    || k < 128 || k > 512 || n[k - 1] % 2 == 0 || |e| == 0 || |d| > k || |p| != |q|
    || |p| * 2 < k - 1 || |p| * 2 > k + 1 || |iqmp| > |p|
  }

  function Sign(h: HashAlg, n0: seq<Byte>, e: seq<Byte>, d: seq<Byte>, p: seq<Byte>, q: seq<Byte>,
                iqmp: seq<Byte>, digest: seq<Byte>): seq<Byte>
  {
    var n := Strip(n0);
    if Refused(n, e, d, p, q, iqmp) then []
    else
      var em := Pkcs1Em(h, digest, |n|);
      if |em| != |n| then []
      else
        var s := SignEm(SizeClass(8 * |p|), em, |n|, d, p, q, iqmp);
        if Verify(h, n, e, digest, s) then s else []
  }

  // ── Garner's recombination ────────────────────────────────────────

  /** The masked difference before its last reduction: mp - mq raised by p, or by 2p, unless that is still negative. */
  lemma DiffRaised(c: nat, mp: nat, mq: nat, p: nat)
    requires mp < p < Pow2(c) && mq < Pow2(c)
    ensures var t := mp - mq + if mq < p then p else 2 * p;
            UAdd(Wid(c), mp, USub(Wid(c), p, Csub(c, mq, p))) == if t >= 0 then t else Pow2(Wid(c)) + t
  {
    hide Pow2, Csub;
    WordRoom(c);
    MulMono(1, Pow2(c), Pow2(c));
    CsubValue(c, mq, p);
    var w, y := Pow2(Wid(c)), Csub(c, mq, p);
    var t := mp + p - y;
    if y <= p {
      USubExact(Wid(c), p, y);
      UAddExact(Wid(c), mp, p - y);
    } else {
      DivModUnique(p - y, w, -1, w + p - y);
      if t >= 0 { DivModUnique(w + t, w, 1, t); } else { UAddExact(Wid(c), mp, w + p - y); }
    }
  }

  /** The masked difference is mp - mq modulo p exactly when mq is at most mp + 2p. */
  lemma DiffIff(c: nat, mp: nat, mq: nat, p: nat)
    requires mp < p < Pow2(c) && mq < Pow2(c)
    ensures Csub(c, UAdd(Wid(c), mp, USub(Wid(c), p, Csub(c, mq, p))), p) == Mod(mp - mq, p) <==> mq <= mp + 2 * p
  {
    hide Pow2, Csub, Mod, UAdd, USub;
    DiffRaised(c, mp, mq, p);
    var t := mp - mq + if mq < p then p else 2 * p;
    if t >= 0 {
      ReduceOnce(c, mp - mq, mq < p, p);
    } else {
      TopUnreduced(c, UAdd(Wid(c), mp, USub(Wid(c), p, Csub(c, mq, p))), t, mp - mq, p);
    }
  }

  /** A difference raised to between 0 and 2p is reduced by one masked subtraction. */
  lemma ReduceOnce(c: nat, x: int, once: bool, p: nat)
    requires 0 < p < Pow2(c) && 0 <= x + (if once then p else 2 * p) < 2 * p
    ensures Csub(c, x + (if once then p else 2 * p), p) == Mod(x, p)
  {
    hide Pow2, Csub, Mod;
    WordRoom(c);
    RoomFor(p, Pow2(c));
    var t := x + if once then p else 2 * p;
    CsubValue(c, t, p);
    var r := Csub(c, t, p);
    var up := (if once then 1 else 2) - if t >= p then 1 else 0;
    assert r == x + up * p;
    CongFrom(r, x, up, p);
    ModOfCong(r, x, p);
  }

  /** A negative difference has wrapped to the top of the word, where the masked subtraction leaves it. */
  lemma TopUnreduced(c: nat, u: nat, t: int, x: int, p: nat)
    requires 0 < p < Pow2(c) && 0 <= t + Pow2(c) && t < 0 && u == Pow2(Wid(c)) + t
    ensures Csub(c, u, p) != Mod(x, p)
  {
    hide Pow2, Csub;
    WordRoom(c);
    MulMono(1, Pow2(c), Pow2(c));
    assert Pow2(Wid(c) - 1) >= 8 * Pow2(c);
    CsubTop(c, u, p);
  }

  /** The difference is right for all residues of p and q exactly when q is at most 2p + 1. */
  lemma DiffAllIff(c: nat, p: nat, q: nat)
    requires 0 < p < Pow2(c) && q <= Pow2(c)
    ensures (forall mp: nat, mq: nat :: mp < p && mq < q ==> DiffRight(c, mp, mq, p)) <==> q <= 2 * p + 1
  {
    hide Pow2, Csub;
    forall mp: nat, mq: nat | mp < p && mq < q ensures DiffRight(c, mp, mq, p) <==> mq <= mp + 2 * p {
      DiffIff(c, mp, mq, p);
    }
    if q > 2 * p + 1 { assert !DiffRight(c, 0, q - 1, p); }
  }

  ghost predicate DiffRight(c: nat, mp: nat, mq: nat, p: nat)
    requires p > 0
  {
    Csub(c, UAdd(Wid(c), mp, USub(Wid(c), p, Csub(c, mq, p))), p) == Mod(mp - mq, p)
  }

  /** h = si (mp - mq) mod p through two Montgomery products. */
  lemma GarnerFactor(c: nat, diff: nat, si: nat, p: nat)
    requires c <= 4096 && 1 < p < Pow2(c) && p % 2 == 1 && diff < p && si < 2 * Pow2(c)
    ensures var pinv := Newton(c, p, 1, NewtonSteps);
            Mont(c, Mont(c, diff, si, p, pinv), Doubled(c, 1, p, 2 * c), p, pinv) == Mod(diff * si, p)
  {
    hide Mod, Pow2, Mont, Newton, Doubled;
    var r := Pow2(c);
    var pinv := Newton(c, p, 1, NewtonSteps);
    var ri := PinvConstants(c, p);
    DoubledValue(c, 1, p, 2 * c);
    Pow2Add(c, c);
    MontValue(c, diff, si, p, pinv, ri);
    EnterForm(c, diff * si * ri, p, pinv, ri);
    RInverse(c, p, pinv, ri);
    CongUnit(diff * si, ri, r, p) by { assert ri * r == r * ri; }
  }

  /** The recombined value is congruent to mp modulo p and to mq modulo q. */
  lemma GarnerCong(mp: int, mq: int, h: int, si: int, p: nat, q: nat)
    requires p > 0 && q > 0 && h == Mod(Mod(mp - mq, p) * si, p) && Cong(q * si, 1, p)
    ensures Cong(mq + h * q, mp, p) && Cong(mq + h * q, mq, q)
  {
    hide Mod;
    CongFrom(mq + h * q, mq, h, q);
    ModMul(mp - mq, si, p);
    CongMod((mp - mq) * si, p);
    CongMul(h, (mp - mq) * si, q, q, p);
    CongUnit(mp - mq, si, q, p) by { assert si * q == q * si; }
    CongAdd(mq, mq, h * q, mp - mq, p);
  }

  /** Both halves and Garner's recombination give m^d mod pq, below pq, with no
      addition or product wrapping. */
  lemma GarnerValue(c: nat, x: nat, p: nat, q: nat, si: nat)
    requires c <= 4096 && 1 < p < Pow2(c) && 1 < q < Pow2(c) && p % 2 == 1
    requires q <= 2 * p + 1 && si < 2 * Pow2(c) && Cong(q * si, 1, p)
    ensures p * q > 0 && Garner(c, Mod(x, p), Mod(x, q), p, q, si) == Mod(x, p * q)
  {
    hide Mod, Pow2, Mont, Csub, Newton, Doubled;
    var mp, mq := Mod(x, p), Mod(x, q);
    DiffIff(c, mp, mq, p);
    var diff := Mod(mp - mq, p);
    GarnerFactor(c, diff, si, p);
    var h := Mod(diff * si, p);
    GarnerBound(mq, h, p, q, Pow2(c));
    WordRoom(c);
    UMulExact(Wid(c), h, q);
    UAddExact(Wid(c), mq, h * q);
    var s := mq + h * q;
    GarnerCong(mp, mq, h, si, p, q);
    CongMod(x, p);
    CongMod(x, q);
    ChineseUnique(s, x, p, q, si);
    ModOfCong(s, x, p * q);
  }

  lemma GarnerBound(mq: nat, h: nat, p: nat, q: nat, r: nat)
    requires mq < q && h < p && q < r && p < r
    ensures mq + h * q < p * q && p * q < 8 * (r * r) && h * q < 8 * (r * r)
  {
    MulMono(h + 1, p, q);
    MulMono(p, r, q);
    MulMono(q, r, r);
  }

  /** The signature representative of one size class: s = m^d mod pq for every
      message and exponent that fit the class. */
  lemma CrtValue(c: nat, m: nat, d: nat, p: nat, q: nat, si: nat)
    requires c <= 4096 && 1 < p < Pow2(c) && 1 < q < Pow2(c) && p % 2 == 1 && q % 2 == 1
    requires q <= 2 * p + 1 && si < 2 * Pow2(c) && Cong(q * si, 1, p)
    requires m < 2 * p * Pow2(c) && m < 2 * q * Pow2(c) && d < Pow2(2 * c)
    ensures p * q > 0
    ensures Garner(c, Half(c, m, d, p), Half(c, m, d, q), p, q, si) == Mod(Pow(m, d), p * q)
  {
    hide Pow2, Half, Garner, Pow;
    HalfValue(c, m, d, p);
    HalfValue(c, m, d, q);
    if Pow(m, d) < 0 { PowNonneg(m, d); assert false; }
    GarnerValue(c, Pow(m, d), p, q, si);
  }

  lemma {:induction false} PowNonneg(m: nat, d: nat)
    ensures Pow(m, d) >= 0
  {
    if d > 0 {
      PowNonneg(m, d - 1);
      MulMono(0, m, Pow(m, d - 1));
    }
  }

  /** Primes of different bit length for which every recombination is right: 3 and 7. */
  lemma DifferentBitsRight(c: nat, m: nat, d: nat)
    requires 3 <= c <= 4096 && m < 6 * Pow2(c) && d < Pow2(2 * c)
    ensures Garner(c, Half(c, m, d, 3), Half(c, m, d, 7), 3, 7, 1) == Mod(Pow(m, d), 21)
  {
    hide Half, Garner, Pow;
    Pow2Mono(3, c);
    CrtValue(c, m, d, 3, 7, 1);
  }

  // ── The entry's checks imply the ranges ───────────────────────────

  /** An encoded message is below 2^(8k - 15). */
  lemma EmBound(em: seq<Byte>)
    requires |em| >= 2 && em[0] == 0 && em[1] == 1
    ensures BeVal(em) < Pow2(8 * |em| - 15)
  {
    assert em == [0] + em[1..] && em[1..] == [1] + em[2..];
    BeValCons(0, em[1..]);
    BeValCons(1, em[2..]);
    BeValBound(em[2..]);
    Pow2Succ(8 * |em| - 15);
  }

  /** A message of k bytes beginning 00 01 meets reduction's bound for any prime
      whose bytes are at least (k - 1)/2 with a nonzero first byte, however much
      shorter than the size class it is. */
  lemma EmFits(c: nat, em: seq<Byte>, p: seq<Byte>)
    requires |em| >= 2 && em[0] == 0 && em[1] == 1
    requires p != [] && p[0] != 0 && |em| <= 2 * |p| + 1 && 8 * |p| <= c
    ensures BeVal(em) < 2 * BeVal(p) * Pow2(c)
  {
    hide BeVal, Pow2;
    EmBound(em);
    BeValTop(p);
    var n := 8 * |p|;
    Pow2Mono(8 * |em| - 15, 1 + (n - 8) + n);
    Pow2Add(n - 8, n);
    Pow2Mono(n, c);
    Pow2Add(1, (n - 8) + n);
    Pow2One();
    ProductMono(Pow2(n - 8), BeVal(p), Pow2(n), Pow2(c));
    assert 2 * (BeVal(p) * Pow2(c)) == 2 * BeVal(p) * Pow2(c);
  }

  lemma ProductMono(a: nat, b: nat, x: nat, y: nat)
    requires a <= b && x <= y
    ensures a * x <= b * y
  {
    MulMono(a, b, x);
    MulMono(x, y, b);
  }

  /** What a key pair is: n = pq for odd primes whose byte strings have equal
      length and no leading zero, q at most 2p + 1, q^-1 mod p, and d inverse to e modulo
      p - 1 and q - 1. */
  ghost predicate KeyPair(n: seq<Byte>, e: seq<Byte>, d: seq<Byte>, p: seq<Byte>, q: seq<Byte>, iqmp: seq<Byte>)
  {
    && |p| == |q| > 0 && p[0] != 0 && q[0] != 0
    && Prime(BeVal(p)) && Prime(BeVal(q)) && BeVal(p) % 2 == 1 && BeVal(q) % 2 == 1
    && BeVal(q) <= 2 * BeVal(p) + 1
    && BeVal(n) == BeVal(p) * BeVal(q)
    && |iqmp| <= |p| && Cong(BeVal(q) * BeVal(iqmp), 1, BeVal(p))
    && |d| <= |n|
    && (exists j: nat :: Inverts(BeVal(d), BeVal(e), BeVal(p), j))
    && (exists j: nat :: Inverts(BeVal(d), BeVal(e), BeVal(q), j))
  }

  ghost predicate Inverts(d: nat, e: nat, p: nat, j: nat) { d * e == 1 + j * (p - 1) }

  /** The modulus of a key pair has 2|p| or 2|p| - 1 bytes, and its size class
      holds every number involved. */
  lemma KeySizes(n: seq<Byte>, e: seq<Byte>, d: seq<Byte>, p: seq<Byte>, q: seq<Byte>, iqmp: seq<Byte>)
    requires KeyPair(n, e, d, p, q, iqmp) && n != [] && n[0] != 0
    ensures 2 * |p| - 1 <= |n| <= 2 * |p|
  {
    hide BeVal, Prime, Cong, Inverts;
    var b := 8 * |p|;
    BeValTop(n);
    BeValBound(n);
    BeValTop(p);
    BeValTop(q);
    BeValBound(p);
    BeValBound(q);
    ProductMono(BeVal(p), Pow2(b), BeVal(q), Pow2(b));
    Pow2Add(b, b);
    if |n| > 2 * |p| {
      ModulusAbove(BeVal(p), BeVal(q), Pow2(b));
      Pow2Mono(b + b, 8 * (|n| - 1));
      assert false;
    }
    ProductMono(Pow2(b - 8), BeVal(p), Pow2(b - 8), BeVal(q));
    Pow2Add(b - 8, b - 8);
    if |n| < 2 * |p| - 1 {
      Pow2Mono(8 * |n|, (b - 8) + (b - 8));
      assert false;
    }
  }

  lemma ModulusAbove(p: nat, q: nat, r: nat)
    requires p < r && q < r
    ensures p * q < r * r
  {
    MulMono(p, r, q);
    MulMono(q + 1, r, r);
  }

  /** For a key pair, SignEm is the private operation of section 5.2.1:
      s = m^d mod n as k bytes. */
  lemma SignEmValue(h: HashAlg, em: seq<Byte>, n: seq<Byte>, e: seq<Byte>, d: seq<Byte>, p: seq<Byte>, q: seq<Byte>,
                    iqmp: seq<Byte>)
    requires KeyPair(n, e, d, p, q, iqmp) && 128 <= |n| <= 512 && n[0] != 0
    requires |em| == |n| && em[0] == 0 && em[1] == 1
    ensures SignEm(SizeClass(8 * |p|), em, |n|, d, p, q, iqmp)
         == I2osp(ModExp(BeVal(em), BeVal(d), BeVal(n)), |n|)
  {
    hide BeVal, Half, Garner, Prime, Inverts, I2osp, Pow, Mod;
    var c := SizeClass(8 * |p|);
    KeySizes(n, e, d, p, q, iqmp);
    assert 8 * |p| <= c <= 2048;
    LoadBytes(Wid(c), em);
    LoadBytes(Wid(c), d);
    LoadBytes(Wid(c), p);
    LoadBytes(Wid(c), q);
    LoadBytes(Wid(c), iqmp);
    Pow2Mono(8 * |p|, c);
    Pow2Mono(8 * |iqmp|, c);
    Pow2Mono(8 * |d|, 2 * c);
    EmFits(c, em, p);
    EmFits(c, em, q);
    PrimeAboveOne(BeVal(p));
    PrimeAboveOne(BeVal(q));
    CrtValue(c, BeVal(em), BeVal(d), BeVal(p), BeVal(q), BeVal(iqmp));
  }

  // ── Signatures verify ─────────────────────────────────────────────

  /** RSA's own law: raising to d and then to e is the identity modulo pq. */
  lemma RsaInverts(m: nat, d: nat, e: nat, p: nat, q: nat, qi: int, j: nat, l: nat)
    requires Prime(p) && Prime(q) && Cong(q * qi, 1, p)
    requires Inverts(d, e, p, j) && Inverts(d, e, q, l)
    ensures p * q > 0 && Cong(Pow(Mod(Pow(m, d), p * q), e), m, p * q)
  {
    hide Mod, Prime;
    PrimeAboveOne(p);
    PrimeAboveOne(q);
    FermatExponent(m, d * e, j, p);
    FermatExponent(m, d * e, l, q);
    ChineseUnique(Pow(m, d * e), m, p, q, qi);
    PowMul(m, d, e);
    CongMod(Pow(m, d), p * q);
    CongPow(Mod(Pow(m, d), p * q), Pow(m, d), e, p * q);
  }

  lemma EmShape(h: HashAlg, digest: seq<Byte>, k: nat)
    requires Pkcs1Em(h, digest, k) != []
    ensures var em := Pkcs1Em(h, digest, k); |em| == k >= 11 && em[0] == 0 && em[1] == 1
  {}

  /** Every message a key pair signs gets the signature m^d mod n, and that
      signature passes the check with the public key that releases it. */
  lemma SignAccepted(h: HashAlg, n0: seq<Byte>, e: seq<Byte>, d: seq<Byte>, p: seq<Byte>, q: seq<Byte>,
                     iqmp: seq<Byte>, digest: seq<Byte>)
    requires PublicKeyOk(n0, e) && |Strip(n0)| <= 512 && e != []
    requires KeyPair(Strip(n0), e, d, p, q, iqmp)
    requires Pkcs1Em(h, digest, |Strip(n0)|) != []
    ensures var n := Strip(n0);
            var s := Sign(h, n0, e, d, p, q, iqmp, digest);
            && s == I2osp(ModExp(BeVal(Pkcs1Em(h, digest, |n|)), BeVal(d), BeVal(n)), |n|)
            && |s| == |n| && Verify(h, n, e, digest, s)
  {
    hide *;
    var n := Strip(n0);
    var em := Pkcs1Em(h, digest, |n|);
    EmShape(h, digest, |n|);
    PublicKeyStripped(n0, e);
    NotRefused(n, e, d, p, q, iqmp);
    SignEmValue(h, em, n, e, d, p, q, iqmp);
    SignatureVerifies(em, n, e, d, p, q, iqmp);
    var s := I2osp(ModExp(BeVal(em), BeVal(d), BeVal(n)), |n|);
    VerifyFrom(h, n, e, digest, s);
    SignFrom(h, n0, e, d, p, q, iqmp, digest, s);
  }

  /** The bit length of a byte string without leading zeros. */
  function Bits(b: seq<Byte>): int
    requires b != []
  {
    BitLen(b[0], |b|)
  }

  lemma {:induction false} BitLenRange(top: nat, nbytes: nat)
    requires top > 0 && nbytes > 0
    ensures var l := BitLen(top, nbytes) - 8 * (nbytes - 1); l > 0 && Pow2(l - 1) <= top < Pow2(l)
  {
    if top > 1 { BitLenRange(top / 2, nbytes); }
  }

  /** A number of l bits lies between 2^(l - 1) and 2^l. */
  lemma BitsRange(b: seq<Byte>)
    requires b != [] && b[0] != 0
    ensures Bits(b) > 0 && Pow2(Bits(b) - 1) <= BeVal(b) < Pow2(Bits(b))
  {
    hide Pow2, BeVal, BitLen;
    var n := 8 * (|b| - 1);
    BitLenRange(b[0], |b|);
    var l := Bits(b) - n;
    assert b == [b[0]] + b[1..];
    BeValCons(b[0], b[1..]);
    BeValBound(b[1..]);
    Pow2Add(l - 1, n);
    Pow2Add(l, n);
    ProductMono(Pow2(l - 1), b[0], Pow2(n), Pow2(n));
    var top: nat := b[0];
    ProductMono(top + 1, Pow2(l), Pow2(n), Pow2(n));
  }

  /** Primes of one bit length, which the documentation asks for, meet the bound on q; so may others. */
  lemma SameBitsFit(p: seq<Byte>, q: seq<Byte>)
    requires p != [] && q != [] && p[0] != 0 && q[0] != 0 && Bits(p) == Bits(q)
    ensures BeVal(q) < 2 * BeVal(p)
  {
    hide BeVal, Bits;
    BitsRange(p);
    BitsRange(q);
    Pow2Succ(Bits(p));
  }

  /** A key pair whose primes differ in bit length is signed like any other. */
  lemma DifferentBitsSigned(h: HashAlg, n0: seq<Byte>, e: seq<Byte>, d: seq<Byte>, p: seq<Byte>, q: seq<Byte>,
                            iqmp: seq<Byte>, digest: seq<Byte>)
    requires PublicKeyOk(n0, e) && |Strip(n0)| <= 512 && e != []
    requires KeyPair(Strip(n0), e, d, p, q, iqmp) && p != [] && q != [] && Bits(p) != Bits(q)
    requires Pkcs1Em(h, digest, |Strip(n0)|) != []
    ensures var s := Sign(h, n0, e, d, p, q, iqmp, digest); s != [] && Verify(h, Strip(n0), e, digest, s)
  {
    hide *;
    SignAccepted(h, n0, e, d, p, q, iqmp, digest);
    PublicKeyStripped(n0, e);
  }

  lemma VerifyFrom(h: HashAlg, n: seq<Byte>, e: seq<Byte>, digest: seq<Byte>, s: seq<Byte>)
    requires PublicKeyOk(n, e) && Strip(n) == n && |s| == |n| && BeVal(s) < BeVal(n)
    requires I2osp(ModExp(BeVal(s), BeVal(e), BeVal(n)), |n|) == Pkcs1Em(h, digest, |n|) != []
    ensures Verify(h, n, e, digest, s)
  {
    hide BeVal, I2osp, ModExp, Pkcs1Em, PublicKeyOk, Strip;
  }

  lemma SignFrom(h: HashAlg, n0: seq<Byte>, e: seq<Byte>, d: seq<Byte>, p: seq<Byte>, q: seq<Byte>,
                 iqmp: seq<Byte>, digest: seq<Byte>, s: seq<Byte>)
    requires var n := Strip(n0);
             && !Refused(n, e, d, p, q, iqmp)
             && |Pkcs1Em(h, digest, |n|)| == |n|
             && SignEm(SizeClass(8 * |p|), Pkcs1Em(h, digest, |n|), |n|, d, p, q, iqmp) == s
             && Verify(h, n, e, digest, s)
    ensures Sign(h, n0, e, d, p, q, iqmp, digest) == s
  {
    hide SignEm, Pkcs1Em, Refused, Strip, Verify;
  }

  lemma PublicKeyStripped(n0: seq<Byte>, e: seq<Byte>)
    ensures Strip(Strip(n0)) == Strip(n0)
    ensures PublicKeyOk(n0, e) <==> PublicKeyOk(Strip(n0), e)
    ensures PublicKeyOk(n0, e) ==> |Strip(n0)| >= 256 && Strip(n0)[0] != 0 && Strip(n0)[|Strip(n0)| - 1] % 2 == 1
  {
    StrippedTop(n0);
    hide BeVal, BitLen, Strip;
    if PublicKeyOk(n0, e) {
      BitLenTop(Strip(n0)[0], |Strip(n0)|);
    }
  }

  lemma StrippedTop(b: seq<Byte>)
    ensures Strip(Strip(b)) == Strip(b) && (Strip(b) != [] ==> Strip(b)[0] != 0)
  {
    StripIdle(Strip(b));
  }

  /** The entry's checks accept every key pair of an accepted size. */
  lemma NotRefused(n: seq<Byte>, e: seq<Byte>, d: seq<Byte>, p: seq<Byte>, q: seq<Byte>, iqmp: seq<Byte>)
    requires KeyPair(n, e, d, p, q, iqmp) && 128 <= |n| <= 512 && n[0] != 0 && n[|n| - 1] % 2 == 1 && e != []
    ensures !Refused(n, e, d, p, q, iqmp)
  {
    hide BeVal, Prime, Cong;
    KeySizes(n, e, d, p, q, iqmp);
  }

  lemma {:induction false} BitLenTop(top: Byte, nbytes: nat)
    ensures BitLen(top, nbytes) <= 8 * nbytes
  {
    BitLenBound(top, 8, nbytes);
  }

  lemma {:induction false} BitLenBound(top: nat, b: nat, nbytes: int)
    requires top < Pow2(b)
    ensures BitLen(top, nbytes) <= (nbytes - 1) * 8 + b
  {
    if top > 0 { BitLenBound(top / 2, b - 1, nbytes); }
  }

  lemma StripIdle(n: seq<Byte>)
    requires n == [] || n[0] != 0
    ensures Strip(n) == n
  {}

  lemma SignatureVerifies(em: seq<Byte>, n: seq<Byte>, e: seq<Byte>, d: seq<Byte>, p: seq<Byte>, q: seq<Byte>,
                          iqmp: seq<Byte>)
    requires KeyPair(n, e, d, p, q, iqmp) && n != [] && n[0] != 0
    requires |em| == |n| >= 2 && em[0] == 0 && em[1] == 1
    ensures var s := I2osp(ModExp(BeVal(em), BeVal(d), BeVal(n)), |n|);
            && |s| == |n| && BeVal(s) < BeVal(n)
            && I2osp(ModExp(BeVal(s), BeVal(e), BeVal(n)), |n|) == em
  {
    hide BeVal, I2osp, Pow, Mod, Prime;
    var pv, qv, nv, m := BeVal(p), BeVal(q), BeVal(n), BeVal(em);
    var j: nat :| Inverts(BeVal(d), BeVal(e), pv, j);
    var l: nat :| Inverts(BeVal(d), BeVal(e), qv, l);
    RsaInverts(m, BeVal(d), BeVal(e), pv, qv, BeVal(iqmp), j, l);
    var x := Mod(Pow(m, BeVal(d)), nv);
    BeValBound(n);
    I2ospValue(x, |n|);
    ModOfSmall(x, Pow2(8 * |n|));
    EmBound(em);
    BeValTop(n);
    Pow2Mono(8 * |em| - 15, 8 * (|n| - 1));
    ModOfCong(m, Pow(x, BeVal(e)), nv);
    I2ospOfBytes(em);
  }

  /** Nothing is released that does not verify, whatever the key. */
  lemma SignReleasesVerified(h: HashAlg, n0: seq<Byte>, e: seq<Byte>, d: seq<Byte>, p: seq<Byte>, q: seq<Byte>,
                             iqmp: seq<Byte>, digest: seq<Byte>)
    ensures var s := Sign(h, n0, e, d, p, q, iqmp, digest);
            s == [] || (Verify(h, n0, e, digest, s) && |s| == |Strip(n0)|)
  {
    hide BeVal, I2osp, Pow, Mod, SignEm, Pkcs1Em, Refused, PublicKeyOk, Strip;
    PublicKeyStripped(n0, e);
  }
}
