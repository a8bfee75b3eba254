/** The private half of RSA for one prime: Montgomery reduction on one wide
    word, Newton's inverse, masked doublings and a masked-swap ladder. k is the
    size class in bits; words have 2k + 64 bits and R = 2^k. */
module RsaHalf {
  import opened Arith
  import opened Words

  function Wid(k: nat): nat { 2 * k + 64 }

  function Mask(k: nat, bit: nat): nat { USub(Wid(k), 0, And(bit, 1)) }

  function Sel(m: nat, a: nat, b: nat): nat { Xor(b, And(Xor(a, b), m)) }

  function Csub(k: nat, t: nat, p: nat): nat
  {
    var d := USub(Wid(k), t, p);
    Sel(Mask(k, Shr(d, Wid(k) - 1)), t, d)
  }

  function RMask(k: nat): nat { USub(Wid(k), Shl(Wid(k), 1, k), 1) }

  function Redc(k: nat, t: nat, p: nat, pinv: nat): nat
  {
    var m := And(UMul(Wid(k), And(t, RMask(k)), pinv), RMask(k));
    var u := Shr(UAdd(Wid(k), t, UMul(Wid(k), m, p)), k);
    Csub(k, Csub(k, u, p), p)
  }

  function Mont(k: nat, a: nat, b: nat, p: nat, pinv: nat): nat
  {
    Redc(k, UMul(Wid(k), a, b), p, pinv)
  }

  function NewtonStep(k: nat, p: nat, x: nat): nat
  {
    var px := And(UMul(Wid(k), p, x), RMask(k));
    And(UMul(Wid(k), x, USub(Wid(k), 2, px)), RMask(k))
  }

  function Newton(k: nat, p: nat, x: nat, i: nat): nat
    decreases i
  {
    if i == 0 then And(USub(Wid(k), 0, x), RMask(k)) else Newton(k, p, NewtonStep(k, p, x), i - 1)
  }

  function Doubled(k: nat, r: nat, p: nat, n: nat): nat
    decreases n
  {
    if n == 0 then r else Doubled(k, Csub(k, Shl(Wid(k), r, 1), p), p, n - 1)
  }

  datatype Pair = Pair(a: nat, b: nat)

  /** The ladder over the low n bits of d, from bit n - 1 down. */
  function Ladder(k: nat, d: nat, n: nat, r: Pair, p: nat, pinv: nat): Pair
    decreases n
  {
    if n == 0 then r
    else
      var m := Mask(k, Shr(d, n - 1));
      var x0 := Sel(m, r.b, r.a);
      var x1 := Sel(m, r.a, r.b);
      var y1 := Mont(k, x0, x1, p, pinv);
      var y0 := Mont(k, x0, x0, p, pinv);
      Ladder(k, d, n - 1, Pair(Sel(m, y1, y0), Sel(m, y0, y1)), p, pinv)
  }

  const NewtonSteps := 12

  function Half(k: nat, m: nat, d: nat, p: nat): nat
  {
    var pinv := Newton(k, p, 1, NewtonSteps);
    var rr := Doubled(k, 1, p, 2 * k);
    var mp := Mont(k, Redc(k, m, p, pinv), rr, p, pinv);
    var base := Mont(k, mp, rr, p, pinv);
    var one := Mont(k, 1, rr, p, pinv);
    var r := Ladder(k, d, 2 * k, Pair(one, base), p, pinv);
    Redc(k, r.a, p, pinv)
  }

  // ── The word tricks ───────────────────────────────────────────────

  lemma MaskValue(k: nat, bit: nat)
    ensures Mask(k, bit) == if bit % 2 == 1 then Pow2(Wid(k)) - 1 else 0
  {
    AndLow(bit, 1);
    assert Pow2(1) == 2;
    DivModUnique(bit, 2, bit / 2, bit % 2);
    if bit % 2 == 1 {
      DivModUnique(-1, Pow2(Wid(k)), -1, Pow2(Wid(k)) - 1);
    }
  }

  /** The masked select is a conditional on words. */
  lemma SelValue(k: nat, m: nat, a: nat, b: nat)
    requires a < Pow2(Wid(k)) && b < Pow2(Wid(k))
    ensures m == Pow2(Wid(k)) - 1 ==> Sel(m, a, b) == a
    ensures m == 0 ==> Sel(m, a, b) == b
  {
    XorBound(a, b, Wid(k));
    AndOnes(Xor(a, b), Wid(k));
    XorCancel(a, b);
    XorZero(b);
  }

  lemma RMaskValue(k: nat)
    ensures RMask(k) == Pow2(k) - 1
  {
    Pow2Mono(k, Wid(k) - 1);
  }

  /** The masked subtraction subtracts exactly when nothing is borrowed. */
  lemma CsubValue(k: nat, t: nat, p: nat)
    requires t < Pow2(Wid(k) - 1) && p <= Pow2(Wid(k) - 1)
    ensures Csub(k, t, p) == if t >= p then t - p else t
  {
    var w, h := Pow2(Wid(k)), Pow2(Wid(k) - 1);
    assert w == 2 * h;
    var d := USub(Wid(k), t, p);
    if t >= p {
      DivModUnique(t - p, w, 0, t - p);
      DivModUnique(d, h, 0, d);
    } else {
      DivModUnique(t - p, w, -1, t - p + w);
      DivModUnique(d, h, 1, d - h);
    }
    MaskValue(k, Shr(d, Wid(k) - 1));
    SelValue(k, Mask(k, Shr(d, Wid(k) - 1)), t, d);
  }

  /** A word whose top bit survives the subtraction is left alone. */
  lemma CsubTop(k: nat, t: nat, p: nat)
    requires Pow2(Wid(k) - 1) + p <= t < Pow2(Wid(k))
    ensures Csub(k, t, p) == t
  {
    var w, h := Pow2(Wid(k)), Pow2(Wid(k) - 1);
    assert w == 2 * h;
    var d := USub(Wid(k), t, p);
    DivModUnique(t - p, w, 0, t - p);
    DivModUnique(d, h, 1, d - h);
    MaskValue(k, Shr(d, Wid(k) - 1));
    SelValue(k, Mask(k, Shr(d, Wid(k) - 1)), t, d);
  }

  /** One masked subtraction reduces modulo p exactly the values below 2p. */
  lemma CsubReducesIff(k: nat, t: nat, p: nat)
    requires t < Pow2(Wid(k) - 1) && 0 < p <= Pow2(Wid(k) - 1)
    ensures Csub(k, t, p) == Mod(t, p) <==> t < 2 * p
  {
    hide Csub;
    CsubValue(k, t, p);
  }

  // ── Montgomery reduction ──────────────────────────────────────────

  /** What the constants of one prime satisfy: pinv is -1/p modulo R, and so
      ri = (p pinv + 1) / R is 1/R modulo p. */
  ghost predicate Constants(k: nat, p: nat, pinv: nat, ri: nat)
  {
    1 < p < Pow2(k) && pinv < Pow2(k) && p * pinv + 1 == Pow2(k) * ri
  }

  lemma RInverse(k: nat, p: nat, pinv: nat, ri: nat)
    requires Constants(k, p, pinv, ri)
    ensures Cong(Pow2(k) * ri, 1, p)
  {
    hide Mod;
    CongFrom(Pow2(k) * ri, 1, pinv, p);
  }

  lemma WordRoom(k: nat)
    ensures Pow2(Wid(k) - 1) >= 8 * (Pow2(k) * Pow2(k)) && Pow2(Wid(k)) == 2 * Pow2(Wid(k) - 1)
  {
    Pow2Add(k, k);
    Pow2Add(3, 2 * k);
    assert Pow2(3) == 8;
    Pow2Mono(3 + 2 * k, Wid(k) - 1);
  }

  /** The multiple of p that reduction adds, in exact arithmetic. */
  function Factor(r: nat, t: nat, pinv: nat): (m: nat)
    requires r > 0
    ensures m < r
  {
    Mod(Mod(t, r) * pinv, r)
  }

  /** Adding that multiple clears the low k bits. */
  lemma FactorClears(k: nat, t: nat, p: nat, pinv: nat, ri: nat)
    requires Constants(k, p, pinv, ri)
    ensures Mod(t + Factor(Pow2(k), t, pinv) * p, Pow2(k)) == 0
  {
    hide Mod, Pow2;
    var r := Pow2(k);
    var t0, m := Mod(t, r), Factor(r, t, pinv);
    CongMod(t0 * pinv, r);
    CongMul(m, t0 * pinv, p, p, r);
    CongMod(t, r);
    CongAdd(t, t0, m * p, t0 * pinv * p, r);
    ClearIdentity(t0, p, pinv, r, ri);
    CongFrom(t0 + t0 * pinv * p, 0, t0 * ri, r);
    ModOfZero(r);
  }

  lemma ModOfZero(r: nat)
    requires r > 0
    ensures Mod(0, r) == 0
  {}

  lemma ClearIdentity(t: nat, p: nat, pinv: nat, r: nat, ri: nat)
    requires p * pinv + 1 == r * ri
    ensures t + t * pinv * p == 0 + t * ri * r
  {
    assert t * pinv * p == t * (p * pinv);
    assert t * (r * ri) == t * ri * r;
  }

  /** Reduction never wraps: its steps are those of exact arithmetic. */
  lemma RedcExact(k: nat, t: nat, p: nat, pinv: nat)
    requires 0 < p < Pow2(k) && pinv < Pow2(k) && t < 3 * p * Pow2(k)
    ensures var u := Div(t + Factor(Pow2(k), t, pinv) * p, Pow2(k));
            Redc(k, t, p, pinv) == Csub(k, Csub(k, u, p), p)
  {
    hide Mod, Div, Pow2, Csub;
    var r := Pow2(k);
    WordRoom(k);
    RMaskValue(k);
    AndLow(t, k);
    var t0 := Mod(t, r);
    SumBound(t0, 0, pinv, r);
    UMulExact(Wid(k), t0, pinv);
    AndLow(t0 * pinv, k);
    var m := Factor(r, t, pinv);
    SumBound(m, t, p, r);
    UMulExact(Wid(k), m, p);
    UAddExact(Wid(k), t, m * p);
  }

  lemma SumBound(m: nat, t: nat, p: nat, r: nat)
    requires m < r && p < r && (t == 0 || t < 3 * p * r)
    ensures m * p <= r * r && t + m * p <= 4 * (r * r)
  {
    MulMono(m, r, p);
    MulMono(p, r, r);
  }

  /** Montgomery reduction of T < 2pR never wraps and returns T/R mod p, fully
      reduced. */
  lemma RedcValue(k: nat, t: nat, p: nat, pinv: nat, ri: nat)
    requires Constants(k, p, pinv, ri) && t < 2 * p * Pow2(k)
    ensures Redc(k, t, p, pinv) == Mod(t * ri, p)
  {
    hide Mod, Div, Pow2, Csub;
    var r := Pow2(k);
    assert t < 3 * p * r by { MulMono(2 * p, 3 * p, r); }
    RedcExact(k, t, p, pinv);
    FactorClears(k, t, p, pinv, ri);
    var m := Factor(r, t, pinv);
    var u := Div(t + m * p, r);
    DivMod(t + m * p, r);
    UBound(u, t, m, p, r);
    WordRoom(k);
    RoomFor(p, r);
    CsubValue(k, u, p);
    CsubValue(k, Csub(k, u, p), p);
    RedcCong(Redc(k, t, p, pinv), u, t, m, p, r, ri, pinv);
  }

  lemma RoomFor(p: nat, r: nat)
    requires p < r
    ensures 4 * p < 8 * (r * r)
  {
    MulMono(1, r, r);
  }

  /** The exact reach of the two subtractions: below 3pR the result is fully
      reduced if and only if T with its added multiple of p stays below 3pR.
      Every T < 2pR does (RedcValue); the comment in the source claims every
      T < 3pR, which `RedcUnreduced` refutes. */
  lemma RedcReducedIff(k: nat, t: nat, p: nat, pinv: nat, ri: nat)
    requires Constants(k, p, pinv, ri) && t < 3 * p * Pow2(k)
    ensures Redc(k, t, p, pinv) < p <==> t + Factor(Pow2(k), t, pinv) * p < 3 * p * Pow2(k)
  {
    hide Mod, Div, Pow2, Csub;
    var r := Pow2(k);
    RedcExact(k, t, p, pinv);
    FactorClears(k, t, p, pinv, ri);
    var m := Factor(r, t, pinv);
    var u := Div(t + m * p, r);
    DivMod(t + m * p, r);
    UReach(u, t, m, p, r);
    WordRoom(k);
    RoomFor(p, r);
    CsubValue(k, u, p);
    CsubValue(k, Csub(k, u, p), p);
  }

  lemma UReach(u: nat, t: nat, m: nat, p: nat, r: nat)
    requires r * u == t + m * p && t < 3 * p * r && m < r && 0 < p
    ensures u < 4 * p && (u < 3 * p <==> t + m * p < 3 * p * r)
  {
    MulMono(m, r, p);
    if u >= 4 * p {
      MulMono(4 * p, u, r);
      assert false;
    }
    if u >= 3 * p {
      MulMono(3 * p, u, r);
    } else {
      MulMono(u + 1, 3 * p, r);
    }
  }

  lemma RedcUnreduced()
    ensures Constants(2, 3, 1, 1) && 35 < 3 * 3 * Pow2(2) && Redc(2, 35, 3, 1) >= 3
  {
    assert Pow2(2) == 4;
    RedcReducedIff(2, 35, 3, 1, 1);
    DivModUnique(35, 4, 8, 3);
  }

  lemma UBound(u: nat, t: nat, m: nat, p: nat, r: nat)
    requires r * u == t + m * p && t < 2 * p * r && m < r && 0 < p
    ensures u < 3 * p
  {
    MulMono(m, r, p);
    if u >= 3 * p {
      MulMono(3 * p, u, r);
      assert false;
    }
  }

  lemma RedcCong(c: nat, u: nat, t: nat, m: nat, p: nat, r: nat, ri: nat, pinv: nat)
    requires 1 < p && r * u == t + m * p && p * pinv + 1 == r * ri
    requires c < p && (c == u || c == u - p || c == u - 2 * p)
    ensures c == Mod(t * ri, p)
  {
    hide Mod;
    CongFrom(c, u, if c == u then 0 else if c == u - p then -1 else -2, p);
    RedcIdentity(u, t, m, p, r, ri, pinv);
    CongFrom(u, t * ri, m * ri - u * pinv, p);
    ModOfCong(c, t * ri, p);
  }

  lemma RedcIdentity(u: int, t: int, m: int, p: int, r: int, ri: int, pinv: int)
    requires r * u == t + m * p && p * pinv + 1 == r * ri
    ensures u == t * ri + (m * ri - u * pinv) * p
  {
    assert u * (p * pinv + 1) == u * (r * ri);
    assert u * (r * ri) == (r * u) * ri;
    assert (t + m * p) * ri == t * ri + m * ri * p;
  }

  /** The Montgomery product of a and b is a b / R mod p. */
  lemma MontValue(k: nat, a: nat, b: nat, p: nat, pinv: nat, ri: nat)
    requires Constants(k, p, pinv, ri) && a < p && b < 2 * Pow2(k)
    ensures Mont(k, a, b, p, pinv) == Mod(a * b * ri, p)
    ensures Mont(k, b, a, p, pinv) == Mod(a * b * ri, p)
  {
    hide Mod, Div, Pow2, Redc;
    MontBound(a, b, p, Pow2(k));
    WordRoom(k);
    UMulExact(Wid(k), a, b);
    RedcValue(k, a * b, p, pinv, ri);
  }

  lemma MontBound(a: nat, b: nat, p: nat, r: nat)
    requires a < p && b < 2 * r && p <= r
    ensures a * b < 2 * p * r && a * b < 8 * (r * r) && b * a == a * b
  {
    MulMono(b, 2 * r, a);
    MulMono(a + 1, p, 2 * r);
    MulMono(p, r, r);
  }

  /** Montgomery forms multiply: (x R)(y R)/R is (x y) R. */
  lemma MontForms(k: nat, x: int, y: int, p: nat, pinv: nat, ri: nat)
    requires Constants(k, p, pinv, ri)
    ensures var r := Pow2(k);
            Mont(k, Mod(x * r, p), Mod(y * r, p), p, pinv) == Mod(x * y * r, p)
  {
    hide Mod, Div, Pow2, Mont;
    var r := Pow2(k);
    var a, b := Mod(x * r, p), Mod(y * r, p);
    MontValue(k, a, b, p, pinv, ri);
    CongMod(x * r, p);
    CongMod(y * r, p);
    CongMul(a, x * r, b, y * r, p);
    CongMul(a * b, x * r * (y * r), ri, ri, p);
    RInverse(k, p, pinv, ri);
    CongMul(x * y * r, x * y * r, r * ri, 1, p);
    assert x * r * (y * r) * ri == x * y * r * (r * ri) by { FormsIdentity(x, y, r, ri); }
    CongMod(a * b * ri, p);
    ModOfCong(Mod(a * b * ri, p), x * y * r, p);
  }

  lemma FormsIdentity(x: int, y: int, r: int, ri: int)
    ensures x * r * (y * r) * ri == x * y * r * (r * ri)
  {
    assert x * r * (y * r) == x * y * r * r;
  }

  // ── Newton's inverse ──────────────────────────────────────────────

  lemma LowBits(k: nat, x: int)
    ensures And(Mod(x, Pow2(Wid(k))), RMask(k)) == Mod(x, Pow2(k))
  {
    hide Mod, Pow2;
    RMaskValue(k);
    AndLow(Mod(x, Pow2(Wid(k))), k);
    ModPow2(x, k, Wid(k));
  }

  /** One step computes x (2 - p x) modulo R, whatever wraps on the way. */
  lemma NewtonStepCong(k: nat, p: nat, x: nat)
    ensures NewtonStep(k, p, x) < Pow2(k)
    ensures Cong(NewtonStep(k, p, x), x * (2 - p * x), Pow2(k))
  {
    hide Mod, Pow2;
    var r := Pow2(k);
    LowBits(k, p * x);
    var px := Mod(p * x, r);
    var s := USub(Wid(k), 2, px);
    LowBits(k, x * s);
    CongMod(x * s, r);
    CongMod(2 - px, Pow2(Wid(k)));
    CongPow2(s, 2 - px, k, Wid(k));
    CongMod(p * x, r);
    CongAdd(2, 2, px, p * x, r);
    CongMul(x, x, s, 2 - p * x, r);
  }

  /** One step doubles the number of low bits of 1/p that are right. */
  lemma NewtonDoubles(k: nat, p: nat, x: nat, e: nat)
    requires e <= k && Cong(p * x, 1, Pow2(e))
    ensures var y := NewtonStep(k, p, x);
            Cong(p * y, 1, Pow2(if 2 * e <= k then 2 * e else k))
  {
    hide Mod, Pow2;
    var y := NewtonStep(k, p, x);
    var f := if 2 * e <= k then 2 * e else k;
    NewtonStepCong(k, p, x);
    CongPow2(y, x * (2 - p * x), f, k);
    CongMul(p, p, y, x * (2 - p * x), Pow2(f));
    var j := CongWitness(p * x, 1, Pow2(e));
    Pow2Add(e, e);
    Pow2Add(f, 2 * e - f);
    SquareIdentity(p, x, j, Pow2(e), Pow2(f), Pow2(2 * e - f));
    CongFrom(p * (x * (2 - p * x)), 1, -(j * j * Pow2(2 * e - f)), Pow2(f));
  }

  lemma SquareIdentity(p: int, x: int, j: int, e: int, f: int, g: int)
    requires p * x == 1 + j * e && e * e == f * g
    ensures p * (x * (2 - p * x)) == 1 + -(j * j * g) * f
  {
    assert p * (x * (2 - p * x)) == (p * x) * (2 - p * x);
    assert (1 + j * e) * (1 - j * e) == 1 - j * j * (e * e);
    assert j * j * (f * g) == j * j * g * f;
  }

  /** From e right bits, i steps and the final negation give -1/p modulo R. */
  lemma {:induction false} NewtonRight(k: nat, p: nat, x: nat, i: nat, e: nat)
    requires e <= k && Cong(p * x, 1, Pow2(e)) && k <= e * Pow2(i)
    ensures Newton(k, p, x, i) < Pow2(k)
    ensures Cong(p * Newton(k, p, x, i) + 1, 0, Pow2(k))
    decreases i
  {
    if i == 0 {
      assert e == k;
      NewtonNegation(k, p, x);
    } else {
      NewtonDoubles(k, p, x, e);
      var f := if 2 * e <= k then 2 * e else k;
      BitsLeft(e, f, k, Pow2(i - 1));
      NewtonRight(k, p, NewtonStep(k, p, x), i - 1, f);
    }
  }

  lemma BitsLeft(e: nat, f: nat, k: nat, n: nat)
    requires k <= e * (2 * n) && 1 <= n && f == if 2 * e <= k then 2 * e else k
    ensures k <= f * n
  {
    if f == k { MulMono(1, n, k); }
  }

  lemma NewtonNegation(k: nat, p: nat, x: nat)
    requires Cong(p * x, 1, Pow2(k))
    ensures var r := And(USub(Wid(k), 0, x), RMask(k));
            r < Pow2(k) && Cong(p * r + 1, 0, Pow2(k))
  {
    hide Mod, Pow2;
    LowBits(k, 0 - x);
    var r := Mod(0 - x, Pow2(k));
    CongMod(0 - x, Pow2(k));
    CongMul(p, p, r, 0 - x, Pow2(k));
    assert p * (0 - x) == 0 - p * x;
    CongAdd(0, 0, p * x, 1, Pow2(k));
    CongAdd(p * r, 0 - 1, 1, 1, Pow2(k));
  }

  /** The constants of a prime: twelve steps reach every class up to 4096 bits. */
  lemma PinvConstants(k: nat, p: nat) returns (ri: nat)
    requires k <= 4096 && 1 < p < Pow2(k) && p % 2 == 1
    ensures Constants(k, p, Newton(k, p, 1, NewtonSteps), ri)
  {
    hide Mod;
    var pinv := Newton(k, p, 1, NewtonSteps);
    assert Pow2(12) == 4096 && Pow2(1) == 2;
    assert k >= 1;
    CongFrom(p * 1, 1, p / 2, 2);
    NewtonRight(k, p, 1, NewtonSteps, 1);
    var q := CongWitness(p * pinv + 1, 0, Pow2(k));
    if q < 0 {
      MulMono(q, 0, Pow2(k));
      MulMono(0, p, pinv);
      assert false;
    }
    ri := q;
  }

  // ── R^2 mod p by doublings ────────────────────────────────────────

  lemma ModOfSmall(r: nat, p: nat)
    requires r < p
    ensures Mod(r, p) == r
  {}

  lemma DoubledStep(k: nat, r: nat, p: nat)
    requires r < p < Pow2(k)
    ensures Csub(k, Shl(Wid(k), r, 1), p) == Mod(2 * r, p)
  {
    hide Pow2, Csub;
    WordRoom(k);
    RoomFor(p, Pow2(k));
    Pow2One();
    ShlExact(Wid(k), r, 1);
    CsubValue(k, 2 * r, p);
  }

  lemma Pow2One()
    ensures Pow2(1) == 2
  {}

  /** n masked doublings give exactly r 2^n mod p. */
  lemma {:induction false} DoubledValue(k: nat, r: nat, p: nat, n: nat)
    requires r < p < Pow2(k)
    ensures Doubled(k, r, p, n) == Mod(r * Pow2(n), p)
    decreases n
  {
    hide Mod, Csub;
    if n == 0 {
      ModOfSmall(r, p);
    } else {
      DoubledStep(k, r, p);
      DoubledValue(k, Mod(2 * r, p), p, n - 1);
      ModMul(2 * r, Pow2(n - 1), p);
      ExponentSplit(r, 0, Pow2(n - 1), Pow2(n));
    }
  }

  // ── The ladder ────────────────────────────────────────────────────

  /** x^e in Montgomery form. */
  function Form(k: nat, x: int, e: nat, p: nat): nat
    requires p > 0
  {
    Mod(Pow(x, e) * Pow2(k), p)
  }

  lemma MontPowers(k: nat, x: int, e: nat, f: nat, p: nat, pinv: nat, ri: nat)
    requires Constants(k, p, pinv, ri)
    ensures Mont(k, Form(k, x, e, p), Form(k, x, f, p), p, pinv) == Form(k, x, e + f, p)
  {
    hide Mod, Pow2, Mont;
    MontForms(k, Pow(x, e), Pow(x, f), p, pinv, ri);
    PowAdd(x, e, f);
  }

  /** One masked step takes (x^e, x^(e+1)) to (x^e', x^(e'+1)), e' = 2e + bit. */
  lemma LadderStep(k: nat, bit: nat, x: int, e: nat, p: nat, pinv: nat, ri: nat)
    requires Constants(k, p, pinv, ri)
    ensures var m := Mask(k, bit);
            var a, b := Form(k, x, e, p), Form(k, x, e + 1, p);
            var x0, x1 := Sel(m, b, a), Sel(m, a, b);
            var y1, y0 := Mont(k, x0, x1, p, pinv), Mont(k, x0, x0, p, pinv);
            var f := 2 * e + bit % 2;
            Sel(m, y1, y0) == Form(k, x, f, p) && Sel(m, y0, y1) == Form(k, x, f + 1, p)
  {
    hide Mod, Pow2, Mont, Sel, Form, Mask;
    var m := Mask(k, bit);
    var a, b := Form(k, x, e, p), Form(k, x, e + 1, p);
    FormIsWord(k, x, e, p);
    FormIsWord(k, x, e + 1, p);
    FormIsWord(k, x, e + e, p);
    FormIsWord(k, x, e + 1 + e, p);
    FormIsWord(k, x, e + 1 + (e + 1), p);
    MaskValue(k, bit);
    SelValue(k, m, b, a);
    SelValue(k, m, a, b);
    var y1, y0 := Mont(k, Sel(m, b, a), Sel(m, a, b), p, pinv), Mont(k, Sel(m, b, a), Sel(m, b, a), p, pinv);
    MontPowers(k, x, e, e, p, pinv, ri);
    MontPowers(k, x, e, e + 1, p, pinv, ri);
    MontPowers(k, x, e + 1, e, p, pinv, ri);
    MontPowers(k, x, e + 1, e + 1, p, pinv, ri);
    SelValue(k, m, y1, y0);
    SelValue(k, m, y0, y1);
  }

  lemma FormIsWord(k: nat, x: int, e: nat, p: nat)
    requires 0 < p < Pow2(k)
    ensures Form(k, x, e, p) < p < Pow2(Wid(k))
  {
    Pow2Mono(k, Wid(k));
  }

  lemma LowBit(d: nat, n: nat)
    requires n > 0
    ensures Mod(d, Pow2(n)) == Shr(d, n - 1) % 2 * Pow2(n - 1) + Mod(d, Pow2(n - 1))
  {
    var p := Pow2(n - 1);
    DivMod(d, p);
    var q := Div(d, p);
    BitSplit(d, p, q, Mod(d, p));
    DivModUnique(d, 2 * p, q / 2, q % 2 * p + Mod(d, p));
  }

  lemma BitSplit(d: nat, p: nat, q: nat, r: nat)
    requires d == p * q + r && r < p
    ensures d == 2 * p * (q / 2) + (q % 2 * p + r)
    ensures q % 2 * p + r < 2 * p
  {
    assert p * q == p * (2 * (q / 2) + q % 2);
    assert p * (2 * (q / 2)) == 2 * p * (q / 2);
  }

  /** e with the low n bits of d appended. */
  function Appended(e: nat, d: nat, n: nat): nat { e * Pow2(n) + Mod(d, Pow2(n)) }

  lemma AppendedBit(e: nat, d: nat, n: nat)
    requires n > 0
    ensures Appended(e, d, n) == Appended(2 * e + Shr(d, n - 1) % 2, d, n - 1)
  {
    hide Mod;
    LowBit(d, n);
    ExponentSplit(e, Shr(d, n - 1) % 2, Pow2(n - 1), Pow2(n));
  }

  lemma AppendedNone(e: nat, d: nat)
    ensures Appended(e, d, 0) == e
  {}

  /** Over the low n bits of d the ladder keeps the pair (x^e, x^(e+1)). */
  lemma {:induction false} LadderPowers(k: nat, d: nat, n: nat, x: int, e: nat, p: nat, pinv: nat, ri: nat)
    requires Constants(k, p, pinv, ri)
    ensures var r := Ladder(k, d, n, Pair(Form(k, x, e, p), Form(k, x, e + 1, p)), p, pinv);
            var f := Appended(e, d, n);
            r == Pair(Form(k, x, f, p), Form(k, x, f + 1, p))
    decreases n
  {
    hide Form, Mont, Sel, Mask, Appended, Shr;
    if n == 0 {
      AppendedNone(e, d);
    } else {
      var bit := Shr(d, n - 1);
      LadderStep(k, bit, x, e, p, pinv, ri);
      LadderPowers(k, d, n - 1, x, 2 * e + bit % 2, p, pinv, ri);
      AppendedBit(e, d, n);
    }
  }

  lemma ExponentSplit(e: nat, b: nat, p: nat, q: nat)
    requires q == 2 * p
    ensures e * q + b * p == (2 * e + b) * p && e * q == 2 * e * p
  {}

  // ── One half of the CRT ───────────────────────────────────────────

  /** Multiplying by R^2 enters Montgomery form. */
  lemma EnterForm(k: nat, x: int, p: nat, pinv: nat, ri: nat)
    requires Constants(k, p, pinv, ri)
    ensures var rr := Mod(Pow2(k) * Pow2(k), p);
            Mont(k, Mod(x, p), rr, p, pinv) == Mod(x * Pow2(k), p)
  {
    hide Mod, Pow2, Mont;
    var r := Pow2(k);
    MontForms(k, x * ri, r, p, pinv, ri);
    RInverse(k, p, pinv, ri);
    CongUnit(x, ri, r, p) by { assert ri * r == r * ri; }
    CongUnit(x * r, ri, r, p) by { assert ri * r == r * ri; }
    assert x * ri * r * r == x * r * ri * r by { CommuteIdentity(x, r, ri); }
  }

  lemma CommuteIdentity(x: int, r: int, ri: int)
    ensures x * ri * r * r == x * r * ri * r
  {
    assert x * ri * r == x * r * ri;
  }

  /** Reduction leaves Montgomery form. */
  lemma LeaveForm(k: nat, x: int, p: nat, pinv: nat, ri: nat)
    requires Constants(k, p, pinv, ri)
    ensures Redc(k, Mod(x * Pow2(k), p), p, pinv) == Mod(x, p)
  {
    hide Mod, Pow2, Redc;
    var r := Pow2(k);
    var a := Mod(x * r, p);
    assert a < 2 * p * r by { MulMono(1, r, 2 * p); }
    RedcValue(k, a, p, pinv, ri);
    CongMod(x * r, p);
    CongMul(a, x * r, ri, ri, p);
    RInverse(k, p, pinv, ri);
    CongUnit(x, r, ri, p);
  }

  /** Half is m^d mod p for every odd p of the class, d read modulo 2^(2k). */
  lemma HalfValue(k: nat, m: nat, d: nat, p: nat)
    requires k <= 4096 && 1 < p < Pow2(k) && p % 2 == 1
    requires m < 2 * p * Pow2(k)
    ensures Half(k, m, d, p) == Mod(Pow(m, Mod(d, Pow2(2 * k))), p)
  {
    hide Mod, Pow2, Mont, Redc, Newton, Ladder, Doubled;
    var r := Pow2(k);
    var pinv := Newton(k, p, 1, NewtonSteps);
    var ri := PinvConstants(k, p);
    DoubledValue(k, 1, p, 2 * k);
    Pow2Add(k, k);
    RedcValue(k, m, p, pinv, ri);
    EnterForm(k, m * ri, p, pinv, ri);
    RInverse(k, p, pinv, ri);
    CongUnit(m, ri, r, p) by { assert ri * r == r * ri; }
    EnterForm(k, m, p, pinv, ri);
    EnterForm(k, 1, p, pinv, ri);
    ModOfOne(p);
    PowSmall(m);
    LadderPowers(k, d, 2 * k, m, 0, p, pinv, ri);
    LeaveForm(k, Pow(m, Mod(d, Pow2(2 * k))), p, pinv, ri);
  }

  lemma ModOfOne(p: nat)
    requires p > 1
    ensures Mod(1, p) == 1
  {}

  lemma PowSmall(x: int)
    ensures Pow(x, 0) == 1 && Pow(x, 1) == x
  {}
}
