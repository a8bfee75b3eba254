/** Arithmetic modulo p or n for the NIST curves: a guarded branch-free subtraction and Montgomery
    products on words of w bits, with R = 2^k. */
module NistField {
  import opened Arith
  import opened Words
  import RsaHalf

  /** A modulus with the constants rendered into the source for it. */
  datatype Modulus = Modulus(k: nat, w: nat, m: nat, minv: nat, rr: nat, one: nat)

  /** What the renderer computes and asserts about a modulus. */
  ghost predicate Rendered(f: Modulus)
  {
    && 2 * f.k + 2 < f.w && f.w % 64 == 0 && 2 < f.m < Pow2(f.k)
    && f.minv < Pow2(f.k) && Cong(f.m * f.minv + 1, 0, Pow2(f.k))
    && f.rr == Mod(Pow2(f.k) * Pow2(f.k), f.m) && f.one == Mod(Pow2(f.k), f.m)
  }

  function Guard(f: Modulus): nat { Pow2(f.k + 8) }

  function Mask(f: Modulus, bit: nat): nat { USub(f.w, 0, And(bit, 1)) }

  function Ones(f: Modulus): nat { Pow2(f.w) - 1 }

  function Csub(f: Modulus, u: nat): nat
  {
    var d := USub(f.w, UAdd(f.w, u, Guard(f)), f.m);
    var keep := Mask(f, Shr(d, f.k + 8));
    Or(And(And(d, Guard(f) - 1), keep), And(u, Xor(keep, Ones(f))))
  }

  function Mont(f: Modulus, a: nat, b: nat): nat
  {
    var t := UMul(f.w, a, b);
    var q := And(UMul(f.w, And(t, Pow2(f.k) - 1), f.minv), Pow2(f.k) - 1);
    Csub(f, Shr(UAdd(f.w, t, UMul(f.w, q, f.m)), f.k))
  }

  function Add(f: Modulus, a: nat, b: nat): nat { Csub(f, UAdd(f.w, a, b)) }

  function Sub(f: Modulus, a: nat, b: nat): nat { Csub(f, USub(f.w, UAdd(f.w, a, f.m), b)) }

  function To(f: Modulus, a: nat): nat { Mont(f, a, f.rr) }

  function From(f: Modulus, a: nat): nat { Mont(f, a, 1) }

  // ── The guarded subtraction ───────────────────────────────────────

  lemma AndZero(x: nat)
    ensures And(x, 0) == 0 && And(0, x) == 0
  {}

  lemma MaskValue(f: Modulus, bit: nat)
    ensures Mask(f, bit) == if bit % 2 == 1 then Ones(f) else 0
  {
    AndLow(bit, 1);
    assert Pow2(1) == 2;
    DivModUnique(bit, 2, bit / 2, bit % 2);
    if bit % 2 == 1 { DivModUnique(-1, Pow2(f.w), -1, Pow2(f.w) - 1); }
  }

  /** The guard bit and the modulus fit below the top bit of a word. */
  lemma Room(f: Modulus)
    requires 2 * f.k + 2 < f.w && f.w % 64 == 0
    ensures f.k + 10 <= f.w && 4 * Guard(f) <= Pow2(f.w) && Pow2(f.k) <= Guard(f)
    ensures 8 * (Pow2(f.k) * Pow2(f.k)) <= Pow2(f.w)
  {
    hide Pow2;
    Pow2Succ(f.k + 9);
    Pow2Succ(f.k + 10);
    Pow2Mono(f.k + 10, f.w);
    Pow2Mono(f.k, f.k + 8);
    Pow2Add(f.k, f.k);
    Pow2Succ(2 * f.k + 1);
    Pow2Succ(2 * f.k + 2);
    Pow2Succ(2 * f.k + 3);
    Pow2Mono(2 * f.k + 3, f.w);
  }

  /** The masked choice between two words. */
  function Blend(f: Modulus, mask: nat, a: nat, b: nat): nat { Or(And(a, mask), And(b, Xor(mask, Ones(f)))) }

  lemma BlendValue(f: Modulus, bit: nat, a: nat, b: nat)
    requires a < Pow2(f.w) && b < Pow2(f.w)
    ensures Blend(f, Mask(f, bit), a, b) == if bit % 2 == 1 then a else b
  {
    hide Pow2, And, Or, Xor, Mask;
    MaskValue(f, bit);
    XorSelf(Ones(f));
    XorZero(Ones(f));
    AndZero(a);
    AndZero(b);
    OrZero(a);
    OrZero(b);
    AndOnes(a, f.w);
    AndOnes(b, f.w);
  }

  lemma CsubDef(f: Modulus, u: nat)
    ensures var d := USub(f.w, UAdd(f.w, u, Guard(f)), f.m);
            Csub(f, u) == Blend(f, Mask(f, Div(d, Guard(f))), And(d, Guard(f) - 1), u)
  {
    hide Mask, USub, UAdd, And, Or, Xor, Div, Pow2;
  }

  /** Below m + 2^(k+8) the guarded subtraction is a conditional one. */
  lemma CsubValue(f: Modulus, u: nat)
    requires 2 * f.k + 2 < f.w && f.w % 64 == 0 && f.m <= Pow2(f.k) && u < f.m + Guard(f)
    ensures Csub(f, u) == if u >= f.m then u - f.m else u
  {
    hide *;
    Room(f);
    CsubDef(f, u);
    var g := Guard(f);
    GuardPower(f);
    UAddExact(f.w, u, g);
    USubExact(f.w, u + g, f.m);
    var d := u + g - f.m;
    AndLow(d, f.k + 8);
    DivModUnique(d, g, if u >= f.m then 1 else 0, if u >= f.m then u - f.m else d);
    BlendValue(f, Div(d, g), Mod(d, g), u);
  }

  lemma GuardPower(f: Modulus)
    ensures Guard(f) == Pow2(f.k + 8)
  {}

  /** It reduces modulo m exactly the values below 2m. */
  lemma CsubReducesIff(f: Modulus, u: nat)
    requires 2 * f.k + 2 < f.w && f.w % 64 == 0 && 0 < f.m <= Pow2(f.k) && u < f.m + Guard(f)
    ensures Csub(f, u) == Mod(u, f.m) <==> u < 2 * f.m
  {
    hide Csub, Guard;
    CsubValue(f, u);
  }

  // ── Montgomery products ───────────────────────────────────────────

  /** The inverse of R modulo m that reduction multiplies by. */
  function Ri(f: Modulus): nat { Div(f.m * f.minv + 1, Pow2(f.k)) }

  lemma RiConstants(f: Modulus)
    requires Rendered(f)
    ensures RsaHalf.Constants(f.k, f.m, f.minv, Ri(f)) && Cong(Pow2(f.k) * Ri(f), 1, f.m)
  {
    hide Mod, Div, Pow2;
    DivMod(f.m * f.minv + 1, Pow2(f.k));
    CongMod(f.m * f.minv + 1, Pow2(f.k));
    RsaHalf.ModOfZero(Pow2(f.k));
    ModOfCong(0, f.m * f.minv + 1, Pow2(f.k));
    RsaHalf.RInverse(f.k, f.m, f.minv, Ri(f));
  }

  /** T/R rounded up by the multiple of m that clears the low bits of T. */
  function Reduced(f: Modulus, t: nat): nat
  {
    var q := RsaHalf.Factor(Pow2(f.k), t, f.minv);
    MulMono(0, q, f.m);
    Div(t + q * f.m, Pow2(f.k))
  }

  /** Below m R nothing wraps: the steps are those of exact arithmetic. */
  lemma MontExact(f: Modulus, a: nat, b: nat, t: nat)
    requires Rendered(f) && t == a * b < f.m * Pow2(f.k)
    ensures Mont(f, a, b) == Csub(f, Reduced(f, t))
  {
    hide *;
    RenderedBounds(f);
    Room(f);
    var r := Pow2(f.k);
    var t0, q := Mod(t, r), RsaHalf.Factor(r, t, f.minv);
    MontRoom(t, f.m, f.minv, r, t0, q);
    UMulExact(f.w, a, b);
    AndLow(t, f.k);
    UMulExact(f.w, t0, f.minv);
    AndLow(UMul(f.w, t0, f.minv), f.k);
    FactorDef(r, t, f.minv);
    UMulExact(f.w, q, f.m);
    UAddExact(f.w, t, UMul(f.w, q, f.m));
    MontDef(f, a, b);
    ReducedDef(f, t);
  }

  lemma RenderedBounds(f: Modulus)
    requires Rendered(f)
    ensures 2 * f.k + 2 < f.w && f.w % 64 == 0 && 2 < f.m < Pow2(f.k) && f.minv < Pow2(f.k)
  {}

  lemma FactorDef(r: nat, t: nat, minv: nat)
    requires r > 0
    ensures RsaHalf.Factor(r, t, minv) == Mod(Mod(t, r) * minv, r)
  {}

  lemma MontDef(f: Modulus, a: nat, b: nat)
    ensures var t := UMul(f.w, a, b);
            var q := And(UMul(f.w, And(t, Pow2(f.k) - 1), f.minv), Pow2(f.k) - 1);
            Mont(f, a, b) == Csub(f, Div(UAdd(f.w, t, UMul(f.w, q, f.m)), Pow2(f.k)))
  {
    hide Mod, Div, Pow2, Csub, And, UMul, UAdd;
  }

  lemma ReducedDef(f: Modulus, t: nat)
    ensures Reduced(f, t) == Div(t + RsaHalf.Factor(Pow2(f.k), t, f.minv) * f.m, Pow2(f.k))
  {
    hide Mod, Div, Pow2, RsaHalf.Factor;
  }

  /** A product below m R comes out as a b / R mod m. */
  lemma MontValue(f: Modulus, a: nat, b: nat)
    requires Rendered(f) && a * b < f.m * Pow2(f.k)
    ensures Mont(f, a, b) == Mod(a * b * Ri(f), f.m)
  {
    hide Mod, Div, Pow2, Csub, Mont;
    MulMono(0, a, b);
    var r, t: nat := Pow2(f.k), a * b;
    MontExact(f, a, b, t);
    RiConstants(f);
    var q := RsaHalf.Factor(r, t, f.minv);
    RsaHalf.FactorClears(f.k, t, f.m, f.minv, Ri(f));
    var u := Reduced(f, t);
    DivMod(t + q * f.m, r);
    MontReach(u, t, q, f.m, r);
    Room(f);
    CsubValue(f, u);
    RsaHalf.RedcCong(Mont(f, a, b), u, t, q, f.m, r, Ri(f), f.minv);
  }

  lemma MontRoom(t: nat, m: nat, minv: nat, r: nat, t0: nat, q: nat)
    requires t < m * r && m < r && minv < r && t0 < r && q < r
    ensures t < r * r && t0 * minv <= r * r && q * m <= r * r && t + q * m < 8 * (r * r)
  {
    MulMono(m, r, r);
    MulMono(t0, r, minv);
    MulMono(minv, r, r);
    MulMono(q, r, m);
  }

  lemma MontReach(u: nat, t: nat, q: nat, m: nat, r: nat)
    requires r * u == t + q * m && t < m * r && q < r && 0 < m
    ensures u < 2 * m
  {
    MulMono(q, r, m);
    if u >= 2 * m {
      MulMono(2 * m, u, r);
      assert false;
    }
  }

  // ── Values ────────────────────────────────────────────────────────

  /** A fully reduced element. */
  predicate In(f: Modulus, a: nat) { a < f.m }

  /** The residue that Montgomery form a stands for. */
  function Val(f: Modulus, a: nat): nat
    requires f.m > 0
  {
    Mod(a * Ri(f), f.m)
  }

  lemma ValInjective(f: Modulus, a: nat, b: nat)
    requires Rendered(f) && In(f, a) && In(f, b) && Val(f, a) == Val(f, b)
    ensures a == b
  {
    hide *;
    RenderedBounds(f);
    RiConstants(f);
    ValDef(f, a);
    ValDef(f, b);
    InDef(f, a);
    InDef(f, b);
    UnitInjective(a, b, Ri(f), Pow2(f.k), f.m);
  }

  lemma InDef(f: Modulus, a: nat)
    ensures In(f, a) <==> a < f.m
  {}

  lemma UnitInjective(a: nat, b: nat, u: nat, ui: nat, m: nat)
    requires a < m && b < m && Cong(ui * u, 1, m) && Mod(a * u, m) == Mod(b * u, m)
    ensures a == b
  {
    hide Mod;
    assert u * ui == ui * u;
    CongCancel(a, b, u, ui, m);
    CongSmall(a, b, m);
  }

  lemma FieldSum(f: Modulus, a: nat, b: nat)
    requires Rendered(f) && In(f, a) && In(f, b)
    ensures In(f, Add(f, a, b)) && Add(f, a, b) == Mod(a + b, f.m)
    ensures Val(f, Add(f, a, b)) == Mod(Val(f, a) + Val(f, b), f.m)
  {
    hide Mod, Div, Pow2, Csub, Val, Ri;
    Room(f);
    UAddExact(f.w, a, b);
    CsubReducesIff(f, a + b);
    ValDef(f, a);
    ValDef(f, b);
    ValDef(f, Add(f, a, b));
    SumVal(f.m, a, b, Ri(f), Add(f, a, b));
  }

  lemma SumVal(m: nat, a: nat, b: nat, r: nat, c: nat)
    requires m > 0
    ensures c == Mod(a + b, m) ==> Mod(c * r, m) == Mod(Mod(a * r, m) + Mod(b * r, m), m)
    ensures c == Mod(a - b, m) ==> Mod(c * r, m) == Mod(Mod(a * r, m) - Mod(b * r, m), m)
  {
    hide Mod;
    CongMod(a * r, m);
    CongMod(b * r, m);
    CongAdd(Mod(a * r, m), a * r, Mod(b * r, m), b * r, m);
    ModMul(a + b, r, m);
    ModMul(a - b, r, m);
    Distribute(a, b, r);
  }

  lemma Distribute(a: int, b: int, r: int)
    ensures (a + b) * r == a * r + b * r && (a - b) * r == a * r - b * r
  {}

  lemma FieldDifference(f: Modulus, a: nat, b: nat)
    requires Rendered(f) && In(f, a) && In(f, b)
    ensures In(f, Sub(f, a, b)) && Sub(f, a, b) == Mod(a - b, f.m)
    ensures Val(f, Sub(f, a, b)) == Mod(Val(f, a) - Val(f, b), f.m)
  {
    hide *;
    RenderedBounds(f);
    InDef(f, a);
    InDef(f, b);
    InDef(f, Sub(f, a, b));
    DifferenceExact(f, a, b);
    ValDef(f, a);
    ValDef(f, b);
    ValDef(f, Sub(f, a, b));
    SumVal(f.m, a, b, Ri(f), Sub(f, a, b));
  }

  lemma DifferenceExact(f: Modulus, a: nat, b: nat)
    requires Rendered(f) && a < f.m && b < f.m
    ensures Sub(f, a, b) == Mod(a - b, f.m)
  {
    hide Mod, Div, Pow2, Csub, Guard, UAdd, USub;
    Room(f);
    UAddExact(f.w, a, f.m);
    USubExact(f.w, a + f.m, b);
    CsubReducesIff(f, a + f.m - b);
    ModShift(a - b, 1, f.m);
  }

  lemma ValZero(f: Modulus)
    requires f.m > 0
    ensures Val(f, 0) == 0
  {}

  lemma FieldProduct(f: Modulus, a: nat, b: nat)
    requires Rendered(f) && In(f, a) && In(f, b)
    ensures In(f, Mont(f, a, b)) && Val(f, Mont(f, a, b)) == Mod(Val(f, a) * Val(f, b), f.m)
  {
    hide Mod, Div, Pow2, Mont;
    MontFits(a, b, f.m, Pow2(f.k));
    MontValue(f, a, b);
    ProductVal(f, a, b);
  }

  lemma MontFits(a: nat, b: nat, m: nat, r: nat)
    requires a < m && b < r
    ensures a * b < m * r && b * a < m * r
  {
    MulMono(a, m, r);
    MulMono(b + 1, r, a);
    MulMono(1, m - a, r);
  }

  lemma ProductVal(f: Modulus, a: nat, b: nat)
    requires f.m > 0
    ensures Mod(Mod(a * b * Ri(f), f.m) * Ri(f), f.m) == Mod(Val(f, a) * Val(f, b), f.m)
  {
    hide *;
    var r := Ri(f);
    ModMul(a * b * r, r, f.m);
    FourFactors(a, b, r);
    ModProduct(a * r, b * r, f.m);
    ValDef(f, a);
    ValDef(f, b);
  }

  lemma ValDef(f: Modulus, a: nat)
    requires f.m > 0
    ensures Val(f, a) == Mod(a * Ri(f), f.m)
  {}

  lemma ModProduct(x: int, y: int, m: int)
    requires m > 0
    ensures Mod(Mod(x, m) * Mod(y, m), m) == Mod(x * y, m)
  {
    hide *;
    ModMul(x, Mod(y, m), m);
    ModMul(x, y, m);
  }

  lemma FourFactors(a: int, b: int, r: int)
    ensures a * b * r * r == a * r * (b * r)
  {}

  /** Entering Montgomery form keeps the residue, for any word below R. */
  lemma EnterValue(f: Modulus, a: nat)
    requires Rendered(f) && a < Pow2(f.k)
    ensures In(f, To(f, a)) && Val(f, To(f, a)) == Mod(a, f.m)
  {
    hide Mod, Div, Pow2, Mont;
    var r, ri, m := Pow2(f.k), Ri(f), f.m;
    MontFits(f.rr, a, m, r);
    assert a * f.rr == f.rr * a;
    MontValue(f, a, f.rr);
    RiConstants(f);
    ModMul(a * f.rr * ri, ri, m);
    EnterCong(a, f.rr, r, ri, m);
  }

  lemma EnterCong(a: nat, rr: nat, r: nat, ri: nat, m: nat)
    requires m > 0 && rr == Mod(r * r, m) && Cong(r * ri, 1, m)
    ensures Mod(a * rr * ri * ri, m) == Mod(a, m)
  {
    hide Mod, Div;
    CongMod(r * r, m);
    CongMul(r * ri, 1, r * ri, 1, m);
    CongMul(rr, r * r, ri * ri, ri * ri, m);
    Squares(r, ri);
    CongMul(a, a, rr * (ri * ri), r * r * (ri * ri), m);
    CongMul(a, a, r * ri * (r * ri), 1, m);
    Regroup(a, rr, ri);
    CongTrans(a * (rr * (ri * ri)), a * (r * ri * (r * ri)), a, m);
  }

  lemma CongTrans(a: int, b: int, c: int, m: int)
    requires m > 0 && Cong(a, b, m) && Cong(b, c, m)
    ensures Mod(a, m) == Mod(c, m)
  {}

  lemma Squares(r: int, s: int)
    ensures r * r * (s * s) == r * s * (r * s)
  {}

  lemma Regroup(a: int, b: int, r: int)
    ensures a * b * r * r == a * (b * (r * r))
  {}

  /** Leaving Montgomery form gives the residue itself. */
  lemma LeaveValue(f: Modulus, a: nat)
    requires Rendered(f) && In(f, a)
    ensures From(f, a) == Val(f, a) && In(f, From(f, a))
  {
    hide Mod, Div, Pow2, Mont;
    assert a * 1 == a;
    MontFits(a, 1, f.m, Pow2(f.k));
    MontValue(f, a, 1);
  }

  lemma OneValue(f: Modulus)
    requires Rendered(f)
    ensures In(f, f.one) && Val(f, f.one) == 1
  {
    hide Mod, Div, Pow2;
    RiConstants(f);
    CongMod(Pow2(f.k), f.m);
    CongMul(f.one, Pow2(f.k), Ri(f), Ri(f), f.m);
    ModOfCong(1, f.one * Ri(f), f.m);
  }
}
