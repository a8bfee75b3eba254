/** Powers with a public exponent read from 32-bit words: inverses and square roots. */
module NistPower {
  import opened Arith
  import opened NistField
  import opened NumberTheory
  import opened Words

  /** The words of e from j on, after acc. */
  function EWords(e: nat, j: nat, n: nat, acc: seq<nat>): seq<nat>
    decreases n - j
  {
    if j >= n then acc else EWords(e, j + 1, n, acc + [And(Shr(e, j * 32), 4294967295)])
  }

  /** The exponent as words; a modulus of k bits takes (k - 1) / 32 + 1 of them. */
  function EBits(f: Modulus, e: nat): seq<nat>
    requires f.k > 0
  {
    EWords(e, 0, (f.k - 1) / 32 + 1, [])
  }

  function BitAt(e: seq<nat>, i: nat): nat
    requires i < 32 * |e|
  {
    And(Shr(e[i / 32], i % 32), 1)
  }

  /** acc and a raised along the low n bits of e, from bit n - 1 down. */
  function FPow(f: Modulus, a: nat, e: seq<nat>, n: nat, acc: nat): nat
    requires n <= 32 * |e|
    decreases n
  {
    if n == 0 then acc
    else
      var s := Mont(f, acc, acc);
      FPow(f, a, e, n - 1, if BitAt(e, n - 1) == 1 then Mont(f, s, a) else s)
  }

  function Inv(f: Modulus, a: nat): nat
    requires f.k > 0 && f.m >= 2
  {
    EBitsLength(f, f.m - 2);
    FPow(f, a, EBits(f, f.m - 2), f.k, f.one)
  }

  function Sqrt(f: Modulus, a: nat): nat
    requires f.k > 0
  {
    EBitsLength(f, (f.m + 1) / 4);
    FPow(f, a, EBits(f, (f.m + 1) / 4), f.k, f.one)
  }

  // ── Reading the exponent ──────────────────────────────────────────

  lemma {:induction false} EWordsAt(e: nat, j: nat, n: nat, acc: seq<nat>, i: nat)
    requires |acc| == j <= n && i < n && forall h: nat :: h < j ==> acc[h] == And(Shr(e, h * 32), 4294967295)
    ensures |EWords(e, j, n, acc)| == n && EWords(e, j, n, acc)[i] == And(Shr(e, i * 32), 4294967295)
    decreases n - j
  {
    hide And, Shr;
    if j < n { EWordsAt(e, j + 1, n, acc + [And(Shr(e, j * 32), 4294967295)], i); }
  }

  lemma EBitsLength(f: Modulus, e: nat)
    requires f.k > 0
    ensures |EBits(f, e)| == (f.k - 1) / 32 + 1 && f.k <= 32 * |EBits(f, e)|
  {
    hide And, Shr;
    EWordsAt(e, 0, (f.k - 1) / 32 + 1, [], 0);
  }

  /** Bit i of e. */
  function Bit(e: nat, i: nat): nat { Mod(Div(e, Pow2(i)), 2) }

  /** Word i / 32, bit i % 32, is bit i of the exponent. */
  lemma BitRead(f: Modulus, e: nat, i: nat)
    requires 0 < f.k && i < f.k
    ensures i < 32 * |EBits(f, e)| && BitAt(EBits(f, e), i) == Bit(e, i)
  {
    hide And, Mod, Div, EWords;
    EBitsLength(f, e);
    EWordsAt(e, 0, (f.k - 1) / 32 + 1, [], i / 32);
    var x := Shr(e, i / 32 * 32);
    assert Pow2(32) == 4294967296 by { Pow2Is32(); }
    AndLow(x, 32);
    AndLow(Div(Mod(x, Pow2(32)), Pow2(i % 32)), 1);
    assert Pow2(1) == 2;
    LowBit(x, i % 32, 32);
    DivDiv(e, Pow2(i / 32 * 32), Pow2(i % 32));
    Pow2Add(i / 32 * 32, i % 32);
  }

  lemma Pow2Is256()
    ensures Pow2(8) == 256
  {}

  lemma Pow2Is32()
    ensures Pow2(32) == 4294967296
  {
    hide Pow2;
    Pow2Is256();
    Pow2Add(8, 8);
    Pow2Add(16, 16);
  }

  lemma DivDiv(x: nat, a: nat, b: nat)
    requires a > 0 && b > 0
    ensures a * b > 0 && Div(Div(x, a), b) == Div(x, a * b)
  {
    hide Mod, Div;
    MulMono(1, a, b);
    DivMod(x, a);
    var y, r := Div(x, a), Mod(x, a);
    DivMod(y, b);
    var z, s := Div(y, b), Mod(y, b);
    NestedIdentity(x, a, b, y, r, z, s);
    DivModUnique(x, a * b, z, a * s + r);
  }

  lemma NestedIdentity(x: nat, a: nat, b: nat, y: nat, r: nat, z: nat, s: nat)
    requires x == a * y + r && y == b * z + s && r < a && s < b
    ensures x == a * b * z + (a * s + r) && 0 <= a * s + r < a * b
  {
    assert a * (b * z + s) == a * b * z + a * s;
    MulMono(s + 1, b, a);
  }

  /** Cutting a value to n bits keeps its bits below n. */
  lemma LowBit(x: nat, i: nat, n: nat)
    requires i < n
    ensures Mod(Div(Mod(x, Pow2(n)), Pow2(i)), 2) == Mod(Div(x, Pow2(i)), 2)
  {
    hide Mod, Div;
    DivMod(x, Pow2(n));
    var q, r := Div(x, Pow2(n)), Mod(x, Pow2(n));
    DivMod(r, Pow2(i));
    var u, v := Div(r, Pow2(i)), Mod(r, Pow2(i));
    Pow2Add(n - i - 1, i + 1);
    Pow2Succ(i + 1);
    var g := Pow2(n - i - 1);
    CutIdentity(x, q, r, g, Pow2(i), u, v);
    DivModUnique(x, Pow2(i), g * q * 2 + u, v);
    CongFrom(g * q * 2 + u, u, g * q, 2);
  }

  lemma CutIdentity(x: nat, q: nat, r: nat, g: nat, p: nat, u: nat, v: nat)
    requires x == g * (2 * p) * q + r && r == p * u + v
    ensures x == p * (g * q * 2 + u) + v
  {
    assert g * (2 * p) * q == p * (g * q * 2);
  }

  // ── The power ─────────────────────────────────────────────────────

  /** The low n bits of e split at the top one. */
  lemma TopBit(e: nat, n: nat)
    requires n > 0
    ensures Mod(e, Pow2(n)) == Bit(e, n - 1) * Pow2(n - 1) + Mod(e, Pow2(n - 1))
    ensures Bit(e, n - 1) < 2
  {
    hide Mod, Div;
    Pow2Succ(n);
    var p := Pow2(n - 1);
    DivMod(e, p);
    var y, r := Div(e, p), Mod(e, p);
    DivMod(y, 2);
    var z, b := Div(y, 2), Mod(y, 2);
    NestedIdentity(e, p, 2, y, r, z, b);
    assert p * b == b * p;
    DivModUnique(e, p * 2, z, p * b + r);
  }

  /** Square and multiply along the low n bits. */
  lemma {:induction false} FPowValue(f: Modulus, a: nat, e: nat, n: nat, acc: nat)
    requires Rendered(f) && In(f, a) && In(f, acc) && f.k > 0 && n <= f.k && f.k <= 32 * |EBits(f, e)|
    ensures var r := FPow(f, a, EBits(f, e), n, acc);
            In(f, r) && Cong(Val(f, r), Pow(Val(f, acc), Pow2(n)) * Pow(Val(f, a), Mod(e, Pow2(n))), f.m)
    decreases n
  {
    hide Mod, Div, Mont, EBits, BitAt, Bit, Val, Rendered;
    if n == 0 {
      ModOne(e);
      PowFirst(Val(f, acc), Val(f, a));
    } else {
      var s := Mont(f, acc, acc);
      FieldProduct(f, acc, acc);
      FieldProduct(f, s, a);
      BitRead(f, e, n - 1);
      TopBit(e, n);
      var b := Bit(e, n - 1);
      var acc' := if b == 1 then Mont(f, s, a) else s;
      FPowValue(f, a, e, n - 1, acc');
      StepCong(f.m, Val(f, acc), Val(f, a), Val(f, s), Val(f, acc'), b);
      Pow2Succ(n);
      PowStep(f.m, Val(f, acc), Val(f, a), Val(f, acc'), b, Pow2(n - 1), Mod(e, Pow2(n - 1)));
    }
  }

  lemma ModOne(e: nat)
    ensures Mod(e, Pow2(0)) == 0 && Pow2(0) == 1
  {}

  lemma PowFirst(x: int, y: int)
    ensures Pow(x, 1) * Pow(y, 0) == x
  {
    assert Pow(x, 1) == x * Pow(x, 0);
  }

  lemma StepCong(m: nat, x: nat, a: nat, s: nat, y: nat, b: nat)
    requires m > 0 && b < 2 && s == Mod(x * x, m) && y == if b == 1 then Mod(s * a, m) else s
    ensures Cong(y, x * x * Pow(a, b), m)
  {
    hide Mod;
    CongMod(x * x, m);
    if b == 1 {
      CongMod(s * a, m);
      CongMul(s, x * x, a, a, m);
      assert Pow(a, 1) == a * Pow(a, 0);
    } else {
      assert Pow(a, 0) == 1;
    }
  }

  lemma PowStep(m: nat, x: nat, a: nat, y: nat, b: nat, p: nat, low: nat)
    requires m > 0 && Cong(y, x * x * Pow(a, b), m)
    ensures Cong(Pow(y, p) * Pow(a, low), Pow(x, 2 * p) * Pow(a, b * p + low), m)
  {
    hide Mod;
    CongPow(y, x * x * Pow(a, b), p, m);
    PowProduct(x * x, Pow(a, b), p);
    PowMul(x, 2, p);
    assert Pow(x, 2) == x * x by { assert Pow(x, 2) == x * Pow(x, 1); assert Pow(x, 1) == x * Pow(x, 0); }
    PowMul(a, b, p);
    PowAdd(a, b * p, low);
    CongMul(Pow(y, p), Pow(x * x * Pow(a, b), p), Pow(a, low), Pow(a, low), m);
    Assoc(Pow(x, 2 * p), Pow(a, b * p), Pow(a, low));
  }

  lemma Assoc(x: int, y: int, z: int)
    ensures x * y * z == x * (y * z)
  {}

  lemma {:induction false} PowProduct(x: int, y: int, n: nat)
    ensures Pow(x * y, n) == Pow(x, n) * Pow(y, n)
  {
    if n > 0 {
      PowProduct(x, y, n - 1);
      Shuffle(x, y, Pow(x, n - 1), Pow(y, n - 1));
    }
  }

  lemma Shuffle(x: int, y: int, u: int, v: int)
    ensures x * y * (u * v) == x * u * (y * v)
  {}

  /** The fixed-exponent power from one, for every exponent of k bits. */
  lemma PowerValue(f: Modulus, a: nat, e: nat)
    requires Rendered(f) && In(f, a) && f.k > 0 && e < Pow2(f.k) && f.k <= 32 * |EBits(f, e)|
    ensures var r := FPow(f, a, EBits(f, e), f.k, f.one);
            In(f, r) && Val(f, r) == Mod(Pow(Val(f, a), e), f.m)
  {
    hide Mod, Div, Mont, EBits, FPow, Rendered;
    RenderedBounds(f);
    OneValue(f);
    FPowValue(f, a, e, f.k, f.one);
    PowOne(Pow2(f.k));
    DivModUnique(e, Pow2(f.k), 0, e);
    ModOfCong(Val(f, FPow(f, a, EBits(f, e), f.k, f.one)), Pow(Val(f, a), e), f.m);
  }

  // ── Inverse and square root ───────────────────────────────────────

  /** For a prime modulus Inv inverts every nonzero element and sends zero to zero. */
  lemma InverseValue(f: Modulus, a: nat)
    requires Rendered(f) && In(f, a) && f.k > 0 && Prime(f.m)
    ensures In(f, Inv(f, a))
    ensures Val(f, a) != 0 ==> Cong(Val(f, a) * Val(f, Inv(f, a)), 1, f.m)
    ensures Val(f, a) == 0 ==> Val(f, Inv(f, a)) == 0
  {
    hide Mod, Div, Mont, EBits, FPow, Rendered, Prime, Val;
    RenderedBounds(f);
    EBitsLength(f, f.m - 2);
    PowerValue(f, a, f.m - 2);
    var v, e := Val(f, a), f.m - 2;
    ValBound(f, a);
    CongMod(Pow(v, e), f.m);
    if v != 0 {
      NotDivided(v, f.m);
      Fermat(v, f.m);
      CongMul(v, v, Val(f, Inv(f, a)), Pow(v, e), f.m);
      assert Pow(v, f.m - 1) == v * Pow(v, e);
    } else {
      PowZero(e);
      ModZero(f.m);
    }
  }

  lemma ModZero(m: nat)
    requires m > 0
    ensures Mod(0, m) == 0
  {}

  lemma ValBound(f: Modulus, a: nat)
    requires f.m > 0
    ensures Val(f, a) < f.m
  {}

  lemma NotDivided(v: nat, m: nat)
    requires 0 < v < m
    ensures !Divides(m, v)
  {}

  /** For a prime 3 mod 4, Sqrt squares back to every a that has a root. */
  lemma RootValue(f: Modulus, a: nat, x: nat)
    requires Rendered(f) && In(f, a) && f.k > 0 && Prime(f.m) && f.m % 4 == 3 && Cong(x * x, Val(f, a), f.m)
    ensures In(f, Sqrt(f, a)) && Cong(Val(f, Sqrt(f, a)) * Val(f, Sqrt(f, a)), Val(f, a), f.m)
  {
    hide *;
    RenderedBounds(f);
    var e := (f.m + 1) / 4;
    EBitsLength(f, e);
    PowerValue(f, a, e);
    SqrtDef(f, a);
    RootCong(f.m, Val(f, a), x, Val(f, Sqrt(f, a)));
  }

  lemma SqrtDef(f: Modulus, a: nat)
    requires f.k > 0
    ensures f.k <= 32 * |EBits(f, (f.m + 1) / 4)|
    ensures Sqrt(f, a) == FPow(f, a, EBits(f, (f.m + 1) / 4), f.k, f.one)
  {
    hide EBits, FPow;
    EBitsLength(f, (f.m + 1) / 4);
  }

  lemma RootCong(m: nat, v: nat, x: nat, r: nat)
    requires Prime(m) && m % 4 == 3 && Cong(x * x, v, m) && r == Mod(Pow(v, (m + 1) / 4), m)
    ensures Cong(r * r, v, m)
  {
    hide Mod, Prime;
    var e := (m + 1) / 4;
    CongMod(Pow(v, e), m);
    CongMul(r, Pow(v, e), r, Pow(v, e), m);
    PowAdd(v, e, e);
    QuarterPower(m, v, x, e);
  }

  /** v = x^2 gives v^(2e) = x^(m+1) = x^2. */
  lemma QuarterPower(m: nat, v: nat, x: nat, e: nat)
    requires Prime(m) && m % 4 == 3 && e == (m + 1) / 4 && Cong(x * x, v, m)
    ensures Cong(Pow(v, e + e), v, m)
  {
    hide Mod, Prime;
    CongPow(x * x, v, e + e, m);
    assert Pow(x, 2) == x * x by { assert Pow(x, 2) == x * Pow(x, 1); assert Pow(x, 1) == x * Pow(x, 0); }
    PowMul(x, 2, e + e);
    assert 2 * (e + e) == m + 1;
    assert Pow(x, m + 1) == x * Pow(x, m);
    Fermat(x, m);
    CongMul(x, x, Pow(x, m), x, m);
  }
}
