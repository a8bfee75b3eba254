/** Modular arithmetic over the integers: the facts about `%`, products and
    powers that the public-key modules use. */
module Arith {

  /** The remainder and quotient of Euclidean division, `x % m` and `x / m`
      (see `ModIsRemainder`). They are written as recursions so that a proof sees
      no nonlinear term unless it asks for one. */
  function Mod(x: int, m: int): (r: int)
    requires m > 0
    ensures 0 <= r < m
    decreases if x < 0 then m - x else x
  {
    if x < 0 then Mod(x + m, m) else if x < m then x else Mod(x - m, m)
  }

  function Div(x: int, m: int): (q: int)
    requires m > 0
    ensures x >= 0 <==> q >= 0
    decreases if x < 0 then m - x else x
  {
    if x < 0 then Div(x + m, m) - 1 else if x < m then 0 else Div(x - m, m) + 1
  }

  lemma {:induction false} DivMod(x: int, m: int)
    requires m > 0
    ensures x == m * Div(x, m) + Mod(x, m)
    decreases if x < 0 then m - x else x
  {
    if x < 0 {
      DivMod(x + m, m);
      assert m * (Div(x, m) + 1) == m * Div(x, m) + m;
    } else if x >= m {
      DivMod(x - m, m);
      assert m * (Div(x, m) - 1) == m * Div(x, m) - m;
    }
  }

  /** The quotient and remainder are unique. */
  lemma DivModUnique(x: int, m: int, q: int, r: int)
    requires 0 <= r < m && x == m * q + r
    ensures Div(x, m) == q && Mod(x, m) == r
  {
    DivMod(x, m);
    var d := q - Div(x, m);
    assert m * d == m * q - m * Div(x, m);
    if d >= 1 {
      MulMono(1, d, m);
      assert false;
    } else if d <= -1 {
      MulMono(d, -1, m);
      assert false;
    }
  }

  lemma ModIsRemainder(x: int, m: int)
    requires m > 0
    ensures Mod(x, m) == x % m && Div(x, m) == x / m
  {
    DivModUnique(x, m, x / m, x % m);
  }

  /** a and b leave the same remainder modulo m. */
  ghost predicate Cong(a: int, b: int, m: int)
    requires m > 0
  {
    Mod(a, m) == Mod(b, m)
  }

  lemma MulMono(a: int, b: int, m: int)
    requires a <= b && 0 <= m
    ensures a * m <= b * m && m * a <= m * b
  {
    assert 0 <= (b - a) * m;
  }

  lemma ModShift(a: int, k: int, m: int)
    requires m > 0
    ensures Mod(a + k * m, m) == Mod(a, m) && Mod(a + m * k, m) == Mod(a, m)
  {
    DivMod(a, m);
    assert m * (Div(a, m) + k) == m * Div(a, m) + m * k;
    DivModUnique(a + k * m, m, Div(a, m) + k, Mod(a, m));
  }

  /** Congruence has a witness. */
  lemma CongWitness(a: int, b: int, m: int) returns (k: int)
    requires m > 0 && Cong(a, b, m)
    ensures a == b + k * m
  {
    hide Mod, Div;
    DivMod(a, m);
    DivMod(b, m);
    k := Div(a, m) - Div(b, m);
    assert k * m == m * Div(a, m) - m * Div(b, m);
  }

  lemma CongFrom(a: int, b: int, k: int, m: int)
    requires m > 0 && a == b + k * m
    ensures Cong(a, b, m)
  {
    ModShift(b, k, m);
  }

  lemma CongMod(a: int, m: int)
    requires m > 0
    ensures Cong(Mod(a, m), a, m) && Cong(a, Mod(a, m), m)
  {
    DivMod(a, m);
    CongFrom(a, Mod(a, m), Div(a, m), m);
  }

  lemma CongAdd(a: int, b: int, c: int, d: int, m: int)
    requires m > 0 && Cong(a, b, m) && Cong(c, d, m)
    ensures Cong(a + c, b + d, m) && Cong(a - c, b - d, m)
  {
    var k := CongWitness(a, b, m);
    var l := CongWitness(c, d, m);
    assert a + c == b + d + (k + l) * m;
    CongFrom(a + c, b + d, k + l, m);
    assert a - c == b - d + (k - l) * m;
    CongFrom(a - c, b - d, k - l, m);
  }

  lemma CongMul(a: int, b: int, c: int, d: int, m: int)
    requires m > 0 && Cong(a, b, m) && Cong(c, d, m)
    ensures Cong(a * c, b * d, m)
  {
    hide Mod, Div;
    var k := CongWitness(a, b, m);
    var l := CongWitness(c, d, m);
    ProductShift(a, b, c, d, k, l, m);
    CongFrom(a * c, b * d, b * l + k * d + k * l * m, m);
  }

  lemma ProductShift(a: int, b: int, c: int, d: int, k: int, l: int, m: int)
    requires a == b + k * m && c == d + l * m
    ensures a * c == b * d + (b * l + k * d + k * l * m) * m
  {
    assert (b + k * m) * (d + l * m) == b * d + b * (l * m) + k * m * d + (k * m) * (l * m);
  }

  /** Reducing a factor does not change a product's residue. */
  lemma ModMul(a: int, b: int, m: int)
    requires m > 0
    ensures Mod(Mod(a, m) * b, m) == Mod(a * b, m) && Mod(a * Mod(b, m), m) == Mod(a * b, m)
  {
    hide Mod;
    CongMod(a, m);
    CongMod(b, m);
    CongMul(Mod(a, m), a, b, b, m);
    CongMul(a, a, Mod(b, m), b, m);
  }

  lemma CongSmall(a: int, b: int, m: int)
    requires 0 <= a < m && 0 <= b < m && Cong(a, b, m)
    ensures a == b
  {}

  /** A residue is determined by what it is congruent to. */
  lemma ModOfCong(a: int, b: int, m: int)
    requires 0 <= a < m && Cong(a, b, m)
    ensures a == Mod(b, m)
  {}

  /** An invertible factor cancels. */
  lemma CongCancel(a: int, b: int, c: int, ci: int, m: int)
    requires m > 0 && Cong(c * ci, 1, m) && Cong(a * c, b * c, m)
    ensures Cong(a, b, m)
  {
    hide Mod, Div;
    CongMul(a * c, b * c, ci, ci, m);
    CongUnit(a, c, ci, m);
    CongUnit(b, c, ci, m);
  }

  lemma CongUnit(a: int, c: int, ci: int, m: int)
    requires m > 0 && Cong(c * ci, 1, m)
    ensures Cong(a * c * ci, a, m)
  {
    hide Mod, Div;
    CongMul(a, a, c * ci, 1, m);
    assert a * c * ci == a * (c * ci);
  }

  // ── Powers ────────────────────────────────────────────────────────

  function Pow(b: int, e: nat): (r: int)
  {
    if e == 0 then 1 else b * Pow(b, e - 1)
  }

  lemma {:induction false} PowAdd(b: int, e: nat, f: nat)
    ensures Pow(b, e + f) == Pow(b, e) * Pow(b, f)
  {
    if e > 0 {
      PowAdd(b, e - 1, f);
      assert b * (Pow(b, e - 1) * Pow(b, f)) == b * Pow(b, e - 1) * Pow(b, f);
    }
  }

  lemma {:induction false} PowMul(b: int, e: nat, f: nat)
    ensures Pow(b, e * f) == Pow(Pow(b, e), f)
  {
    if f == 0 {
      assert e * f == 0;
    } else {
      PowMul(b, e, f - 1);
      assert e * f == e + e * (f - 1);
      PowAdd(b, e, e * (f - 1));
    }
  }

  lemma {:induction false} PowOne(e: nat)
    ensures Pow(1, e) == 1
  {
    if e > 0 { PowOne(e - 1); }
  }

  lemma {:induction false} PowZero(e: nat)
    requires e > 0
    ensures Pow(0, e) == 0
  {}

  lemma {:induction false} CongPow(a: int, b: int, e: nat, m: int)
    requires m > 0 && Cong(a, b, m)
    ensures Cong(Pow(a, e), Pow(b, e), m)
  {
    if e > 0 {
      CongPow(a, b, e - 1, m);
      CongMul(a, b, Pow(a, e - 1), Pow(b, e - 1), m);
    }
  }

  function Pow2(n: nat): (r: nat)
    ensures r > 0
  {
    if n == 0 then 1 else 2 * Pow2(n - 1)
  }

  lemma {:induction false} Pow2Add(a: nat, b: nat)
    ensures Pow2(a + b) == Pow2(a) * Pow2(b)
  {
    if a > 0 {
      Pow2Add(a - 1, b);
      assert Pow2(a + b) == 2 * Pow2(a - 1 + b);
      assert 2 * (Pow2(a - 1) * Pow2(b)) == 2 * Pow2(a - 1) * Pow2(b);
    }
  }

  lemma Pow2Succ(n: nat)
    requires n > 0
    ensures Pow2(n) == 2 * Pow2(n - 1)
  {}

  lemma {:induction false} Pow2Mono(a: nat, b: nat)
    requires a <= b
    ensures Pow2(a) <= Pow2(b)
  {
    if a < b { Pow2Mono(a, b - 1); }
  }

  /** Reduction modulo 2^w and then modulo 2^k is reduction modulo 2^k. */
  lemma ModPow2(x: int, k: nat, w: nat)
    requires k <= w
    ensures Mod(Mod(x, Pow2(w)), Pow2(k)) == Mod(x, Pow2(k))
  {
    Pow2Add(k, w - k);
    ModModMultiple(x, Pow2(k), Pow2(w - k));
  }

  lemma ModModMultiple(x: int, a: nat, b: nat)
    requires a > 0 && b > 0
    ensures a * b > 0 && Mod(Mod(x, a * b), a) == Mod(x, a)
  {
    hide Mod, Div;
    var m := a * b;
    MulMono(1, b, a);
    DivMod(x, m);
    var q := Div(x, m);
    assert m * q == (q * b) * a;
    ModShift(Mod(x, m), q * b, a);
  }

  /** A congruence modulo 2^k holds modulo every smaller power of two. */
  lemma CongPow2(a: int, b: int, e: nat, k: nat)
    requires e <= k && Cong(a, b, Pow2(k))
    ensures Cong(a, b, Pow2(e))
  {
    ModPow2(a, e, k);
    ModPow2(b, e, k);
  }
}
