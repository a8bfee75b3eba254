/** Primes, Euclid's lemma, Fermat's little theorem and the uniqueness half of
    the Chinese remainder theorem. */
module NumberTheory {
  import opened Arith

  ghost predicate Divides(d: nat, x: int)
    requires d > 0
  {
    Cong(x, 0, d)
  }

  ghost predicate Prime(p: nat)
  {
    p > 1 && forall d :: 1 < d < p ==> !Divides(d, p)
  }

  lemma DividesFrom(d: nat, x: int, q: int)
    requires d > 0 && x == q * d
    ensures Divides(d, x)
  {
    CongFrom(x, 0, q, d);
  }

  lemma DividesWitness(d: nat, x: int) returns (q: int)
    requires d > 0 && Divides(d, x)
    ensures x == q * d
  {
    q := CongWitness(x, 0, d);
  }

  lemma DividesLinear(d: nat, x: int, y: int, a: int, b: int)
    requires d > 0 && Divides(d, x) && Divides(d, y)
    ensures Divides(d, a * x + b * y)
  {
    hide Mod;
    CongMul(a, a, x, 0, d);
    CongMul(b, b, y, 0, d);
    CongAdd(a * x, 0, b * y, 0, d);
  }

  /** Euclid's lemma, by descent on the factor that p does not divide. */
  lemma {:induction false} Euclid(p: nat, a: int, b: int)
    requires Prime(p) && Divides(p, a * b)
    ensures Divides(p, a) || Divides(p, b)
  {
    hide Mod;
    if !Divides(p, a) {
      var r := Mod(a, p);
      CongMod(a, p);
      CongMul(r, a, b, b, p);
      if r == 0 { assert false; }
      EuclidSmall(p, r, b);
    }
  }

  lemma {:induction false} EuclidSmall(p: nat, a: nat, b: int)
    requires Prime(p) && 0 < a < p && Divides(p, a * b)
    ensures Divides(p, b)
    decreases a
  {
    hide Mod;
    if a > 1 {
      DivMod(p, a);
      var q, r := Div(p, a), Mod(p, a);
      NoDivisor(p, a);
      DividesFrom(p, p * b, b);
      DividesLinear(p, p * b, a * b, 1, -q);
      DescentIdentity(p, a, q, r, b);
      EuclidSmall(p, r, b);
    }
  }

  lemma NoDivisor(p: nat, a: nat)
    requires Prime(p) && 1 < a < p
    ensures Mod(p, a) != 0
  {
    assert !Divides(a, p);
  }

  lemma DescentIdentity(p: int, a: int, q: int, r: int, b: int)
    requires p == a * q + r
    ensures 1 * (p * b) + -q * (a * b) == r * b
  {
    assert (a * q + r) * b == a * q * b + r * b;
    assert a * q * b == q * (a * b);
  }

  // ── Fermat's little theorem ───────────────────────────────────────

  function Choose(n: nat, k: nat): nat
  {
    if k == 0 then 1 else if n == 0 then 0 else Choose(n - 1, k - 1) + Choose(n - 1, k)
  }

  lemma {:induction false} ChooseAbove(n: nat, k: nat)
    requires k > n
    ensures Choose(n, k) == 0
  {
    if n > 0 {
      ChooseAbove(n - 1, k - 1);
      ChooseAbove(n - 1, k);
    }
  }

  lemma {:induction false} ChooseAll(n: nat)
    ensures Choose(n, n) == 1
  {
    if n > 0 {
      ChooseAll(n - 1);
      ChooseAbove(n - 1, n);
    }
  }

  /** k C(n, k) = n C(n - 1, k - 1). */
  lemma {:induction false} ChooseAbsorb(n: nat, k: nat)
    requires n > 0 && k > 0
    ensures k * Choose(n, k) == n * Choose(n - 1, k - 1)
  {
    if n == 1 {
      if k > 1 { ChooseAbove(1, k); ChooseAbove(0, k - 1); }
    } else if k == 1 {
      ChooseAbsorb(n - 1, 1);
    } else {
      ChooseAbsorb(n - 1, k - 1);
      ChooseAbsorb(n - 1, k);
      AbsorbIdentity(n, k, Choose(n - 1, k), Choose(n - 1, k - 1), Choose(n - 2, k - 2), Choose(n - 2, k - 1));
    }
  }

  lemma AbsorbIdentity(n: int, k: int, a: int, b: int, c: int, d: int)
    requires k * a == (n - 1) * d && (k - 1) * b == (n - 1) * c && b == c + d
    ensures k * (b + a) == n * b
  {
    assert k * (b + a) == (k - 1) * b + b + k * a;
    assert (n - 1) * c + (n - 1) * d == (n - 1) * (c + d);
  }

  /** A prime divides its inner binomial coefficients. */
  lemma PrimeDividesChoose(p: nat, k: nat)
    requires Prime(p) && 0 < k < p
    ensures Divides(p, Choose(p, k))
  {
    hide Mod, Choose;
    ChooseAbsorb(p, k);
    DividesFrom(p, k * Choose(p, k), Choose(p - 1, k - 1));
    EuclidSmall(p, k, Choose(p, k));
  }

  /** The first terms of the expansion of (1 + a)^n: those up to a^m. */
  function Binomial(a: int, n: nat, m: nat): int
  {
    Choose(n, m) * Pow(a, m) + if m == 0 then 0 else Binomial(a, n, m - 1)
  }

  lemma {:induction false} BinomialStep(a: int, n: nat, m: nat)
    requires n > 0
    ensures Binomial(a, n, m) == Binomial(a, n - 1, m) + if m == 0 then 0 else a * Binomial(a, n - 1, m - 1)
  {
    hide Choose;
    if m == 0 {
      ChooseZero(n);
      ChooseZero(n - 1);
    } else {
      BinomialStep(a, n, m - 1);
      Pascal(n, m);
      var rest := if m == 1 then 0 else Binomial(a, n - 1, m - 2);
      TermIdentity(a, Choose(n - 1, m - 1), Choose(n - 1, m), Pow(a, m - 1), rest);
    }
  }

  lemma ChooseZero(n: nat)
    ensures Choose(n, 0) == 1
  {}

  lemma Pascal(n: nat, m: nat)
    requires n > 0 && m > 0
    ensures Choose(n, m) == Choose(n - 1, m - 1) + Choose(n - 1, m)
  {}

  lemma TermIdentity(a: int, c: int, d: int, x: int, rest: int)
    ensures (c + d) * (a * x) + a * rest == d * (a * x) + a * (c * x + rest)
    ensures a * 0 == 0
  {}

  lemma {:induction false} BinomialTheorem(a: int, n: nat)
    ensures Binomial(a, n, n) == Pow(1 + a, n)
  {
    if n == 0 {
      ChooseZero(0);
    } else {
      hide Choose;
      var b := Binomial(a, n - 1, n - 1);
      BinomialTheorem(a, n - 1);
      BinomialStep(a, n, n);
      ChooseAbove(n - 1, n);
      assert Binomial(a, n - 1, n) == 0 * Pow(a, n) + b;
      assert (1 + a) * b == b + a * b;
    }
  }

  lemma {:induction false} BinomialInner(a: int, p: nat, m: nat)
    requires Prime(p) && m < p
    ensures Cong(Binomial(a, p, m), 1, p)
  {
    hide Mod, Prime;
    if m > 0 {
      BinomialInner(a, p, m - 1);
      PrimeDividesChoose(p, m);
      CongMul(Choose(p, m), 0, Pow(a, m), Pow(a, m), p);
      CongAdd(Choose(p, m) * Pow(a, m), 0, Binomial(a, p, m - 1), 1, p);
    }
  }

  /** a^p ≡ a, by induction on a. */
  lemma {:induction false} FermatNat(a: nat, p: nat)
    requires Prime(p)
    ensures Cong(Pow(a, p), a, p)
  {
    hide Mod, Prime, Binomial, Choose;
    if a == 0 {
      PrimeAboveOne(p);
      PowZero(p);
    } else {
      PrimeAboveOne(p);
      FermatNat(a - 1, p);
      FrobeniusStep(a - 1, p);
      CongAdd(Pow(a - 1, p), a - 1, 1, 1, p);
    }
  }

  lemma PrimeAboveOne(p: nat)
    requires Prime(p)
    ensures p > 1
  {}

  lemma FrobeniusStep(a: int, p: nat)
    requires Prime(p)
    ensures Cong(Pow(a + 1, p), Pow(a, p) + 1, p)
  {
    hide Mod, Choose;
    BinomialTheorem(a, p);
    BinomialInner(a, p, p - 1);
    ChooseAll(p);
    CongAdd(Pow(a, p), Pow(a, p), Binomial(a, p, p - 1), 1, p);
  }

  /** Fermat's little theorem: a^(p-1) ≡ 1 unless p divides a. */
  lemma Fermat(a: int, p: nat)
    requires Prime(p)
    ensures Cong(Pow(a, p), a, p)
    ensures !Divides(p, a) ==> Cong(Pow(a, p - 1), 1, p)
  {
    hide Mod, Prime;
    PrimeAboveOne(p);
    var r := Mod(a, p);
    CongMod(a, p);
    FermatNat(r, p);
    CongPow(r, a, p, p);
    if !Divides(p, a) {
      CongAdd(Pow(a, p), a, a, a, p);
      FactorIdentity(a, Pow(a, p - 1));
      Euclid(p, a, Pow(a, p - 1) - 1);
      CongAdd(Pow(a, p - 1) - 1, 0, 1, 1, p);
    }
  }

  lemma FactorIdentity(a: int, x: int)
    ensures a * x - a == a * (x - 1) && a - a == 0
  {}

  /** Raising to an exponent that is 1 modulo p - 1 changes no residue mod p. */
  lemma FermatExponent(m: int, f: nat, j: nat, p: nat)
    requires Prime(p) && f == 1 + j * (p - 1)
    ensures Cong(Pow(m, f), m, p)
  {
    hide Mod, Prime;
    PrimeAboveOne(p);
    Fermat(m, p);
    if Divides(p, m) {
      CongPow(m, 0, f, p);
      assert f > 0 by { MulMono(0, j, p - 1); }
      PowZero(f);
    } else {
      PowMul(m, p - 1, j);
      CongPow(Pow(m, p - 1), 1, j, p);
      PowOne(j);
      assert (p - 1) * j == j * (p - 1);
      CongMul(m, m, Pow(m, (p - 1) * j), 1, p);
    }
  }

  // ── Chinese remainders ────────────────────────────────────────────

  /** Congruence modulo p and modulo q gives congruence modulo p q when q is
      invertible modulo p. */
  lemma ChineseUnique(a: int, b: int, p: nat, q: nat, qi: int)
    requires p > 0 && q > 0 && Cong(q * qi, 1, p)
    requires Cong(a, b, p) && Cong(a, b, q)
    ensures p * q > 0 && Cong(a, b, p * q)
  {
    hide Mod;
    MulMono(1, q, p);
    var y := CongWitness(a, b, q);
    CongAdd(a, b, b, b, p);
    assert a - b == y * q && b - b == 0;
    CongMul(y * q, 0, qi, qi, p);
    CongUnit(y, q, qi, p);
    var z := CongWitness(y, 0, p);
    ProductIdentity(y, z, p, q);
    CongFrom(a, b, z, p * q);
  }

  lemma ProductIdentity(y: int, z: int, p: int, q: int)
    requires y == 0 + z * p
    ensures y * q == z * (p * q)
  {}
}
