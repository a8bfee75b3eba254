/** Fixed-width unsigned words as naturals: arithmetic that wraps at the word's
    width, bitwise operators defined bit by bit, and big-endian byte strings. */
module Words {
  import opened Arith

  // ── Wrapping arithmetic and shifts ────────────────────────────────

  function UAdd(w: nat, a: nat, b: nat): nat { Mod(a + b, Pow2(w)) }
  function USub(w: nat, a: nat, b: nat): nat { Mod(a - b, Pow2(w)) }
  function UMul(w: nat, a: nat, b: nat): nat { Mod(a * b, Pow2(w)) }
  function Shl(w: nat, x: nat, n: nat): nat { Mod(x * Pow2(n), Pow2(w)) }
  function Shr(x: nat, n: nat): nat { Div(x, Pow2(n)) }

  // An operation whose exact result is a word does not wrap.

  lemma UAddExact(w: nat, a: nat, b: nat)
    requires a + b < Pow2(w)
    ensures UAdd(w, a, b) == a + b
  {
  }

  lemma USubExact(w: nat, a: nat, b: nat)
    requires b <= a < Pow2(w)
    ensures USub(w, a, b) == a - b
  {
  }

  lemma UMulExact(w: nat, a: nat, b: nat)
    requires a * b < Pow2(w)
    ensures UMul(w, a, b) == a * b
  {
  }

  lemma ShlExact(w: nat, x: nat, n: nat)
    requires x * Pow2(n) < Pow2(w)
    ensures Shl(w, x, n) == x * Pow2(n)
  {
  }

  // ── Bitwise operators ─────────────────────────────────────────────

  function And(a: nat, b: nat): nat
  {
    if a == 0 || b == 0 then 0 else 2 * And(a / 2, b / 2) + (a % 2) * (b % 2)
  }

  function Or(a: nat, b: nat): nat
    decreases a + b
  {
    if a == 0 && b == 0 then 0 else 2 * Or(a / 2, b / 2) + (if a % 2 + b % 2 == 0 then 0 else 1)
  }

  function Xor(a: nat, b: nat): nat
    decreases a + b
  {
    if a == 0 && b == 0 then 0 else 2 * Xor(a / 2, b / 2) + (a + b) % 2
  }

  /** Masking with 2^k - 1 keeps the low k bits. */
  lemma {:induction false} AndLow(x: nat, k: nat)
    ensures And(x, Pow2(k) - 1) == Mod(x, Pow2(k))
  {
    if k == 0 || x == 0 {
    } else {
      AndLow(x / 2, k - 1);
      HalfMod(x, Pow2(k - 1));
    }
  }

  lemma HalfMod(x: nat, p: nat)
    requires p > 0
    ensures Mod(x, 2 * p) == 2 * Mod(x / 2, p) + x % 2
  {
    DivMod(x / 2, p);
    var q, r := Div(x / 2, p), Mod(x / 2, p);
    assert 2 * (p * q) == 2 * p * q;
    DivModUnique(x, 2 * p, q, 2 * r + x % 2);
  }

  lemma AndOnes(x: nat, w: nat)
    requires x < Pow2(w)
    ensures And(x, Pow2(w) - 1) == x
  {
    AndLow(x, w);
  }

  lemma {:induction false} OrZero(x: nat)
    ensures Or(x, 0) == x && Or(0, x) == x
  {
    if x > 0 { OrZero(x / 2); }
  }

  lemma {:induction false} XorZero(x: nat)
    ensures Xor(x, 0) == x && Xor(0, x) == x
  {
    if x > 0 { XorZero(x / 2); }
  }

  lemma XorBits(a: nat, b: nat)
    ensures Xor(a, b) / 2 == Xor(a / 2, b / 2) && Xor(a, b) % 2 == (a + b) % 2
  {}

  /** Exclusive or undoes itself. */
  lemma {:induction false} XorCancel(a: nat, b: nat)
    ensures Xor(b, Xor(a, b)) == a
    decreases a + b
  {
    if a != 0 || b != 0 {
      XorCancel(a / 2, b / 2);
      XorStep(a, b);
    }
  }

  lemma XorStep(a: nat, b: nat)
    requires Xor(b / 2, Xor(a / 2, b / 2)) == a / 2
    ensures Xor(b, Xor(a, b)) == a
  {
    hide Xor;
    XorBits(a, b);
    XorBits(b, Xor(a, b));
  }

  lemma {:induction false} XorSelf(a: nat)
    ensures Xor(a, a) == 0
  {
    if a != 0 { XorSelf(a / 2); }
  }

  lemma {:induction false} XorBound(a: nat, b: nat, w: nat)
    requires a < Pow2(w) && b < Pow2(w)
    ensures Xor(a, b) < Pow2(w)
  {
    if w > 0 { XorBound(a / 2, b / 2, w - 1); }
  }

  /** Or of a shifted value and a value below the shift is their sum. */
  lemma {:induction false} OrDisjoint(x: nat, y: nat, n: nat)
    requires y < Pow2(n)
    ensures Or(x * Pow2(n), y) == x * Pow2(n) + y
  {
    if n == 0 {
      OrZero(x);
    } else {
      OrDisjoint(x, y / 2, n - 1);
      Twice(x, Pow2(n - 1), Pow2(n));
      OrDouble(x * Pow2(n - 1), y);
    }
  }

  lemma Twice(x: nat, p: nat, q: nat)
    requires q == 2 * p
    ensures x * q == 2 * (x * p)
  {}

  lemma OrDouble(h: nat, y: nat)
    ensures Or(2 * h, y) == 2 * Or(h, y / 2) + y % 2
  {
    assert 2 * h / 2 == h && 2 * h % 2 == 0;
    if h == 0 && y == 0 { assert Or(0, 0) == 0; }
  }

  // ── Bytes ─────────────────────────────────────────────────────────

  type Byte = b: int | 0 <= b < 256

  /** The integer whose big-endian bytes are b (OS2IP). */
  function BeVal(b: seq<Byte>): nat
  {
    if b == [] then 0 else 256 * BeVal(b[..|b| - 1]) + b[|b| - 1]
  }

  lemma {:induction false} BeValBound(b: seq<Byte>)
    ensures BeVal(b) < Pow2(8 * |b|)
  {
    if b != [] {
      BeValBound(b[..|b| - 1]);
      Pow2Add(8, 8 * (|b| - 1));
      assert Pow2(8) == 256;
    }
  }

  lemma {:induction false} BeValCons(x: Byte, b: seq<Byte>)
    ensures BeVal([x] + b) == x * Pow2(8 * |b|) + BeVal(b)
  {
    if b != [] {
      var c := b[..|b| - 1];
      BeValCons(x, c);
      assert ([x] + b)[..|b|] == [x] + c;
      Pow2Add(8, 8 * |c|);
      assert 8 + 8 * |c| == 8 * |b| && Pow2(8) == 256;
      assert 256 * (x * Pow2(8 * |c|)) == x * (256 * Pow2(8 * |c|));
    } else {
      assert [x] + b == [x] && [x][..0] == [];
    }
  }

  lemma {:induction false} BeValPlus(a: seq<Byte>, b: seq<Byte>)
    ensures BeVal(a + b) == BeVal(a) * Pow2(8 * |b|) + BeVal(b)
  {
    if b == [] {
      assert a + b == a && Pow2(0) == 1;
    } else {
      var c := b[..|b| - 1];
      BeValPlus(a, c);
      assert (a + b)[..|a + b| - 1] == a + c;
      Pow2Add(8, 8 * |c|);
      assert 8 + 8 * |c| == 8 * |b| && Pow2(8) == 256;
      assert 256 * (BeVal(a) * Pow2(8 * |c|)) == BeVal(a) * (256 * Pow2(8 * |c|));
    }
  }

  /** The value of a string with a nonzero first byte is at least 2^(8(n-1)). */
  lemma BeValTop(b: seq<Byte>)
    requires b != [] && b[0] != 0
    ensures Pow2(8 * (|b| - 1)) <= BeVal(b)
  {
    assert b == [b[0]] + b[1..];
    BeValCons(b[0], b[1..]);
    MulMono(1, b[0], Pow2(8 * (|b| - 1)));
  }

  lemma {:induction false} BeValZeros(b: seq<Byte>, i: nat)
    requires i <= |b| && forall j :: 0 <= j < i ==> b[j] == 0
    ensures BeVal(b[i..]) == BeVal(b)
  {
    if i > 0 {
      BeValZeros(b, i - 1);
      assert b[i - 1..] == [0] + b[i..];
      BeValCons(0, b[i..]);
    } else {
      assert b[0..] == b;
    }
  }

  /** Byte strings of one length with one value are equal. */
  lemma {:induction false} BeValInjective(a: seq<Byte>, b: seq<Byte>)
    requires |a| == |b| && BeVal(a) == BeVal(b)
    ensures a == b
  {
    if a != [] {
      BeValInjective(a[..|a| - 1], b[..|b| - 1]);
      assert a == a[..|a| - 1] + [a[|a| - 1]] && b == b[..|b| - 1] + [b[|b| - 1]];
    }
  }
}
