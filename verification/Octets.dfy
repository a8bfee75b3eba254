/** Big-endian byte strings loaded into words of w bits and stored back. */
module Octets {
  import opened Arith
  import opened Words

  // ── Byte strings and words ────────────────────────────────────────

  function Load(w: nat, b: seq<Byte>, i: nat, acc: nat): nat
    decreases |b| - i
  {
    if i >= |b| then acc else Load(w, b, i + 1, Or(Shl(w, acc, 8), b[i]))
  }

  function Bytes(x: nat, n: nat, i: nat, acc: seq<Byte>): seq<Byte>
    decreases n - i
  {
    if i >= n then acc
    else
      assert Pow2(8) == 256;
      AndLow(Shr(x, 8 * (n - 1 - i)), 8);
      Bytes(x, n, i + 1, acc + [And(Shr(x, 8 * (n - 1 - i)), 255)])
  }

  /** x as n big-endian bytes (I2OSP). */
  function I2osp(x: nat, n: nat): seq<Byte> { Bytes(x, n, 0, []) }

  // ── Loading and storing ───────────────────────────────────────────

  /** Loading a byte string that fits a word gives its big-endian value. */
  lemma {:induction false} LoadValue(w: nat, b: seq<Byte>, i: nat)
    requires i <= |b| && 8 * |b| <= w
    ensures Load(w, b, i, BeVal(b[..i])) == BeVal(b)
    decreases |b| - i
  {
    hide BeVal, Shl, Or;
    if i == |b| {
      assert b[..i] == b;
    } else {
      LoadByte(w, b[..i], b[i]);
      assert b[..i + 1] == b[..i] + [b[i]];
      LoadValue(w, b, i + 1);
    }
  }

  lemma LoadByte(w: nat, b: seq<Byte>, x: Byte)
    requires 8 * (|b| + 1) <= w
    ensures Or(Shl(w, BeVal(b), 8), x) == BeVal(b + [x])
  {
    assert (b + [x])[..|b|] == b;
    assert BeVal(b + [x]) == 256 * BeVal(b) + x;
    BeValBound(b + [x]);
    Pow2Mono(8 * |b + [x]|, w);
    Pow2Eight();
    hide BeVal, Pow2;
    ShlExact(w, BeVal(b), 8);
    OrDisjoint(BeVal(b), x, 8);
  }

  lemma Pow2Eight()
    ensures Pow2(8) == 256
  {}

  lemma LoadBytes(w: nat, b: seq<Byte>)
    requires 8 * |b| <= w
    ensures Load(w, b, 0, 0) == BeVal(b) && BeVal(b) < Pow2(8 * |b|)
  {
    LoadValue(w, b, 0);
    assert b[..0] == [];
    BeValBound(b);
  }

  lemma {:induction false} BytesValue(x: nat, n: nat, i: nat, acc: seq<Byte>)
    requires i <= n && |acc| == i && BeVal(acc) == Mod(Shr(x, 8 * (n - i)), Pow2(8 * i))
    ensures |Bytes(x, n, i, acc)| == n && BeVal(Bytes(x, n, i, acc)) == Mod(x, Pow2(8 * n))
    decreases n - i
  {
    if i == n {
      ShrZero(x);
    } else {
      var y := Shr(x, 8 * (n - 1 - i));
      AndLow(y, 8);
      Pow2Eight();
      var b := And(y, 255);
      assert (acc + [b])[..i] == acc;
      ShrShr(x, 8 * (n - 1 - i));
      Digits(y, i);
      BytesValue(x, n, i + 1, acc + [b]);
    }
  }

  lemma ShrZero(x: nat)
    ensures Shr(x, 0) == x
  {
    DivModUnique(x, 1, x, 0);
  }

  lemma ShrShr(x: nat, n: nat)
    ensures Shr(x, n + 8) == Div(Shr(x, n), 256)
  {
    hide Mod, Div;
    var a, y := Pow2(n), Shr(x, n);
    Pow2Add(n, 8);
    Pow2Eight();
    DivMod(x, a);
    DivMod(y, 256);
    ShrIdentity(x, a, y, Mod(x, a), Div(y, 256), Mod(y, 256));
    DivModUnique(x, Pow2(n + 8), Div(y, 256), a * Mod(y, 256) + Mod(x, a));
  }

  lemma ShrIdentity(x: nat, a: nat, y: nat, r: nat, q: nat, s: nat)
    requires x == a * y + r && y == 256 * q + s && r < a && s < 256
    ensures x == a * 256 * q + (a * s + r) && a * s + r < a * 256
  {
    MulMono(s, 255, a);
    assert a * (256 * q + s) == a * 256 * q + a * s;
  }

  lemma Digits(y: nat, i: nat)
    ensures 256 * Mod(Div(y, 256), Pow2(8 * i)) + Mod(y, 256) == Mod(y, Pow2(8 * (i + 1)))
  {
    hide Mod, Div;
    var a, q := Pow2(8 * i), Div(y, 256);
    Pow2Add(8, 8 * i);
    Pow2Eight();
    DivMod(y, 256);
    DivMod(q, a);
    DigitIdentity(y, a, q, Mod(y, 256), Div(q, a), Mod(q, a));
    DivModUnique(y, Pow2(8 * (i + 1)), Div(q, a), 256 * Mod(q, a) + Mod(y, 256));
  }

  lemma DigitIdentity(y: nat, a: nat, q: nat, r: nat, t: nat, s: nat)
    requires y == 256 * q + r && q == a * t + s && r < 256 && s < a
    ensures y == 256 * a * t + (256 * s + r) && 256 * s + r < 256 * a
  {
    assert 256 * (a * t) == 256 * a * t;
  }

  /** I2OSP writes the low 8n bits of x, and OS2IP reads them back. */
  lemma I2ospValue(x: nat, n: nat)
    ensures |I2osp(x, n)| == n && BeVal(I2osp(x, n)) == Mod(x, Pow2(8 * n))
  {
    assert Pow2(0) == 1;
    BytesValue(x, n, 0, []);
  }

  lemma I2ospOfBytes(b: seq<Byte>)
    ensures I2osp(BeVal(b), |b|) == b
  {
    BeValBound(b);
    I2ospValue(BeVal(b), |b|);
    BeValInjective(I2osp(BeVal(b), |b|), b);
  }
}
