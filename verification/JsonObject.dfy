/** JSON values, and the object table that remembers one name per slot. */
module JsonObject {
  import opened Options

  datatype JsonValue =
    | Object(members: Members) | Array(items: seq<JsonValue>) | Number(text: string) | Str(text: string)
    | Null | True | False

  /** Names and values in order of arrival; table maps a slot to a position, counted from one. */
  datatype Members = Members(names: seq<string>, values: seq<JsonValue>, table: seq<int>)

  const SLOTS := 32
  const TWO31 := 0x8000_0000
  const TWO32 := 0x1_0000_0000

  /** The 32-bit two's complement value of x. */
  function I32(x: int): int { (x + TWO31) % TWO32 - TWO31 }

  /** The low five bits of the wrapped product; masking a two's complement value is a Euclidean remainder. */
  function Slot(name: string): (s: nat)
    ensures s < SLOTS
  {
    I32(I32(|name|) * 1402589) % SLOTS
  }

  function NewMembers(): Members { Members([], [], seq(SLOTS, i => 0)) }

  function Add(o: Members, name: string, value: JsonValue): (r: Members)
    requires |o.table| == SLOTS
    ensures |r.table| == SLOTS && |r.names| == |o.names| + 1
  {
    var index := |o.names|;
    Members(o.names + [name], o.values + [value],
      o.table[Slot(name) := if index < 0xff then (index + 1) % 0x100 else 0])
  }

  /** The latest name in a slot. */
  ghost predicate LatestIn(names: seq<string>, slot: nat, i: nat)
  {
    i < |names| && Slot(names[i]) == slot && forall j: nat :: i < j < |names| ==> Slot(names[j]) != slot
  }

  /** Every slot points to its latest name, or to nothing when there is none or it came too late. */
  ghost predicate Valid(o: Members)
  {
    && |o.values| == |o.names| && |o.table| == SLOTS
    && forall s: nat :: s < SLOTS ==> SlotRight(o, s)
  }

  ghost predicate SlotRight(o: Members, s: nat)
    requires |o.table| == SLOTS && s < SLOTS
  {
    && 0 <= o.table[s] <= |o.names| && o.table[s] < 0x100
    && (forall i: nat :: LatestIn(o.names, s, i) ==> o.table[s] == if i < 0xff then i + 1 else 0)
    && (o.table[s] > 0 ==> LatestIn(o.names, s, o.table[s] - 1))
  }

  lemma NewValid()
    ensures Valid(NewMembers())
  {}

  lemma AddValid(o: Members, name: string, value: JsonValue)
    requires Valid(o)
    ensures Valid(Add(o, name, value))
  {
    hide Slot;
    var o', n := Add(o, name, value), |o.names|;
    forall s: nat | s < SLOTS ensures SlotRight(o', s) {
      assert SlotRight(o, s);
      if s == Slot(name) {
        assert LatestIn(o'.names, s, n);
      } else {
        forall i: nat ensures LatestIn(o'.names, s, i) <==> LatestIn(o.names, s, i) {
          if LatestIn(o.names, s, i) {
            forall j: nat | i < j < |o'.names| ensures Slot(o'.names[j]) != s {}
          }
          if LatestIn(o'.names, s, i) {
            forall j: nat | i < j < |o.names| ensures Slot(o.names[j]) != s { assert o.names[j] == o'.names[j]; }
          }
        }
      }
    }
  }

  /** The value kept for name; None stands for the panic on a slot that is empty or holds another name. */
  function Get(o: Members, name: string): Option<JsonValue>
    requires Valid(o)
  {
    assert SlotRight(o, Slot(name));
    var index := o.table[Slot(name)] % 0x100 - 1;
    if index != -1 && name == o.names[index] then Some(o.values[index]) else None
  }

  /** Two names share a slot exactly when their lengths agree modulo 32. */
  lemma SlotIff(a: string, b: string)
    ensures Slot(a) == Slot(b) <==> |a| % SLOTS == |b| % SLOTS
  {
    SlotIs(|a|);
    SlotIs(|b|);
    Times29(|a| % SLOTS, |b| % SLOTS);
  }

  lemma I32Low(x: int)
    ensures I32(x) % SLOTS == x % SLOTS
  {
    var q := (x + TWO31) / TWO32;
    assert I32(x) == x - q * TWO32;
    LowBits(x, -q * 0x800_0000);
    assert x + (-q * 0x800_0000) * 32 == x - q * TWO32;
  }

  lemma LowBits(x: int, k: int)
    ensures (x + k * 32) % 32 == x % 32
  {
    var q, r := x / 32, x % 32;
    assert x + k * 32 == (q + k) * 32 + r;
  }

  lemma SlotIs(n: nat)
    ensures I32(I32(n) * 1402589) % SLOTS == 29 * (n % SLOTS) % SLOTS
  {
    var m := I32(n);
    I32Low(n);
    I32Low(m * 1402589);
    var q, r := m / 32, m % 32;
    LowBits(29 * r, q * 1402589 + r * 43830);
    assert m * 1402589 == 29 * r + (q * 1402589 + r * 43830) * 32;
  }

  /** 29 is odd, so multiplying by it permutes the slots. */
  lemma Times29(a: nat, b: nat)
    requires a < 32 && b < 32
    ensures 29 * a % 32 == 29 * b % 32 <==> a == b
  {
    Undo29(a);
    Undo29(b);
  }

  /** 21 undoes 29: 21 * 29 is 1 modulo 32. */
  lemma Undo29(a: nat)
    requires a < 32
    ensures 21 * (29 * a % 32) % 32 == a
  {
    var x := 29 * a;
    UndoFrom(a, x / 32, x % 32);
  }

  lemma UndoFrom(a: nat, q: int, r: int)
    requires 29 * a == 32 * q + r && a < 32
    ensures 21 * r % 32 == a
  {
    var k := 19 * a - 21 * q;
    assert 21 * r == a + k * 32;
    LowBits(a, k);
  }

  /** name was added at position i with value v, early enough, and nothing after it shares its slot. */
  ghost predicate FoundAt(o: Members, name: string, v: JsonValue, i: nat)
    requires |o.values| == |o.names|
  {
    i < |o.names| && i < 0xff && o.names[i] == name && o.values[i] == v && NoneLater(o.names, |name|, i)
  }

  /** No name after position i has length n modulo 32. */
  ghost predicate NoneLater(names: seq<string>, n: nat, i: nat)
  {
    forall j: nat :: i < j < |names| ==> |names[j]| % SLOTS != n % SLOTS
  }

  /** The latest name of a slot, told by lengths. */
  lemma LatestIff(names: seq<string>, name: string, i: nat)
    requires i < |names| && names[i] == name
    ensures LatestIn(names, Slot(name), i) <==> NoneLater(names, |name|, i)
  {
    hide Slot;
    forall j: nat | j < |names| ensures Slot(names[j]) == Slot(name) <==> |names[j]| % SLOTS == |name| % SLOTS {
      SlotIff(names[j], name);
    }
  }

  /**
   * Looking name up succeeds exactly for a name among the first 255 with no later name of the same length
   * modulo 32.
   */
  lemma GetIff(o: Members, name: string, v: JsonValue)
    requires Valid(o)
    ensures Get(o, name) == Some(v) <==> exists i: nat :: FoundAt(o, name, v, i)
  {
    hide Slot, LatestIn, NoneLater;
    var s := Slot(name);
    assert SlotRight(o, s);
    if Get(o, name) == Some(v) {
      var i := o.table[s] - 1;
      LatestIff(o.names, name, i);
      assert FoundAt(o, name, v, i);
    }
    forall i: nat | FoundAt(o, name, v, i) ensures Get(o, name) == Some(v) { LatestIff(o.names, name, i); }
  }
}
