/** Machine words as bounded integers, and the bit operations on them.
    Values of the source's unsigned types are integers in range; every
    wrap-around is written out as a remainder. */
module Words {

  type u8 = x: int | 0 <= x < 0x100
  type u32 = x: int | 0 <= x < 0x1_0000_0000
  type u64 = x: int | 0 <= x < 0x1_0000_0000_0000_0000

  const TWO32: int := 0x1_0000_0000

  ghost predicate Ascending(s: seq<int>) {
    forall i, j :: 0 <= i < j < |s| ==> s[i] < s[j]
  }

  function Pow2(n: nat): (r: int)
    ensures r >= 1
  {
    if n == 0 then 1 else 2 * Pow2(n - 1)
  }

  lemma {:induction false} Pow2Split(n: nat, k: nat)
    requires k <= n
    ensures Pow2(n) == Pow2(k) * Pow2(n - k)
  {
    if k > 0 {
      Pow2Split(n - 1, k - 1);
    }
  }

  /** The three bitwise operators, one bit per level, least significant bit first. */
  datatype BitOp = And | Or | Xor

  function Bit(op: BitOp, a: int, b: int): (r: int)
    requires 0 <= a < 2 && 0 <= b < 2
    ensures 0 <= r < 2
  {
    match op
    case And => if a == 1 && b == 1 then 1 else 0
    case Or => if a == 1 || b == 1 then 1 else 0
    case Xor => if a != b then 1 else 0
  }

  /** `op` applied bit by bit to two words of `w` bits. */
  function Bitwise(w: nat, op: BitOp, a: int, b: int): (r: int)
    requires 0 <= a < Pow2(w) && 0 <= b < Pow2(w)
    ensures 0 <= r < Pow2(w)
  {
    if w == 0 then 0
    else Bit(op, a % 2, b % 2) + 2 * Bitwise(w - 1, op, a / 2, b / 2)
  }

  lemma Pow2Of32()
    ensures Pow2(31) == 0x8000_0000 && Pow2(32) == 0x1_0000_0000
  {
    assert Pow2(8) == 256;
    Pow2Split(16, 8);
    Pow2Split(24, 8);
    Pow2Split(32, 8);
    assert Pow2(32) == 2 * Pow2(31);
  }

  function Bitwise32(op: BitOp, a: u32, b: u32): u32 {
    Pow2Of32();
    Bitwise(32, op, a, b)
  }

  /** Masking a word with zero clears it. */
  lemma {:induction false} AndZero(w: nat, a: int)
    requires 0 <= a < Pow2(w)
    ensures Bitwise(w, And, a, 0) == 0
  {
    if w > 0 {
      AndZero(w - 1, a / 2);
    }
  }

  /** Testing the top bit of a word is the same as comparing with the half range. */
  lemma {:induction false} TopBit(w: nat, a: int)
    requires w > 0 && 0 <= a < Pow2(w)
    ensures Bitwise(w, And, a, Pow2(w - 1)) != 0 <==> a >= Pow2(w - 1)
  {
    if w > 1 {
      TopBit(w - 1, a / 2);
      assert Pow2(w - 1) % 2 == 0 && Pow2(w - 1) / 2 == Pow2(w - 2);
    }
  }

  lemma TopBit32(a: u32)
    ensures Bitwise32(And, a, 0x8000_0000) != 0 <==> a >= 0x8000_0000
  {
    Pow2Of32();
    TopBit(32, a);
  }

  /** Go shifts: a distance of 32 or more leaves zero. */
  function ShiftLeft(a: u32, n: u32): u32 {
    if n >= 32 then 0 else (a * Pow2(n)) % TWO32
  }

  lemma DivShrinks(a: u32, d: int)
    requires d >= 1
    ensures 0 <= a / d <= a
  {
    assert a / d * d <= a;
  }

  function ShiftRight(a: u32, n: u32): u32 {
    if n >= 32 then 0 else
      var d := Pow2(n);
      DivShrinks(a, d);
      a / d
  }
}
