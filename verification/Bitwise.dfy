/** Fixed-width unsigned integers and the C++ bitwise operators, as arithmetic on natural numbers. */
module Bitwise {

  type Byte = n: nat | n < 0x100
  type UInt32 = n: nat | n < 0x1_0000_0000
  type UInt64 = n: nat | n < 0x1_0000_0000_0000_0000
  type Bytes = seq<Byte>

  /** `a | b`, bit by bit. */
  function Or(a: nat, b: nat): nat {
    if a == 0 && b == 0 then 0
    else 2 * Or(a / 2, b / 2) + (if a % 2 == 1 || b % 2 == 1 then 1 else 0)
  }

  /** `a & b`, bit by bit. */
  function And(a: nat, b: nat): nat {
    if a == 0 && b == 0 then 0
    else 2 * And(a / 2, b / 2) + (if a % 2 == 1 && b % 2 == 1 then 1 else 0)
  }

  /** `a ^ b`, bit by bit. */
  function Xor(a: nat, b: nat): nat {
    if a == 0 && b == 0 then 0
    else 2 * Xor(a / 2, b / 2) + (if a % 2 != b % 2 then 1 else 0)
  }

  /** `v >> k`. */
  function Shr(v: nat, k: nat): nat {
    if k == 0 then v else Shr(v, k - 1) / 2
  }

  /** `v << k` before any truncation to the width of the type. */
  function Shl(v: nat, k: nat): nat {
    if k == 0 then v else 2 * Shl(v, k - 1)
  }

  /** Or-ing a value into the zero low bits left by a shift adds it. */
  lemma {:induction false} OrIntoShifted(v: nat, b: nat, k: nat)
    requires b < Shl(1, k)
    ensures Or(Shl(v, k), b) == Shl(v, k) + b
  {
    if k == 0 {
      OrZero(v);
    } else {
      OrIntoShifted(v, b / 2, k - 1);
    }
  }

  lemma {:induction false} OrZero(v: nat)
    ensures Or(v, 0) == v
  {
    if v > 0 {
      OrZero(v / 2);
    }
  }

  /** Masking with 0xFF keeps the low byte. */
  lemma AndByteMask(v: nat)
    ensures And(v, 0xFF) == v % 0x100
  {
    AndMask(v, 8);
    ShlBytes(1);
    ShlBytes(v / 0x100);
    LowOfShifted(v / 0x100, v % 0x100, 8);
  }

  /** Masking with 0xFFFF keeps the low sixteen bits. */
  lemma AndWordMask(v: nat)
    ensures And(v, 0xFFFF) == v % 0x1_0000
  {
    AndMask(v, 16);
    ShlBytes(1);
    ShlBytes(v / 0x1_0000);
    LowOfShifted(v / 0x1_0000, v % 0x1_0000, 16);
  }

  /** The low k bits of v. */
  function Low(v: nat, k: nat): nat {
    if k == 0 then 0 else 2 * Low(v / 2, k - 1) + v % 2
  }

  lemma {:induction false} AndMask(v: nat, k: nat)
    ensures Shl(1, k) > 0
    ensures And(v, Shl(1, k) - 1) == Low(v, k)
  {
    if k == 0 {
      AndZero(v);
    } else {
      AndMask(v / 2, k - 1);
      var m := Shl(1, k - 1);
      assert (2 * m - 1) / 2 == m - 1 && (2 * m - 1) % 2 == 1;
    }
  }

  lemma {:induction false} LowOfShifted(q: nat, r: nat, k: nat)
    requires r < Shl(1, k)
    ensures Low(Shl(q, k) + r, k) == r
  {
    if k > 0 {
      LowOfShifted(q, r / 2, k - 1);
    }
  }

  lemma {:induction false} AndZero(v: nat)
    ensures And(v, 0) == 0
  {
    if v > 0 {
      AndZero(v / 2);
    }
  }

  lemma XorStep(a: nat, b: nat)
    ensures Xor(a, b) / 2 == Xor(a / 2, b / 2)
    ensures Xor(a, b) % 2 == if a % 2 != b % 2 then 1 else 0
  {
  }

  /** Xor-ing twice with the same value gives the first value back: what a stream cipher relies on. */
  lemma {:induction false} XorInvolutive(a: nat, b: nat)
    ensures Xor(Xor(a, b), b) == a
  {
    if a != 0 || b != 0 {
      XorInvolutive(a / 2, b / 2);
      XorStep(a, b);
      XorStep(Xor(a, b), b);
    }
  }

  /** Xor-ing with the first value gives the second. */
  lemma {:induction false} XorCancels(a: nat, b: nat)
    ensures Xor(Xor(a, b), a) == b
  {
    if a != 0 || b != 0 {
      XorCancels(a / 2, b / 2);
      XorStep(a, b);
      XorStep(Xor(a, b), a);
    }
  }

  /** Bit k of v. */
  predicate Bit(v: nat, k: nat) {
    if k == 0 then v % 2 == 1 else Bit(v / 2, k - 1)
  }

  /** Every bit of a xor b is set iff the bits of a and b differ. */
  lemma {:induction false} XorBits(a: nat, b: nat, k: nat)
    ensures Bit(Xor(a, b), k) <==> Bit(a, k) != Bit(b, k)
  {
    XorStep(a, b);
    if k > 0 {
      XorBits(a / 2, b / 2, k - 1);
    }
  }

  /** Xor stays within a byte. */
  lemma {:induction false} XorBounded(a: nat, b: nat, k: nat)
    requires a < Shl(1, k) && b < Shl(1, k)
    ensures Xor(a, b) < Shl(1, k)
  {
    if k > 0 {
      XorBounded(a / 2, b / 2, k - 1);
    }
  }

  /** The shift amounts the codec uses, as powers of two. */
  lemma ShlBytes(v: nat)
    ensures Shl(v, 8) == 0x100 * v
    ensures Shl(v, 16) == 0x1_0000 * v
    ensures Shl(v, 24) == 0x100_0000 * v
  {
    ShlByte(v, 0);
    ShlByte(v, 8);
    ShlByte(v, 16);
  }

  /** `(v << 8) | b`. */
  lemma OrByte(v: nat, b: Byte)
    ensures Or(Shl(v, 8), b) == 0x100 * v + b
  {
    ShlBytes(v);
    ShlBytes(1);
    OrIntoShifted(v, b, 8);
  }

  /** The same on a 64-bit word with room for one more byte. */
  lemma OrByteInWord(v: nat, b: Byte)
    requires v < 0x100_0000_0000_0000
    ensures Or(Shl(v, 8) % 0x1_0000_0000_0000_0000, b) == 0x100 * v + b
  {
    hide Or, Shl;
    ShlBytes(v);
    var word := 0x100 * v;
    assert word % 0x1_0000_0000_0000_0000 == word;
    OrByte(v, b);
  }

  lemma ShlByte(v: nat, k: nat)
    ensures Shl(v, k + 8) == 0x100 * Shl(v, k)
  {
    assert Shl(v, k + 4) == 0x10 * Shl(v, k) by {
      assert Shl(v, k + 2) == 2 * Shl(v, k + 1);
      assert Shl(v, k + 4) == 2 * Shl(v, k + 3);
    }
    assert Shl(v, k + 8) == 0x10 * Shl(v, k + 4) by {
      assert Shl(v, k + 6) == 2 * Shl(v, k + 5);
      assert Shl(v, k + 8) == 2 * Shl(v, k + 7);
    }
  }

  lemma ShrByte(v: nat, k: nat)
    ensures Shr(v, k + 8) == Shr(v, k) / 0x100
  {
    assert Shr(v, k + 1) == Shr(v, k) / 2;
    assert Shr(v, k + 2) == Shr(v, k + 1) / 2;
    assert Shr(v, k + 3) == Shr(v, k + 2) / 2;
    assert Shr(v, k + 4) == Shr(v, k + 3) / 2;
    assert Shr(v, k + 5) == Shr(v, k + 4) / 2;
    assert Shr(v, k + 6) == Shr(v, k + 5) / 2;
    assert Shr(v, k + 7) == Shr(v, k + 6) / 2;
    assert Shr(v, k + 8) == Shr(v, k + 7) / 2;
  }
}
