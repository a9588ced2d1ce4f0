/** Bytes, and JavaScript's bit operators on small non-negative numbers, bit by bit. */
module Bits {
  type Byte = x: int | 0 <= x < 256

  function BitAnd(a: nat, b: nat): nat {
    if a == 0 then 0 else a % 2 * (b % 2) + 2 * BitAnd(a / 2, b / 2)
  }

  function BitOr(a: nat, b: nat): nat {
    if a == 0 then b else (if a % 2 == 1 then 1 else b % 2) + 2 * BitOr(a / 2, b / 2)
  }

  function XorBit(a: nat, b: nat): (bit: nat)
    ensures bit < 2
  {
    if a % 2 == b % 2 then 0 else 1
  }

  function BitXor(a: nat, b: nat): nat {
    if a == 0 then b else XorBit(a, b) + 2 * BitXor(a / 2, b / 2)
  }

  lemma {:induction false} XorTwice(a: nat, b: nat)
    ensures BitXor(BitXor(a, b), b) == a
    decreases a + b
  {
    if a == 0 {
      XorSelf(b);
    } else {
      XorTwice(a / 2, b / 2);
      XorStep(XorBit(a, b), BitXor(a / 2, b / 2), b);
      assert XorBit(XorBit(a, b), b) == a % 2;
      hide BitXor;
      assert a == a % 2 + 2 * (a / 2);
    }
  }

  lemma XorStep(bit: nat, high: nat, b: nat)
    requires bit < 2
    ensures BitXor(bit + 2 * high, b) == XorBit(bit, b) + 2 * BitXor(high, b / 2)
  {
  }

  lemma {:induction false} XorSelf(b: nat)
    ensures BitXor(b, b) == 0
  {
    if b > 0 {
      XorSelf(b / 2);
    }
  }

  /** The exclusive or of two numbers of `width` bits has no more. */
  lemma {:induction false} XorFits(a: nat, b: nat, width: nat)
    requires a < Power(2, width) && b < Power(2, width)
    ensures BitXor(a, b) < Power(2, width)
  {
    if a > 0 {
      XorFits(a / 2, b / 2, width - 1);
    }
  }

  function Power(base: nat, k: nat): nat { if k == 0 then 1 else base * Power(base, k - 1) }

  /** A mask of the low bits of a byte takes the remainder. */
  lemma {:induction false} AndLowFour(b: nat)
    ensures BitAnd(b, 0x0f) == b % 16
  {
    AndOddMask(b, 7);
    AndOddMask(b / 2, 3);
    AndOddMask(b / 2 / 2, 1);
    AndOddMask(b / 2 / 2 / 2, 0);
    AndZero(b / 2 / 2 / 2 / 2);
    hide BitAnd;
    var q := b / 2 / 2 / 2 / 2;
    assert 0 <= b - 16 * q < 16;
  }

  lemma {:induction false} AndLowSeven(b: nat)
    ensures BitAnd(b, 0x7f) == b % 128
  {
    AndOddMask(b, 63);
    AndOddMask(b / 2, 31);
    AndOddMask(b / 2 / 2, 15);
    AndLowFour(b / 2 / 2 / 2);
    hide BitAnd;
    RemainderOf128(b, b / 2 / 2 / 2);
  }

  lemma RemainderOf128(b: nat, q: nat)
    requires 8 * q <= b < 8 * q + 8
    ensures b % 128 == b - 8 * q + 8 * (q % 16)
  {
  }

  lemma AndOddMask(a: nat, half: nat)
    ensures a == a % 2 + 2 * (a / 2)
    ensures BitAnd(a, 2 * half + 1) == a % 2 + 2 * BitAnd(a / 2, half)
  {
    assert (2 * half + 1) / 2 == half && (2 * half + 1) % 2 == 1;
  }

  lemma {:induction false} AndZero(a: nat)
    ensures BitAnd(a, 0) == 0
  {
    if a > 0 {
      AndZero(a / 2);
    }
  }

  lemma {:induction false} AndHighBit(b: Byte)
    ensures BitAnd(b, 0x80) == if b >= 0x80 then 0x80 else 0
  {
    var b1, b2, b3 := b / 2, b / 4, b / 8;
    var b4, b5, b6 := b / 16, b / 32, b / 64;
    assert BitAnd(b / 128, 1) == b / 128;
    assert BitAnd(b6, 2) == 2 * (b / 128);
    assert BitAnd(b5, 4) == 4 * (b / 128);
    assert BitAnd(b4, 8) == 8 * (b / 128);
    assert BitAnd(b3, 16) == 16 * (b / 128);
    assert BitAnd(b2, 32) == 32 * (b / 128);
    assert BitAnd(b1, 64) == 64 * (b / 128);
  }

  lemma {:induction false} OrHighBit(high: nat, low: nat)
    requires high in {1, 2, 4, 8, 16, 32, 64, 128} && low < high
    ensures BitOr(high, low) == high + low
  {
    if high > 1 {
      OrHighBit(high / 2, low / 2);
    }
  }
}
