/** Bit strings with the least significant bit first, the order in which GIF packs LZW codes into bytes. */
module Bits {
  type Byte = b: int | 0 <= b < 256

  function Pow2(n: nat): (p: nat)
    ensures p > 0
  {
    if n == 0 then 1 else 2 * Pow2(n - 1)
  }

  /** `value << n`. */
  function ShiftLeft(value: nat, n: nat): nat {
    if n == 0 then value else 2 * ShiftLeft(value, n - 1)
  }

  function ToBits(value: nat, width: nat): (bits: seq<bool>)
    ensures |bits| == width
  {
    if width == 0 then [] else [value % 2 == 1] + ToBits(value / 2, width - 1)
  }

  function FromBits(bits: seq<bool>): nat {
    if bits == [] then 0 else (if bits[0] then 1 else 0) + 2 * FromBits(bits[1..])
  }

  function Zeros(n: nat): (bits: seq<bool>)
    ensures |bits| == n
  {
    if n == 0 then [] else [false] + Zeros(n - 1)
  }

  /** The bits of a byte string, byte after byte. */
  function BytesToBits(bytes: seq<Byte>): (bits: seq<bool>)
    ensures |bits| == 8 * |bytes|
  {
    if bytes == [] then [] else BytesToBits(bytes[..|bytes| - 1]) + ToBits(bytes[|bytes| - 1], 8)
  }

  lemma {:induction false} Pow2Monotone(a: nat, b: nat)
    requires a <= b
    ensures Pow2(a) <= Pow2(b)
    decreases b
  {
    if a < b {
      Pow2Monotone(a, b - 1);
    }
  }

  /** Reading back the low `width` bits of a number that fits gives the number. */
  lemma {:induction false} FromToBits(value: nat, width: nat)
    requires value < Pow2(width)
    ensures FromBits(ToBits(value, width)) == value
  {
    if width > 0 {
      FromToBits(value / 2, width - 1);
      assert ToBits(value, width)[1..] == ToBits(value / 2, width - 1);
    }
  }

  lemma {:induction false} ToBitsZero(width: nat)
    ensures ToBits(0, width) == Zeros(width)
  {
    if width > 0 {
      ToBitsZero(width - 1);
    }
  }

  /** Zero padding above the top bit does not change the number. */
  lemma {:induction false} FromBitsPadded(bits: seq<bool>, n: nat)
    ensures FromBits(bits + Zeros(n)) == FromBits(bits)
  {
    if bits != [] {
      assert (bits + Zeros(n))[1..] == bits[1..] + Zeros(n);
      FromBitsPadded(bits[1..], n);
    } else if n > 0 {
      assert (bits + Zeros(n))[1..] == [] + Zeros(n - 1);
      FromBitsPadded([], n - 1);
    } else {
      assert bits + Zeros(n) == bits;
    }
  }

  /** Writing `high` above `low` concatenates their bit strings. */
  lemma {:induction false} ToBitsConcat(low: nat, lowWidth: nat, high: nat, highWidth: nat)
    requires low < Pow2(lowWidth)
    ensures ToBits(low + ShiftLeft(high, lowWidth), lowWidth + highWidth) == ToBits(low, lowWidth) + ToBits(high, highWidth)
    decreases lowWidth
  {
    if lowWidth > 0 {
      var whole := low + ShiftLeft(high, lowWidth);
      assert whole % 2 == low % 2 && whole / 2 == low / 2 + ShiftLeft(high, lowWidth - 1);
      ToBitsConcat(low / 2, lowWidth - 1, high, highWidth);
    }
  }

  lemma {:induction false} FitsAbove(low: nat, lowWidth: nat, high: nat, highWidth: nat)
    requires low < Pow2(lowWidth) && high < Pow2(highWidth)
    ensures low + ShiftLeft(high, lowWidth) < Pow2(lowWidth + highWidth)
    decreases lowWidth
  {
    if lowWidth > 0 {
      FitsAbove(low / 2, lowWidth - 1, high, highWidth);
    }
  }

  lemma {:induction false} ShiftZero(n: nat)
    ensures ShiftLeft(0, n) == 0
  {
    if n > 0 {
      ShiftZero(n - 1);
    }
  }

  lemma ShiftByte(value: nat, n: nat)
    requires n >= 8
    ensures ShiftLeft(value, 8) == 256 * value
    ensures Pow2(8) == 256 && Pow2(n) == 256 * Pow2(n - 8)
  {
    assert ShiftLeft(value, 1) == 2 * value;
    assert ShiftLeft(value, 3) == 4 * ShiftLeft(value, 1);
    assert ShiftLeft(value, 5) == 4 * ShiftLeft(value, 3);
    assert ShiftLeft(value, 7) == 4 * ShiftLeft(value, 5);
    assert Pow2(n) == 2 * Pow2(n - 1) && Pow2(n - 1) == 2 * Pow2(n - 2) && Pow2(n - 2) == 2 * Pow2(n - 3);
    assert Pow2(n - 3) == 2 * Pow2(n - 4) && Pow2(n - 4) == 2 * Pow2(n - 5) && Pow2(n - 5) == 2 * Pow2(n - 6);
    assert Pow2(n - 6) == 2 * Pow2(n - 7) && Pow2(n - 7) == 2 * Pow2(n - 8);
  }
}
