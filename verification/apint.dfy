/** LLVM's APSInt as the constant value of an enumerator: a bit pattern of a
    fixed width together with the signedness of the enum's underlying type.
    Every query the checks make of it is answered here. */
module ApInt {
  import Bits

  /** Largest value of a uint64_t, the saturation bound of getLimitedValue. */
  const U64Max: nat := 0xFFFF_FFFF_FFFF_FFFF

  /** 2^64: uint64_t arithmetic is arithmetic modulo this number. */
  const TwoTo64: nat := 0x1_0000_0000_0000_0000

  datatype APSInt = APSInt(bitWidth: nat, bits: nat, isUnsigned: bool)
  {
    /** The bit pattern fits the width, and the width is at least one bit. */
    ghost predicate Valid()
    {
      bitWidth >= 1 && bits < Bits.Pow2(bitWidth)
    }

    /** Exactly one bit of the pattern is set, whatever the signedness. */
    predicate IsPowerOf2()
    {
      Bits.IsPowerOf2(bits)
    }

    predicate IsNullValue()
    {
      bits == 0
    }

    /** Signed and with its sign (top) bit set; an unsigned value is never negative. */
    predicate IsNegative()
    {
      !isUnsigned && bitWidth >= 1 && bits >= Bits.Pow2(bitWidth - 1)
    }

    predicate IsMask()
    {
      Bits.IsMask(bits)
    }

    predicate IsShiftedMask()
    {
      Bits.IsShiftedMask(bits)
    }

    function CountTrailingOnes(): (ones: nat)
    {
      Bits.TrailingOnes(bits)
    }

    function CountPopulation(): (ones: nat)
    {
      Bits.PopCount(bits)
    }

    /** The zero-extended pattern as a uint64_t, saturated at 2^64 - 1 when it
        does not fit. */
    function GetLimitedValue(): (r: nat)
      ensures r <= U64Max
    {
      if bits > U64Max then U64Max else bits
    }

    /** The mathematical integer the pattern denotes under its signedness. */
    function SignedValue(): (n: int)
    {
      if IsNegative() then bits - Bits.Pow2(bitWidth) else bits
    }
  }

  /** The values an enumerator can carry. */
  type EnumValue = v: APSInt | v.Valid() witness APSInt(1, 0, true)

  lemma {:induction false} Pow2Monotone(j: nat, k: nat)
    requires j <= k
    ensures Bits.Pow2(j) <= Bits.Pow2(k)
  {
    if j < k {
      Pow2Monotone(j, k - 1);
    }
  }

  lemma {:induction false} Pow2Add(a: nat, b: nat)
    ensures Bits.Pow2(a + b) == Bits.Pow2(a) * Bits.Pow2(b)
  {
    if a > 0 {
      Pow2Add(a - 1, b);
    }
  }

  lemma Pow2Of64()
    ensures Bits.Pow2(64) == TwoTo64
  {
    Pow2Of32();
    Pow2Add(32, 32);
  }

  /** For an enum whose underlying type has at most 64 bits, the limited value
      is exactly the zero-extended bit pattern: nothing saturates. */
  lemma LimitedValueOfNarrow(v: EnumValue)
    requires v.bitWidth <= 64
    ensures v.GetLimitedValue() == v.bits
  {
    Pow2Monotone(v.bitWidth, 64);
    Pow2Of64();
  }

  /** The integer a value denotes is its two's complement reading: the
      pattern itself when unsigned; when signed, whichever of the pattern and
      the pattern minus 2^w lies in [-2^(w-1), 2^(w-1)). A value is negative
      exactly when that integer is below zero. */
  lemma NegativeIffBelowZero(v: EnumValue)
    ensures v.isUnsigned ==> v.SignedValue() == v.bits
    ensures !v.isUnsigned ==>
      (v.SignedValue() == v.bits || v.SignedValue() == v.bits - Bits.Pow2(v.bitWidth)) &&
      -(Bits.Pow2(v.bitWidth - 1) as int) <= v.SignedValue() < Bits.Pow2(v.bitWidth - 1)
    ensures v.IsNegative() <==> v.SignedValue() < 0
  {
    var half := Bits.Pow2(v.bitWidth - 1);
    assert Bits.Pow2(v.bitWidth) == 2 * half;
    if !v.IsNegative() {
      assert v.SignedValue() == v.bits;
    }
  }

  lemma Pow2Of32()
    ensures Bits.Pow2(32) == 0x1_0000_0000 && Bits.Pow2(31) == 0x8000_0000
  {
    assert Bits.Pow2(8) == 0x100;
    Pow2Add(8, 8);
    Pow2Add(16, 15);
    Pow2Add(16, 16);
  }

  /** The value of an enumerator of an enum whose underlying type is a
      32-bit int: the two's complement pattern of n. */
  function Int32(n: int): (v: EnumValue)
    requires -0x8000_0000 <= n < 0x8000_0000
    ensures v.bitWidth == 32 && !v.isUnsigned
    ensures v.SignedValue() == n
    ensures v.IsNegative() <==> n < 0
    ensures n >= 0 ==> v.bits == n
  {
    Pow2Of32();
    APSInt(32, if n < 0 then n + 0x1_0000_0000 else n, false)
  }

  /** The value of an enumerator of an enum whose underlying type is
      uint64_t. */
  function UInt64(n: nat): (v: EnumValue)
    requires n <= U64Max
    ensures v.bitWidth == 64 && v.isUnsigned && !v.IsNegative()
    ensures v.GetLimitedValue() == n
  {
    Pow2Of64();
    APSInt(64, n, true)
  }
}
