/** Bit-level predicates on a non-negative integer read as a bit pattern:
    bit i of x is (x / 2^i) % 2. These are the queries LLVM's APInt answers
    about an enumerator's value (power of two, mask, shifted mask, population
    count, trailing ones), stated on unbounded naturals. */
module Bits {

  function Pow2(k: nat): (r: nat)
    ensures r >= 1
  {
    if k == 0 then 1 else 2 * Pow2(k - 1)
  }

  /** Number of one bits. */
  function PopCount(x: nat): (ones: nat)
  {
    if x == 0 then 0 else x % 2 + PopCount(x / 2)
  }

  /** Number of consecutive one bits starting at bit 0. */
  function TrailingOnes(x: nat): (ones: nat)
  {
    if x % 2 == 1 then 1 + TrailingOnes(x / 2) else 0
  }

  /** Exactly one bit is set (APInt::isPowerOf2); zero is not a power of two. */
  predicate IsPowerOf2(x: nat)
  {
    PopCount(x) == 1
  }

  /** A non-empty run of ones starting at bit 0, as 0b0111 (APInt::isMask). */
  predicate IsMask(x: nat)
  {
    x % 2 == 1 && (x == 1 || IsMask(x / 2))
  }

  /** A non-empty run of ones, possibly shifted left, as 0b0111000
      (APInt::isShiftedMask). */
  predicate IsShiftedMask(x: nat)
  {
    x > 0 && if x % 2 == 0 then IsShiftedMask(x / 2) else IsMask(x)
  }

  /** Position of the highest set bit; used as the exponent of a power of two. */
  function Log2(x: nat): (k: nat)
  {
    if x <= 1 then 0 else 1 + Log2(x / 2)
  }

  /** Number of zero bits below the lowest set bit (0 for x == 0). */
  function TrailingZeros(x: nat): (zeros: nat)
  {
    if x > 0 && x % 2 == 0 then 1 + TrailingZeros(x / 2) else 0
  }

  /** x with its trailing zero bits shifted out. */
  function Unshifted(x: nat): (u: nat)
  {
    if x > 0 && x % 2 == 0 then Unshifted(x / 2) else x
  }

  lemma {:induction false} PopCountZero(x: nat)
    ensures PopCount(x) == 0 <==> x == 0
  {
    if x != 0 {
      if x % 2 == 0 {
        PopCountZero(x / 2);
      }
    }
  }

  lemma {:induction false} PopCountOfPow2(k: nat)
    ensures PopCount(Pow2(k)) == 1
  {
    if k > 0 {
      PopCountOfPow2(k - 1);
      assert Pow2(k) % 2 == 0 && Pow2(k) / 2 == Pow2(k - 1);
    }
  }

  lemma {:induction false} PowerOf2IsPow2Log2(x: nat)
    requires IsPowerOf2(x)
    ensures x == Pow2(Log2(x))
  {
    PopCountZero(x);
    if x % 2 == 1 {
      PopCountZero(x / 2);
    } else {
      PowerOf2IsPow2Log2(x / 2);
    }
  }

  /** The bit-count definition of a power of two agrees with "x is 2^k". */
  lemma PowerOf2Iff(x: nat)
    ensures IsPowerOf2(x) <==> exists k: nat :: x == Pow2(k)
  {
    if IsPowerOf2(x) {
      PowerOf2IsPow2Log2(x);
    }
    if exists k: nat :: x == Pow2(k) {
      var k: nat :| x == Pow2(k);
      PopCountOfPow2(k);
    }
  }

  lemma {:induction false} MaskIsPow2MinusOne(x: nat)
    requires IsMask(x)
    ensures TrailingOnes(x) >= 1 && x == Pow2(TrailingOnes(x)) - 1
  {
    if x != 1 {
      MaskIsPow2MinusOne(x / 2);
    }
  }

  lemma {:induction false} Pow2MinusOneIsMask(k: nat)
    requires k >= 1
    ensures IsMask(Pow2(k) - 1)
  {
    if k > 1 {
      Pow2MinusOneIsMask(k - 1);
      assert (Pow2(k) - 1) / 2 == Pow2(k - 1) - 1;
    }
  }

  /** A mask is exactly a value of the form 2^k - 1 with k >= 1: k ones and
      nothing above them. */
  lemma MaskIff(x: nat)
    ensures IsMask(x) <==> exists k: nat :: k >= 1 && x == Pow2(k) - 1
  {
    if IsMask(x) {
      MaskIsPow2MinusOne(x);
    }
    if exists k: nat :: k >= 1 && x == Pow2(k) - 1 {
      var k: nat :| k >= 1 && x == Pow2(k) - 1;
      Pow2MinusOneIsMask(k);
    }
  }

  /** A mask is also a shifted mask (with no shift), and all of its ones are
      trailing ones. */
  lemma {:induction false} MaskIsShiftedMask(x: nat)
    requires IsMask(x)
    ensures IsShiftedMask(x)
    ensures PopCount(x) == TrailingOnes(x)
  {
    if x != 1 {
      MaskIsShiftedMask(x / 2);
    }
  }

  lemma MulTwoInside(a: nat, b: nat)
    ensures a * (2 * b) == 2 * (a * b)
  {
  }

  lemma MulPositive(a: nat, b: nat)
    requires a > 0 && b > 0
    ensures a * b > 0
  {
  }

  lemma {:induction false} UnshiftedSplits(x: nat)
    ensures x == Unshifted(x) * Pow2(TrailingZeros(x))
  {
    if x > 0 && x % 2 == 0 {
      UnshiftedSplits(x / 2);
      var u, p := Unshifted(x / 2), Pow2(TrailingZeros(x / 2));
      assert Unshifted(x) == u;
      assert Pow2(TrailingZeros(x)) == 2 * p;
      MulTwoInside(u, p);
    }
  }

  lemma {:induction false} ShiftedMaskUnshiftsToMask(x: nat)
    requires IsShiftedMask(x)
    ensures IsMask(Unshifted(x))
  {
    if x % 2 == 0 {
      ShiftedMaskUnshiftsToMask(x / 2);
    }
  }

  lemma {:induction false} ShiftingMaskGivesShiftedMask(m: nat, s: nat)
    requires IsMask(m)
    ensures IsShiftedMask(m * Pow2(s))
  {
    if s == 0 {
      MaskIsShiftedMask(m);
    } else {
      ShiftingMaskGivesShiftedMask(m, s - 1);
      var p := Pow2(s - 1);
      var y := m * p;
      assert Pow2(s) == 2 * p;
      MulTwoInside(m, p);
      assert y > 0 by {
        MaskIsPow2MinusOne(m);
        MulPositive(m, p);
      }
      assert (2 * y) / 2 == y && (2 * y) % 2 == 0;
    }
  }

  /** A shifted mask is exactly a mask moved left by some number of bits:
      one contiguous, non-empty run of ones. */
  lemma ShiftedMaskIff(x: nat)
    ensures IsShiftedMask(x) <==> exists m: nat, s: nat :: IsMask(m) && x == m * Pow2(s)
  {
    if IsShiftedMask(x) {
      UnshiftedSplits(x);
      ShiftedMaskUnshiftsToMask(x);
      var m, s := Unshifted(x), TrailingZeros(x);
      assert IsMask(m) && x == m * Pow2(s);
      assert exists m': nat, s': nat :: IsMask(m') && x == m' * Pow2(s');
    } else {
      forall m: nat, s: nat | IsMask(m)
        ensures x != m * Pow2(s)
      {
        ShiftingMaskGivesShiftedMask(m, s);
      }
    }
  }
}
