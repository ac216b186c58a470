/** Concrete enums run through the model of the flag-enumerator check. Each
    enumerator has a literal initialiser (a ConstantExpr around an integer
    literal: no binary operator, no reference) unless stated otherwise. */
module FlagEnumeratorExamples {
  import opened Wrappers
  import opened Diagnostics
  import opened ApInt
  import opened FlagEnumerator
  import Bits
  import Text

  const Literal: Option<ConstantExprShape> := Some(ConstantExprShape(false, false))

  /** An enumerator `name = n` of an enum with 32-bit signed values,
      declared at offset loc, its initialiser starting two characters later.
      Clang gives an unscoped enum without negative enumerators the type
      unsigned int; for a non-negative n the bit pattern is the same, and no
      query the check makes depends on the signedness then. */
  function Int32Enumerator(name: string, loc: nat, n: int): (e: Enumerator)
    requires -0x8000_0000 <= n < 0x8000_0000
    ensures e.initVal.SignedValue() == n && e.initExpr == Some(InitExpr(loc + 2, Literal))
    ensures n >= 0 ==> e.initVal.bits == n && e.initVal.GetLimitedValue() == n
  {
    LimitedValueOfNarrow(Int32(n));
    Enumerator(name, loc, Int32(n), Some(InitExpr(loc + 2, Literal)))
  }

  /** When every value but the one at j is a power of two, at most one
      value is not. */
  lemma AtMostOneNonPowerOf2(es: seq<Enumerator>, j: nat)
    requires j < |es|
    requires forall i :: 0 <= i < |es| && i != j ==> es[i].initVal.IsPowerOf2()
    ensures NonPowerOf2Count(es) <= 1
  {
    var s := set i | 0 <= i < |es| && !es[i].initVal.IsPowerOf2();
    if es[j].initVal.IsPowerOf2() {
      assert s == {};
    } else {
      assert s == {j};
    }
  }

  /** An enum of four or more initialised enumerators whose k-th value
      breaks the run, and where only the value at j may be other than a
      power of two, is flag-like. */
  lemma FlagLikeWhen(es: seq<Enumerator>, j: nat, k: nat)
    requires |es| >= 4 && AllHaveInitExprs(es)
    requires 1 <= k < 4
    requires es[0].initVal.GetLimitedValue() + k < TwoTo64
    requires es[k].initVal.GetLimitedValue() != es[0].initVal.GetLimitedValue() + k
    requires j < |es|
    requires forall i :: 0 <= i < |es| && i != j ==> es[i].initVal.IsPowerOf2()
    ensures IsFlagLike(es)
  {
    AtMostOneNonPowerOf2(es, j);
  }

  /** enum E { A = 0, B = 1, C = 2, D = 3 }: an ordinal run, never analysed. */
  lemma OrdinalEnumIsSilent()
    ensures var d := EnumDecl(true, [Int32Enumerator("A", 0, 0), Int32Enumerator("B", 10, 1),
                                     Int32Enumerator("C", 20, 2), Int32Enumerator("D", 30, 3)]);
      !IsFlagLike(d.enumerators) && DeclWarnings(d) == []
  {
    var es := [Int32Enumerator("A", 0, 0), Int32Enumerator("B", 10, 1),
               Int32Enumerator("C", 20, 2), Int32Enumerator("D", 30, 3)];
    assert StartsConsecutive(es);
  }

  /** enum E { A = 1, B = 2, C = 6, D = 16 } */
  function SixEnum(): (es: seq<Enumerator>)
  {
    [Int32Enumerator("A", 0, 1), Int32Enumerator("B", 10, 2),
     Int32Enumerator("C", 20, 6), Int32Enumerator("D", 30, 16)]
  }

  lemma SixEnumPowers()
    ensures forall i :: 0 <= i < |SixEnum()| && i != 2 ==> SixEnum()[i].initVal.IsPowerOf2()
  {
    var es := SixEnum();
    assert es[0].initVal.bits == 1 && es[1].initVal.bits == 2 && es[3].initVal.bits == 16;
    assert Bits.IsPowerOf2(1) && Bits.IsPowerOf2(2) && Bits.IsPowerOf2(16);
  }

  lemma SixEnumIsFlagLike()
    ensures IsFlagLike(SixEnum())
  {
    SixEnumPowers();
    FlagLikeWhen(SixEnum(), 2, 2);
  }

  lemma SixEnumFlagsOnlySix()
    ensures !IsFlagged(SixEnum()[0]) && !IsFlagged(SixEnum()[1])
    ensures IsFlagged(SixEnum()[2]) && !IsFlagged(SixEnum()[3])
  {
    var es := SixEnum();
    assert Bits.IsPowerOf2(16);
    assert FirstExcuse(es[2]) == None;
  }

  lemma SixEnumWarnings()
    ensures EnumWarnings(SixEnum()) == [WarningFor(SixEnum()[2])]
  {
    var es := SixEnum();
    SixEnumFlagsOnlySix();
    EnumWarningsStep(es, 0);
    EnumWarningsStep(es, 1);
    EnumWarningsStep(es, 2);
    EnumWarningsStep(es, 3);
    assert es[..0] == [] && es[..4] == es;
  }

  lemma SixWarning()
    ensures WarningFor(SixEnum()[2]) == Warning(22, "Unexpected non power-of-2 enumerator value: 6")
  {
    assert Text.Decimal(6) == "6";
    assert WarningPrefix + "6" == "Unexpected non power-of-2 enumerator value: 6";
  }

  /** The enum above is flag-like, and 6 (0b110, two ones) has no excuse,
      so there is exactly one warning, at C's initialiser. */
  lemma UnexpectedSixWarns()
    ensures IsFlagLike(SixEnum())
    ensures DeclWarnings(EnumDecl(true, SixEnum())) ==
      [Warning(22, "Unexpected non power-of-2 enumerator value: 6")]
  {
    SixEnumIsFlagLike();
    SixEnumWarnings();
    SixWarning();
  }

  /** The same enum without a name for linkage is not analysed at all. */
  lemma AnonymousEnumIsSilent()
    ensures DeclWarnings(EnumDecl(false, SixEnum())) == []
  {
  }

  /** enum E { A = 0, B = 1, C = 2, D = 4, E = 8 } */
  function FlagsEnum(): (es: seq<Enumerator>)
  {
    [Int32Enumerator("A", 0, 0), Int32Enumerator("B", 10, 1), Int32Enumerator("C", 20, 2),
     Int32Enumerator("D", 30, 4), Int32Enumerator("E", 40, 8)]
  }

  lemma FlagsEnumPowers()
    ensures forall i :: 0 < i < |FlagsEnum()| ==> FlagsEnum()[i].initVal.IsPowerOf2()
  {
    var es := FlagsEnum();
    assert es[1].initVal.bits == 1 && es[2].initVal.bits == 2;
    assert es[3].initVal.bits == 4 && es[4].initVal.bits == 8;
    assert Bits.IsPowerOf2(1) && Bits.IsPowerOf2(2) && Bits.IsPowerOf2(4) && Bits.IsPowerOf2(8);
  }

  lemma FlagsEnumIsFlagLike()
    ensures IsFlagLike(FlagsEnum())
  {
    FlagsEnumPowers();
    FlagLikeWhen(FlagsEnum(), 0, 3);
  }

  /** The enum above is flag-like (only 0 is not a power of two), and every
      value is compliant. */
  lemma AllFlagsAreSilent()
    ensures IsFlagLike(FlagsEnum()) && DeclWarnings(EnumDecl(true, FlagsEnum())) == []
  {
    FlagsEnumIsFlagLike();
    FlagsEnumPowers();
    assert FlagsEnum()[0].initVal.IsNullValue();
    CompliantOrExcusedIsSilent(EnumDecl(true, FlagsEnum()));
  }

  /** enum E { A = 1, B = 2, C = 7, D = 8 } */
  function SevenEnum(): (es: seq<Enumerator>)
  {
    [Int32Enumerator("A", 0, 1), Int32Enumerator("B", 10, 2),
     Int32Enumerator("C", 20, 7), Int32Enumerator("D", 30, 8)]
  }

  lemma SevenEnumPowers()
    ensures forall i :: 0 <= i < |SevenEnum()| && i != 2 ==> SevenEnum()[i].initVal.IsPowerOf2()
  {
    var es := SevenEnum();
    assert es[0].initVal.bits == 1 && es[1].initVal.bits == 2 && es[3].initVal.bits == 8;
    assert Bits.IsPowerOf2(1) && Bits.IsPowerOf2(2) && Bits.IsPowerOf2(8);
  }

  lemma SevenEnumIsFlagLike()
    ensures IsFlagLike(SevenEnum())
  {
    SevenEnumPowers();
    FlagLikeWhen(SevenEnum(), 2, 2);
  }

  lemma SevenIsMaskExcused()
    ensures FirstExcuse(SevenEnum()[2]) == Some(MaskValue)
  {
    assert SevenEnum()[2].initVal.bits == 7;
  }

  /** In the enum above 7 is 0b111, a mask with three trailing ones, so the
      first excuse silences it. */
  lemma MaskValueIsExcused()
    ensures IsFlagLike(SevenEnum()) && FirstExcuse(SevenEnum()[2]) == Some(MaskValue)
    ensures DeclWarnings(EnumDecl(true, SevenEnum())) == []
  {
    SevenEnumIsFlagLike();
    SevenEnumPowers();
    SevenIsMaskExcused();
    CompliantOrExcusedIsSilent(EnumDecl(true, SevenEnum()));
  }

  /** enum E { A = 1, B = 2, LowMask = 6, D = 16 }: 6 has too few ones to be
      a mask excuse, but the name contains "Mask". */
  lemma MaskNameIsExcused()
    ensures var e := Int32Enumerator("LowMask", 20, 6);
      FirstExcuse(e) == Some(MaskInName)
  {
    var e := Int32Enumerator("LowMask", 20, 6);
    assert Text.MatchesAt("LowMask", "mask", 3);
    Text.ContainsLowerIff("LowMask", "mask");
  }

  /** AB = A | B, of value 3: 0b11 has only two ones, but its initialiser
      holds a binary operator. */
  lemma CombinationIsExcused()
    ensures var e := Enumerator("AB", 20, Int32(3), Some(InitExpr(25, Some(ConstantExprShape(true, false)))));
      FirstExcuse(e) == Some(BinaryOperatorInit)
  {
  }

  /** enum E : uint64_t { A = UINT64_MAX, B = 0, C = 1, D = 2 }: the uint64_t
      counter wraps from 2^64 - 1 to 0, so this is an ordinal run. */
  lemma WrappingRunIsOrdinal()
    ensures var es := [Enumerator("A", 0, UInt64(U64Max), Some(InitExpr(2, Literal))),
                       Enumerator("B", 10, UInt64(0), Some(InitExpr(12, Literal))),
                       Enumerator("C", 20, UInt64(1), Some(InitExpr(22, Literal))),
                       Enumerator("D", 30, UInt64(2), Some(InitExpr(32, Literal)))];
      StartsConsecutive(es) && !IsFlagLike(es)
  {
  }

  /** enum E { A = -1, B = 0, C = 1, D = 2 }: the limited value of -1 is the
      zero-extended pattern 2^32 - 1, so the run from -1 is not recognised
      as consecutive. */
  lemma NegativeStartIsNotARun()
    ensures var es := [Int32Enumerator("A", 0, -1), Int32Enumerator("B", 10, 0),
                       Int32Enumerator("C", 20, 1), Int32Enumerator("D", 30, 2)];
      es[0].initVal.GetLimitedValue() == 0xFFFF_FFFF && !StartsConsecutive(es)
  {
    var es := [Int32Enumerator("A", 0, -1), Int32Enumerator("B", 10, 0),
               Int32Enumerator("C", 20, 1), Int32Enumerator("D", 30, 2)];
    LimitedValueOfNarrow(es[0].initVal);
    assert es[0].initVal.bits == 0xFFFF_FFFF;
    assert es[1].initVal.GetLimitedValue() != (es[0].initVal.GetLimitedValue() + 1) % TwoTo64;
  }
}
