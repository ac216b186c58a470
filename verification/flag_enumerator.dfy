/** The unexpected-flag-enumerator-value check. It decides whether an enum
    looks like a set of bit flags and, if it does, warns about each enumerator
    whose value is not a single bit and has no excuse for it. The enum is
    given as plain data: what the check reads from clang's tree is recorded
    in each enumerator. */
module FlagEnumerator {
  import opened Wrappers
  import opened Diagnostics
  import opened ApInt
  import Bits
  import Text

  /** What the check learns from the ConstantExpr of an initialiser: whether
      a BinaryOperator occurs among its descendants, and whether its direct
      sub-expression is a DeclRefExpr (a reference to another enumerator). */
  datatype ConstantExprShape = ConstantExprShape(containsBinaryOperator: bool, subExprIsDeclRef: bool)

  /** An explicit initialiser: where it begins, and the ConstantExpr that is
      either the initialiser itself or its first ConstantExpr descendant. */
  datatype InitExpr = InitExpr(beginLoc: nat, constantExpr: Option<ConstantExprShape>)

  datatype Enumerator = Enumerator(name: string, beginLoc: nat, initVal: EnumValue, initExpr: Option<InitExpr>)

  /** A declaration the check visits; only enum declarations matter. */
  datatype Decl =
    | EnumDecl(hasNameForLinkage: bool, enumerators: seq<Enumerator>)
    | OtherDecl

  const MinOnesToQualifyAsMask: nat := 3

  const WarningPrefix: string := "Unexpected non power-of-2 enumerator value: "

  // ---------------------------------------------------------------------
  // Excuses for a value that is not a power of two

  /** The excuses, one per test of the source, in the order they are tried. */
  datatype Excuse = MaskValue | ShiftedMaskValue | MaskInName | BinaryOperatorInit | EnumeratorReferenceInit

  /** Position of an excuse in the order of the tests. */
  function Rank(x: Excuse): (r: nat)
  {
    match x
    case MaskValue => 0
    case ShiftedMaskValue => 1
    case MaskInName => 2
    case BinaryOperatorInit => 3
    case EnumeratorReferenceInit => 4
  }

  /** The ConstantExpr of the initialiser, if there is an initialiser and it
      holds one. */
  function ConstantExprOf(e: Enumerator): (c: Option<ConstantExprShape>)
  {
    if e.initExpr.None? then None else e.initExpr.value.constantExpr
  }

  /** Whether one excuse, taken on its own, holds of an enumerator. */
  predicate Applies(x: Excuse, e: Enumerator)
  {
    match x
    case MaskValue =>
      e.initVal.IsMask() && e.initVal.CountTrailingOnes() >= MinOnesToQualifyAsMask
    case ShiftedMaskValue =>
      e.initVal.IsShiftedMask() && e.initVal.CountPopulation() >= MinOnesToQualifyAsMask
    case MaskInName =>
      Text.ContainsLower(e.name, "mask")
    case BinaryOperatorInit =>
      ConstantExprOf(e).Some? && ConstantExprOf(e).value.containsBinaryOperator
    case EnumeratorReferenceInit =>
      ConstantExprOf(e).Some? && ConstantExprOf(e).value.subExprIsDeclRef
  }

  /** The tests of the source, tried top-down; the first that holds is the
      excuse. The contract states first-match semantics over the ranked
      excuses. */
  function FirstExcuse(e: Enumerator): (r: Option<Excuse>)
    ensures r.Some? ==> Applies(r.value, e)
    ensures r.Some? ==> forall x :: Rank(x) < Rank(r.value) ==> !Applies(x, e)
    ensures r.None? ==> forall x :: !Applies(x, e)
  {
    var val := e.initVal;
    if val.IsMask() && val.CountTrailingOnes() >= MinOnesToQualifyAsMask then Some(MaskValue)
    else if val.IsShiftedMask() && val.CountPopulation() >= MinOnesToQualifyAsMask then Some(ShiftedMaskValue)
    else if Text.ContainsLower(e.name, "mask") then Some(MaskInName)
    else
      match ConstantExprOf(e)
      case None => None
      case Some(cexpr) =>
        if cexpr.containsBinaryOperator then Some(BinaryOperatorInit)
        else if cexpr.subExprIsDeclRef then Some(EnumeratorReferenceInit)
        else None
  }

  predicate IsIntentionallyNotPowerOf2(e: Enumerator)
  {
    FirstExcuse(e).Some?
  }

  /** The value needs no excuse: a single bit, zero, or negative. */
  predicate IsCompliant(v: EnumValue)
  {
    v.IsPowerOf2() || v.IsNullValue() || v.IsNegative()
  }

  /** An enumerator of a flag-like enum that draws a warning. */
  predicate IsFlagged(e: Enumerator)
  {
    !IsCompliant(e.initVal) && !IsIntentionallyNotPowerOf2(e)
  }

  /** An enumerator is excused exactly when at least one excuse holds; the
      order of the tests decides only which excuse is reported first. */
  lemma ExcusedIffSomeExcuseApplies(e: Enumerator)
    ensures IsIntentionallyNotPowerOf2(e) <==> exists x :: Applies(x, e)
  {
    if IsIntentionallyNotPowerOf2(e) {
      assert Applies(FirstExcuse(e).value, e);
    }
  }

  /** The first test is subsumed by the second: a mask with at least three
      trailing ones is a shifted mask with at least three ones. Dropping the
      first test would excuse the same enumerators. */
  lemma MaskExcuseImpliesShiftedMaskExcuse(e: Enumerator)
    ensures Applies(MaskValue, e) ==> Applies(ShiftedMaskValue, e)
  {
    if Applies(MaskValue, e) {
      Bits.MaskIsShiftedMask(e.initVal.bits);
    }
  }

  // ---------------------------------------------------------------------
  // The gates of isFlagEnum

  ghost predicate AllHaveInitExprs(es: seq<Enumerator>)
  {
    forall i :: 0 <= i < |es| ==> es[i].initExpr.Some?
  }

  function Min(a: nat, b: nat): (m: nat)
  {
    if a < b then a else b
  }

  /** The first min(4, n) limited values run v, v+1, v+2, ... counting in
      uint64_t, so that 2^64 - 1 is followed by 0. */
  ghost predicate StartsConsecutive(es: seq<Enumerator>)
    requires |es| > 0
  {
    forall i :: 1 <= i < Min(4, |es|) ==>
      es[i].initVal.GetLimitedValue() == (es[0].initVal.GetLimitedValue() + i) % TwoTo64
  }

  /** The number of enumerators whose value is not a single bit. */
  ghost function NonPowerOf2Count(es: seq<Enumerator>): (count: nat)
  {
    |set i | 0 <= i < |es| && !es[i].initVal.IsPowerOf2()|
  }

  /** The enum looks like a set of bit flags. */
  ghost predicate IsFlagLike(es: seq<Enumerator>)
  {
    |es| >= 4 && AllHaveInitExprs(es) && !StartsConsecutive(es) &&
    NonPowerOf2Count(es) <= |es| / 2
  }

  // ---------------------------------------------------------------------
  // The warnings

  /** The warning for one enumerator: anchored at its initialiser if it has
      one, else at the enumerator, and naming its limited value in decimal. */
  function WarningFor(e: Enumerator): (w: Warning)
  {
    Warning(if e.initExpr.Some? then e.initExpr.value.beginLoc else e.beginLoc,
            WarningPrefix + Text.Decimal(e.initVal.GetLimitedValue()))
  }

  /** The warnings of a flag-like enum, in declaration order. */
  ghost function EnumWarnings(es: seq<Enumerator>): (ws: seq<Warning>)
  {
    if es == [] then []
    else
      var last := es[|es| - 1];
      EnumWarnings(es[..|es| - 1]) + if IsFlagged(last) then [WarningFor(last)] else []
  }

  /** The warnings the check emits for one declaration. */
  ghost function DeclWarnings(d: Decl): (r: seq<Warning>)
    ensures !d.EnumDecl? || !d.hasNameForLinkage ==> r == []
    ensures d.EnumDecl? && |d.enumerators| < 4 ==> r == []
    ensures d.EnumDecl? && (exists i :: 0 <= i < |d.enumerators| && d.enumerators[i].initExpr.None?) ==> r == []
    ensures d.EnumDecl? && 4 <= |d.enumerators| && StartsConsecutive(d.enumerators) ==> r == []
  {
    if d.EnumDecl? && d.hasNameForLinkage && IsFlagLike(d.enumerators)
    then EnumWarnings(d.enumerators)
    else []
  }

  /** The indices below n of the enumerators that draw a warning, in
      increasing order. */
  ghost function FlaggedIndices(es: seq<Enumerator>, n: nat): (idx: seq<nat>)
    requires n <= |es|
    ensures forall k :: 0 <= k < |idx| ==> idx[k] < n && IsFlagged(es[idx[k]])
    ensures forall k, l :: 0 <= k < l < |idx| ==> idx[k] < idx[l]
    ensures forall i :: 0 <= i < n && IsFlagged(es[i]) ==> i in idx
  {
    if n == 0 then []
    else FlaggedIndices(es, n - 1) + if IsFlagged(es[n - 1]) then [n - 1] else []
  }

  /** Extending the enumerators by one adds that enumerator's warning, if
      it has one, at the end. */
  lemma EnumWarningsStep(es: seq<Enumerator>, i: nat)
    requires i < |es|
    ensures EnumWarnings(es[..i + 1]) ==
      EnumWarnings(es[..i]) + if IsFlagged(es[i]) then [WarningFor(es[i])] else []
  {
    assert es[..i + 1][..i] == es[..i];
  }

  /** One warning per enumerator that is neither compliant nor excused, in
      declaration order: among the first n enumerators, the k-th warning
      belongs to the k-th such enumerator. */
  lemma {:induction false} WarningsFollowDeclarationOrder(es: seq<Enumerator>, n: nat)
    requires n <= |es|
    ensures |EnumWarnings(es[..n])| == |FlaggedIndices(es, n)|
    ensures forall k :: 0 <= k < |EnumWarnings(es[..n])| ==>
      EnumWarnings(es[..n])[k] == WarningFor(es[FlaggedIndices(es, n)[k]])
  {
    if n > 0 {
      WarningsFollowDeclarationOrder(es, n - 1);
      EnumWarningsStep(es, n - 1);
    }
  }

  /** The whole enum: the warnings follow the flagged enumerators. */
  lemma AllWarningsFollowDeclarationOrder(es: seq<Enumerator>)
    ensures |EnumWarnings(es)| == |FlaggedIndices(es, |es|)|
    ensures forall k :: 0 <= k < |EnumWarnings(es)| ==>
      EnumWarnings(es)[k] == WarningFor(es[FlaggedIndices(es, |es|)[k]])
  {
    WarningsFollowDeclarationOrder(es, |es|);
    assert es[..|es|] == es;
  }

  /** An enum whose every value is a power of two, zero or negative, or is
      excused, draws no warning at all. */
  lemma CompliantOrExcusedIsSilent(d: Decl)
    requires d.EnumDecl?
    requires forall i :: 0 <= i < |d.enumerators| ==>
      IsCompliant(d.enumerators[i].initVal) || IsIntentionallyNotPowerOf2(d.enumerators[i])
    ensures DeclWarnings(d) == []
  {
    NothingFlaggedIsSilent(d.enumerators);
  }

  lemma {:induction false} NothingFlaggedIsSilent(es: seq<Enumerator>)
    requires forall i :: 0 <= i < |es| ==> !IsFlagged(es[i])
    ensures EnumWarnings(es) == []
  {
    if es != [] {
      var front := es[..|es| - 1];
      assert forall i :: 0 <= i < |front| ==> front[i] == es[i];
      NothingFlaggedIsSilent(front);
    }
  }

  /** Every warning of an analysed enum is anchored at an initialiser, since
      the gates admit only enums whose enumerators all have one. */
  lemma DeclWarningsAnchoredAtInitialisers(d: Decl)
    requires d.EnumDecl?
    ensures |DeclWarnings(d)| <= |FlaggedIndices(d.enumerators, |d.enumerators|)|
    ensures forall k :: 0 <= k < |DeclWarnings(d)| ==>
      var e := d.enumerators[FlaggedIndices(d.enumerators, |d.enumerators|)[k]];
      e.initExpr.Some? && DeclWarnings(d)[k].loc == e.initExpr.value.beginLoc
  {
    AllWarningsFollowDeclarationOrder(d.enumerators);
  }

  /** The message is the fixed prefix followed by the canonical decimal
      numeral of the limited value, which reads back as that value. */
  lemma WarningMessageDecodes(e: Enumerator)
    ensures var m := WarningFor(e).message;
      |m| > |WarningPrefix| && m[..|WarningPrefix|] == WarningPrefix &&
      Text.AllDigits(m[|WarningPrefix|..]) &&
      (|m| > |WarningPrefix| + 1 ==> m[|WarningPrefix|] != '0') &&
      Text.DecimalValue(m[|WarningPrefix|..]) == e.initVal.GetLimitedValue()
  {
    var digits := Text.Decimal(e.initVal.GetLimitedValue());
    Text.DecimalRoundTrip(e.initVal.GetLimitedValue());
    assert (WarningPrefix + digits)[|WarningPrefix|..] == digits;
  }

  // ---------------------------------------------------------------------
  // The check's procedures

  /** Copies the enumerators of an enum declaration, in order. */
  method GetEnumerators(d: Decl) returns (ret: seq<Enumerator>)
    requires d.EnumDecl?
    ensures ret == d.enumerators
  {
    ret := [];
    for i := 0 to |d.enumerators|
      invariant ret == d.enumerators[..i]
    {
      ret := ret + [d.enumerators[i]];
    }
  }

  /** Counts the enumerators with an initialiser and compares with the size. */
  method HasInitExprs(es: seq<Enumerator>) returns (r: bool)
    ensures r <==> AllHaveInitExprs(es)
  {
    var enumeratorsWithInitExpr := 0;
    for i := 0 to |es|
      invariant enumeratorsWithInitExpr <= i
      invariant enumeratorsWithInitExpr == i <==> forall j :: 0 <= j < i ==> es[j].initExpr.Some?
    {
      if es[i].initExpr.Some? {
        enumeratorsWithInitExpr := enumeratorsWithInitExpr + 1;
      }
    }
    r := enumeratorsWithInitExpr == |es|;
  }

  /** Walks the first min(4, n) enumerators with a uint64_t counter that is
      incremented, wrapping, at each step. */
  method HasConsecutiveValues(es: seq<Enumerator>) returns (r: bool)
    requires |es| > 0
    ensures r <==> StartsConsecutive(es)
  {
    var first := es[0].initVal.GetLimitedValue();
    var val := first;
    var until := Min(4, |es|);
    var i := 1;
    while i < until
      invariant 1 <= i <= until
      invariant val == (first + i - 1) % TwoTo64
      invariant forall j :: 1 <= j < i ==>
        es[j].initVal.GetLimitedValue() == (first + j) % TwoTo64
    {
      val := if val == U64Max then 0 else val + 1;
      if es[i].initVal.GetLimitedValue() != val {
        return false;
      }
      i := i + 1;
    }
    return true;
  }

  /** Applies the size, initialiser and consecutive-run gates, then records
      for each enumerator whether it is a power of two and counts the ones
      that are not. */
  method IsFlagEnum(es: seq<Enumerator>) returns (r: bool)
    ensures r <==> IsFlagLike(es)
  {
    if |es| < 4 {
      return false;
    }
    var withInit := HasInitExprs(es);
    if !withInit {
      return false;
    }
    var consecutive := HasConsecutiveValues(es);
    if consecutive {
      return false;
    }
    var enumValues: seq<bool> := [];
    for i := 0 to |es|
      invariant |enumValues| == i
      invariant forall j :: 0 <= j < i ==> enumValues[j] == es[j].initVal.IsPowerOf2()
    {
      enumValues := enumValues + [es[i].initVal.IsPowerOf2()];
    }
    var count := 0;
    for k := 0 to |enumValues|
      invariant count == |set j | 0 <= j < k && !enumValues[j]|
    {
      CountStep(enumValues, k);
      if !enumValues[k] {
        count := count + 1;
      }
    }
    assert (set j | 0 <= j < |enumValues| && !enumValues[j]) ==
           (set i | 0 <= i < |es| && !es[i].initVal.IsPowerOf2());
    return count <= |es| / 2;
  }

  lemma CountStep(bs: seq<bool>, k: nat)
    requires k < |bs|
    ensures |set j | 0 <= j < k + 1 && !bs[j]| ==
            |set j | 0 <= j < k && !bs[j]| + (if bs[k] then 0 else 1)
  {
    var before := set j | 0 <= j < k && !bs[j];
    if bs[k] {
      assert (set j | 0 <= j < k + 1 && !bs[j]) == before;
    } else {
      assert (set j | 0 <= j < k + 1 && !bs[j]) == before + {k};
    }
  }

  /** Visits one declaration and returns, in order, the warnings the check
      emits for it. */
  method VisitDecl(d: Decl) returns (warnings: seq<Warning>)
    ensures warnings == DeclWarnings(d)
  {
    warnings := [];
    if !d.EnumDecl? || !d.hasNameForLinkage {
      return;
    }
    var enumerators := GetEnumerators(d);
    var flagLike := IsFlagEnum(enumerators);
    if !flagLike {
      return;
    }
    for i := 0 to |enumerators|
      invariant warnings == EnumWarnings(enumerators[..i])
    {
      var enumerator := enumerators[i];
      var initVal := enumerator.initVal;
      EnumWarningsStep(enumerators, i);
      if !initVal.IsPowerOf2() && !initVal.IsNullValue() && !initVal.IsNegative() {
        if !IsIntentionallyNotPowerOf2(enumerator) {
          var value := initVal.GetLimitedValue();
          var loc := if enumerator.initExpr.Some? then enumerator.initExpr.value.beginLoc else enumerator.beginLoc;
          warnings := warnings + [Warning(loc, WarningPrefix + Text.Decimal(value))];
        }
      }
    }
    assert enumerators[..|enumerators|] == enumerators;
  }
}
