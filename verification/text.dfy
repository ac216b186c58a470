/** The string operations the checks rely on: ASCII case-insensitive
    substring search (clazy::contains_lower) and the decimal rendering of an
    unsigned integer (std::to_string), with a reading-back function as its
    partner. */
module Text {

  /** ASCII lower-casing; every other character is left alone. */
  function ToLowerAscii(c: char): (l: char)
  {
    if 'A' <= c <= 'Z' then (c as int - 'A' as int + 'a' as int) as char else c
  }

  /** needle occurs in haystack at offset i, ignoring ASCII case. */
  predicate MatchesAt(haystack: string, needle: string, i: nat)
    requires i + |needle| <= |haystack|
  {
    forall j :: 0 <= j < |needle| ==> ToLowerAscii(haystack[i + j]) == ToLowerAscii(needle[j])
  }

  /** Case-insensitive containment, searched from the front. */
  predicate ContainsLower(haystack: string, needle: string)
    decreases |haystack|
  {
    |needle| <= |haystack| &&
    (MatchesAt(haystack, needle, 0) || ContainsLower(haystack[1..], needle))
  }

  /** The search finds the needle exactly when some offset matches. */
  lemma {:induction false} ContainsLowerIff(haystack: string, needle: string)
    ensures ContainsLower(haystack, needle) <==>
      exists i: nat :: i + |needle| <= |haystack| && MatchesAt(haystack, needle, i)
    decreases |haystack|
  {
    if |needle| <= |haystack| {
      if MatchesAt(haystack, needle, 0) {
        assert exists i: nat :: i + |needle| <= |haystack| && MatchesAt(haystack, needle, i);
        return;
      }
      var tail := haystack[1..];
      ContainsLowerIff(tail, needle);
      if ContainsLower(tail, needle) {
        var i: nat :| i + |needle| <= |tail| && MatchesAt(tail, needle, i);
        assert MatchesAt(haystack, needle, i + 1);
      } else if exists i: nat :: i + |needle| <= |haystack| && MatchesAt(haystack, needle, i) {
        var i: nat :| i + |needle| <= |haystack| && MatchesAt(haystack, needle, i);
        assert i > 0;
        assert MatchesAt(tail, needle, i - 1);
        assert false;
      }
    }
  }

  predicate IsDigit(c: char)
  {
    '0' <= c <= '9'
  }

  function DigitChar(d: nat): (c: char)
    requires d < 10
  {
    "0123456789"[d]
  }

  function DigitValue(c: char): (d: nat)
    requires IsDigit(c)
  {
    c as int - '0' as int
  }

  /** Decimal digits of n, most significant first, without leading zeros. */
  function Decimal(n: nat): (digits: string)
  {
    if n < 10 then [DigitChar(n)] else Decimal(n / 10) + [DigitChar(n % 10)]
  }

  predicate AllDigits(s: string)
  {
    forall i :: 0 <= i < |s| ==> IsDigit(s[i])
  }

  /** The number a string of decimal digits denotes. */
  function DecimalValue(s: string): (n: nat)
    requires AllDigits(s)
  {
    if s == [] then 0 else 10 * DecimalValue(s[..|s| - 1]) + DigitValue(s[|s| - 1])
  }

  /** Decimal(n) is a canonical decimal numeral (non-empty, digits only, no
      leading zero) and reads back as n. */
  lemma {:induction false} DecimalRoundTrip(n: nat)
    ensures |Decimal(n)| >= 1 && AllDigits(Decimal(n))
    ensures |Decimal(n)| > 1 ==> Decimal(n)[0] != '0'
    ensures DecimalValue(Decimal(n)) == n
  {
    if n >= 10 {
      DecimalRoundTrip(n / 10);
      var s := Decimal(n);
      assert s[..|s| - 1] == Decimal(n / 10);
      assert s[0] == Decimal(n / 10)[0];
    }
  }
}
