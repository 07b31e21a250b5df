/**
 Strings as the ledger uses them: the ASCII case folding behind
 `String.compareToIgnoreCase`, and the decimal rendering of an amount that
 appears in an error message.
 */
module Text {

  predicate IsAsciiUpper(c: char) { 'A' <= c <= 'Z' }

  predicate IsAsciiLower(c: char) { 'a' <= c <= 'z' }

  /** `Character.toUpperCase`, restricted to the ASCII letters. */
  function ToUpper(c: char): (u: char)
    ensures !IsAsciiLower(u)
    ensures IsAsciiLower(c) <==> IsAsciiUpper(u) && u != c
  {
    if IsAsciiLower(c) then (c as int - 32) as char else c
  }

  /** `Character.toLowerCase`, restricted to the ASCII letters. */
  function ToLower(c: char): (l: char)
    ensures !IsAsciiUpper(l)
    ensures IsAsciiUpper(c) <==> IsAsciiLower(l) && l != c
  {
    if IsAsciiUpper(c) then (c as int + 32) as char else c
  }

  /** The declarative meaning of "equal ignoring case": same length, same letters after folding. */
  predicate SameIgnoringCase(a: string, b: string)
  {
    |a| == |b| && forall i :: 0 <= i < |a| ==> ToLower(a[i]) == ToLower(b[i])
  }

  /** The JDK's per-character test: equal, or equal upper-cased, or equal lower-cased after upper-casing. */
  predicate CharsMatch(c1: char, c2: char)
  {
    c1 == c2 || ToUpper(c1) == ToUpper(c2) || ToLower(ToUpper(c1)) == ToLower(ToUpper(c2))
  }

  lemma CharsMatchIsFolding(c1: char, c2: char)
    ensures CharsMatch(c1, c2) <==> ToLower(c1) == ToLower(c2)
    ensures ToLower(ToUpper(c1)) == ToLower(c1)
  {
  }

  /**
   `String.compareToIgnoreCase`: walk the common prefix, and at the first pair
   of characters that does not match return the difference of their folded
   code points; when one string is a prefix of the other, the difference of
   the lengths.
   */
  function CompareToIgnoreCase(a: string, b: string): (r: int)
    ensures r == 0 <==> SameIgnoringCase(a, b)
    decreases |a|
  {
    if |a| == 0 || |b| == 0 then |a| - |b|
    else if !CharsMatch(a[0], b[0]) then
      CharsMatchIsFolding(a[0], b[0]);
      ToLower(ToUpper(a[0])) as int - ToLower(ToUpper(b[0])) as int
    else
      CharsMatchIsFolding(a[0], b[0]);
      SameIgnoringCaseCons(a, b);
      CompareToIgnoreCase(a[1..], b[1..])
  }

  lemma SameIgnoringCaseCons(a: string, b: string)
    requires |a| > 0 && |b| > 0
    ensures SameIgnoringCase(a, b) <==> ToLower(a[0]) == ToLower(b[0]) && SameIgnoringCase(a[1..], b[1..])
  {
  }

  /** The comparison is antisymmetric, so the order of the two ids never matters to the same-account test. */
  lemma {:induction false} CompareToIgnoreCaseAntisymmetric(a: string, b: string)
    ensures CompareToIgnoreCase(a, b) == -CompareToIgnoreCase(b, a)
    decreases |a|
  {
    if |a| > 0 && |b| > 0 && CharsMatch(a[0], b[0]) {
      assert CharsMatch(b[0], a[0]);
      CompareToIgnoreCaseAntisymmetric(a[1..], b[1..]);
    }
  }

  predicate IsDigit(c: char) { '0' <= c <= '9' }

  predicate AllDigits(s: string) { forall i :: 0 <= i < |s| ==> IsDigit(s[i]) }

  function DigitChar(d: nat): (c: char)
    requires d < 10
    ensures IsDigit(c) && c as int - '0' as int == d
  {
    ('0' as int + d) as char
  }

  /** The decimal digits of `n` with no leading zero, as `BigDecimal.toString` prints a scale-0 value. */
  function NatToDecimal(n: nat): (s: string)
    ensures |s| > 0 && AllDigits(s)
    ensures s[0] == '0' <==> n == 0
    decreases n
  {
    if n < 10 then [DigitChar(n)] else NatToDecimal(n / 10) + [DigitChar(n % 10)]
  }

  /** Reads a string of decimal digits back as a number. */
  function DecimalValue(s: string): nat
    requires AllDigits(s)
  {
    if |s| == 0 then 0
    else DecimalValue(s[..|s| - 1]) * 10 + (s[|s| - 1] as int - '0' as int)
  }

  lemma {:induction false} NatToDecimalRoundTrip(n: nat)
    ensures DecimalValue(NatToDecimal(n)) == n
    decreases n
  {
    if n >= 10 {
      var s := NatToDecimal(n);
      assert s[..|s| - 1] == NatToDecimal(n / 10);
      NatToDecimalRoundTrip(n / 10);
    }
  }

  /** A signed amount: a minus sign before the digits of its magnitude when it is negative. */
  function IntToDecimal(n: int): (s: string)
    ensures |s| > 0
    ensures s[0] == '-' <==> n < 0
    ensures AllDigits(if n < 0 then s[1..] else s)
  {
    if n < 0 then "-" + NatToDecimal(-n) else NatToDecimal(n)
  }

  /** Reads a rendered amount back: an optional minus sign, then digits. */
  function SignedValue(s: string): int
    requires |s| > 0
    requires AllDigits(if s[0] == '-' then s[1..] else s)
  {
    if s[0] == '-' then -(DecimalValue(s[1..]) as int) else DecimalValue(s)
  }

  /** Rendering an amount loses nothing: the message's number reads back as the amount. */
  lemma IntToDecimalRoundTrip(n: int)
    ensures SignedValue(IntToDecimal(n)) == n
  {
    if n < 0 {
      assert IntToDecimal(n)[1..] == NatToDecimal(-n);
      NatToDecimalRoundTrip(-n);
    } else {
      NatToDecimalRoundTrip(n);
    }
  }
}
