/**
 * Character classes and number conversions used by the JEDEC field parsers
 * (`std::atol`, `std::stoi(..., 16)`) and by the equation printer
 * (`std::to_string`).
 */
module Text {

  predicate IsDigit(c: char) { '0' <= c <= '9' }

  predicate IsHexDigit(c: char) { IsDigit(c) || 'a' <= c <= 'f' || 'A' <= c <= 'F' }

  predicate AllDigits(s: string) { forall i | 0 <= i < |s| :: IsDigit(s[i]) }

  predicate AllHexDigits(s: string) { forall i | 0 <= i < |s| :: IsHexDigit(s[i]) }

  function DigitValue(c: char): nat
    requires IsDigit(c)
  {
    c as nat - '0' as nat
  }

  function HexDigitValue(c: char): (v: nat)
    requires IsHexDigit(c)
    ensures v < 16
  {
    if IsDigit(c) then DigitValue(c)
    else if 'a' <= c <= 'f' then c as nat - 'a' as nat + 10
    else c as nat - 'A' as nat + 10
  }

  function DigitChar(d: nat): (c: char)
    requires d < 10
    ensures IsDigit(c) && DigitValue(c) == d
  {
    ('0' as nat + d) as char
  }

  /** The number an all-digit string denotes, most significant digit first. */
  function DecimalValue(s: string): nat
    requires AllDigits(s)
  {
    if s == [] then 0 else DecimalValue(s[..|s| - 1]) * 10 + DigitValue(s[|s| - 1])
  }

  /** The number an all-hex-digit string denotes, most significant digit first. */
  function HexValue(s: string): (v: nat)
    requires AllHexDigits(s)
    ensures v == 0 <==> forall i | 0 <= i < |s| :: s[i] == '0'
  {
    if s == [] then 0 else HexValue(s[..|s| - 1]) * 16 + HexDigitValue(s[|s| - 1])
  }

  /** Length of the run of decimal digits that starts `s`. */
  function DigitPrefixLength(s: string): (n: nat)
    ensures n <= |s|
    ensures AllDigits(s[..n])
    ensures n < |s| ==> !IsDigit(s[n])
  {
    if s == [] || !IsDigit(s[0]) then 0
    else
      var n := 1 + DigitPrefixLength(s[1..]);
      assert s[..n] == [s[0]] + s[1..][..n - 1];
      n
  }

  /**
   * `std::atol` as the parsers use it: the value of the leading digits, and 0
   * when the text does not start with a digit.
   */
  function LeadingDecimal(s: string): (v: nat)
    ensures s == [] || !IsDigit(s[0]) ==> v == 0
  {
    DecimalValue(s[..DigitPrefixLength(s)])
  }

  /** `std::to_string` of a non-negative number: its digits without leading zeros. */
  function DecimalText(n: nat): (s: string)
    ensures |s| >= 1 && AllDigits(s)
    ensures s[0] == '0' ==> n == 0
  {
    if n < 10 then [DigitChar(n)] else DecimalText(n / 10) + [DigitChar(n % 10)]
  }

  /** Reading back what `DecimalText` wrote gives the number again. */
  lemma {:induction false} DecimalTextRoundTrip(n: nat)
    ensures DecimalValue(DecimalText(n)) == n
  {
    if n >= 10 {
      var s := DecimalText(n);
      assert s[..|s| - 1] == DecimalText(n / 10);
      DecimalTextRoundTrip(n / 10);
    }
  }

  /** On an all-digit text `atol` reads every digit. */
  lemma {:induction false} LeadingDecimalOfDigits(s: string)
    requires AllDigits(s)
    ensures LeadingDecimal(s) == DecimalValue(s)
  {
    LeadingDigitsCover(s);
    assert s[..|s|] == s;
  }

  /** `atol` stops at the first character that is not a digit. */
  lemma {:induction false} LeadingDecimalStops(digits: string, rest: string)
    requires AllDigits(digits)
    requires rest == [] || !IsDigit(rest[0])
    ensures LeadingDecimal(digits + rest) == DecimalValue(digits)
  {
    var s := digits + rest;
    LeadingDigitsAtLeast(s, |digits|);
    assert s[..|digits|] == digits;
  }

  /** Printing a number and reading it back with `atol` is the identity. */
  lemma DecimalTextRead(n: nat)
    ensures LeadingDecimal(DecimalText(n)) == n
  {
    LeadingDecimalOfDigits(DecimalText(n));
    DecimalTextRoundTrip(n);
  }

  lemma {:induction false} LeadingDigitsCover(s: string)
    requires AllDigits(s)
    ensures DigitPrefixLength(s) == |s|
  {
    if s != [] {
      LeadingDigitsCover(s[1..]);
    }
  }

  lemma {:induction false} LeadingDigitsAtLeast(s: string, k: nat)
    requires k <= |s| && AllDigits(s[..k])
    requires k == |s| || !IsDigit(s[k])
    ensures DigitPrefixLength(s) == k
  {
    if k > 0 {
      assert s[1..][..k - 1] == s[..k][1..];
      LeadingDigitsAtLeast(s[1..], k - 1);
    }
  }
}
