/**
 The few pieces of JUCE's `String` behaviour that the project saver relies on:
 whitespace trimming, `getIntValue`, decimal text of a non-negative `int`
 (`String (int)`) and `String::toHexString`. Strings are `seq<char>`.
 */
module JuceText {

  /** CharacterFunctions::isWhitespace for a plain character: space, or tab through carriage return. */
  predicate IsWhitespace(c: char) {
    c == ' ' || ('\t' <= c <= '\r')
  }

  predicate IsDigit(c: char) {
    '0' <= c <= '9'
  }

  predicate AllDigits(s: string) {
    forall k :: 0 <= k < |s| ==> IsDigit(s[k])
  }

  /** True when `s` neither starts nor ends with whitespace. */
  predicate IsTrimmed(s: string) {
    |s| == 0 || (!IsWhitespace(s[0]) && !IsWhitespace(s[|s| - 1]))
  }

  /** Number of whitespace characters `s` starts with. */
  function LeadingSpace(s: string): (n: nat)
    ensures n <= |s|
    ensures forall k :: 0 <= k < n ==> IsWhitespace(s[k])
    ensures n == |s| || !IsWhitespace(s[n])
  {
    if |s| > 0 && IsWhitespace(s[0]) then
      var n := 1 + LeadingSpace(s[1..]);
      assert forall k :: 1 <= k < n ==> s[k] == s[1..][k - 1];
      n
    else 0
  }

  /** Number of whitespace characters `s` ends with. */
  function TrailingSpace(s: string): (n: nat)
    ensures n <= |s|
    ensures forall k :: |s| - n <= k < |s| ==> IsWhitespace(s[k])
    ensures n == |s| || !IsWhitespace(s[|s| - n - 1])
  {
    if |s| > 0 && IsWhitespace(s[|s| - 1]) then
      var n := 1 + TrailingSpace(s[..|s| - 1]);
      assert forall k :: |s| - n <= k < |s| - 1 ==> s[k] == s[..|s| - 1][k];
      n
    else 0
  }

  /** String::trimStart: the suffix left after dropping every leading whitespace character. */
  function TrimStart(s: string): (r: string)
    ensures |r| == 0 || !IsWhitespace(r[0])
  {
    s[LeadingSpace(s)..]
  }

  /** String::trimEnd: the prefix left after dropping every trailing whitespace character. */
  function TrimEnd(s: string): (r: string)
    ensures |r| == 0 || !IsWhitespace(r[|r| - 1])
  {
    s[..|s| - TrailingSpace(s)]
  }

  /** String::trim: whitespace removed from both ends. */
  function Trim(s: string): (r: string)
    ensures IsTrimmed(r)
    ensures |r| == 0 <==> forall k :: 0 <= k < |s| ==> IsWhitespace(s[k])
    ensures IsTrimmed(s) ==> r == s
  {
    var t := TrimStart(s);
    var r := TrimEnd(t);
    assert |r| > 0 ==> r[0] == t[0];
    assert |t| == 0 ==> forall k :: 0 <= k < |s| ==> IsWhitespace(s[k]);
    r
  }

  /** Length of the run of decimal digits at the start of `s`. */
  function DigitRun(s: string): (n: nat)
    ensures n <= |s|
    ensures AllDigits(s[..n])
    ensures n == |s| || !IsDigit(s[n])
  {
    if |s| > 0 && IsDigit(s[0]) then
      var n := 1 + DigitRun(s[1..]);
      assert s[..n] == [s[0]] + s[1..][..n - 1];
      n
    else 0
  }

  function DigitValue(c: char): nat
    requires IsDigit(c)
  {
    c as int - '0' as int
  }

  /** Value of a string of decimal digits, most significant digit first; "" reads as 0. */
  function DecimalValue(d: string): nat
    requires AllDigits(d)
  {
    if |d| == 0 then 0 else DecimalValue(d[..|d| - 1]) * 10 + DigitValue(d[|d| - 1])
  }

  /**
   String::getIntValue: leading whitespace is skipped, one optional '-' is taken,
   then decimal digits are read up to the first character that is not one.
   Text that does not start with a number (including "") reads as 0.
   */
  function IntValue(s: string): int
  {
    var t := TrimStart(s);
    if |t| > 0 && t[0] == '-' then
      var u := t[1..];
      -(DecimalValue(u[..DigitRun(u)]) as int)
    else
      DecimalValue(t[..DigitRun(t)])
  }

  function DigitChar(v: nat): (c: char)
    requires v < 10
  {
    ('0' as int + v) as char
  }

  /** String (int) for a non-negative value: decimal digits without leading zeros. */
  function NatToString(n: nat): (s: string)
    ensures |s| > 0 && AllDigits(s)
    ensures s[0] == '0' ==> n == 0
  {
    if n < 10 then [DigitChar(n)] else NatToString(n / 10) + [DigitChar(n % 10)]
  }

  /** Reading back the decimal text of `n` gives `n`. */
  lemma {:induction false} DecimalRoundTrip(n: nat)
    ensures DecimalValue(NatToString(n)) == n
  {
    var s := NatToString(n);
    if n >= 10 {
      assert s[..|s| - 1] == NatToString(n / 10);
      DecimalRoundTrip(n / 10);
    }
  }

  /** Decimal text is injective, so numbered file names never collide among themselves. */
  lemma {:induction false} NatToStringInjective(a: nat, b: nat)
    requires NatToString(a) == NatToString(b)
    ensures a == b
  {
    DecimalRoundTrip(a);
    DecimalRoundTrip(b);
  }

  /** getIntValue reads the decimal text of `n` back as `n`, and "-" followed by it as `-n`. */
  lemma {:induction false} IntValueOfDecimal(n: nat)
    ensures IntValue(NatToString(n)) == n
    ensures IntValue("-" + NatToString(n)) == -(n as int)
  {
    var s := NatToString(n);
    assert TrimStart(s) == s;
    assert DigitRun(s) == |s|;
    assert s[..|s|] == s;
    DecimalRoundTrip(n);
    var m := "-" + s;
    assert TrimStart(m) == m;
    assert m[1..] == s;
  }

  /** getIntValue of text whose first non-blank character is neither a digit nor '-' is 0. */
  lemma {:induction false} IntValueNonNumeric(s: string)
    requires var t := TrimStart(s); |t| == 0 || (!IsDigit(t[0]) && t[0] != '-')
    ensures IntValue(s) == 0
  {
  }

  function HexChar(v: nat): (c: char)
    requires v < 16
  {
    if v < 10 then ('0' as int + v) as char else ('a' as int + (v - 10)) as char
  }

  predicate IsHexChar(c: char) {
    IsDigit(c) || ('a' <= c <= 'f')
  }

  function HexCharValue(c: char): (v: nat)
    requires IsHexChar(c)
    ensures v < 16
  {
    if IsDigit(c) then c as int - '0' as int else c as int - 'a' as int + 10
  }

  /** Value of lower-case hexadecimal text, most significant digit first. */
  function HexValue(h: string): nat
    requires forall k :: 0 <= k < |h| ==> IsHexChar(h[k])
  {
    if |h| == 0 then 0 else HexValue(h[..|h| - 1]) * 16 + HexCharValue(h[|h| - 1])
  }

  /** String::toHexString of an unsigned value: lower-case hex digits, no leading zeros, "0" for 0. */
  function ToHex(n: nat): (h: string)
    ensures |h| > 0 && forall k :: 0 <= k < |h| ==> IsHexChar(h[k])
    ensures h[0] == '0' ==> n == 0
  {
    if n < 16 then [HexChar(n)] else ToHex(n / 16) + [HexChar(n % 16)]
  }

  /** Reading back the hex text of `n` gives `n`. */
  lemma {:induction false} HexRoundTrip(n: nat)
    ensures HexValue(ToHex(n)) == n
  {
    var h := ToHex(n);
    if n >= 16 {
      assert h[..|h| - 1] == ToHex(n / 16);
      HexRoundTrip(n / 16);
    }
  }

  /** StringArray::operator[]: the element at `i`, or "" when `i` is out of range. */
  function At(a: seq<string>, i: int): string
  {
    if 0 <= i < |a| then a[i] else ""
  }
}
