/**
 * Character classes shared by the normaliser, the variable-name sanitiser, the options parser
 * and the file-name patterns, together with the decimal rendering of a number that a
 * template literal such as `${index + 1}` performs.
 *
 * Strings are sequences of Unicode scalar values. JavaScript regular expressions without the
 * `u` flag work on UTF-16 code units; every class used here is either ASCII or lies in the
 * Basic Multilingual Plane, so the two readings agree except that an astral character counts
 * as two code units in the source and as one character here.
 */
module Chars {

  /**
   * The characters matched by `\s` in a JavaScript regular expression, which are also the
   * characters `String.prototype.trim` removes: the ECMAScript WhiteSpace and LineTerminator
   * code points.
   */
  predicate IsWhitespace(c: char) {
    var n := c as int;
    n == 0x09 || n == 0x0A || n == 0x0B || n == 0x0C || n == 0x0D || n == 0x20
    || n == 0xA0 || n == 0x1680 || (0x2000 <= n <= 0x200A)
    || n == 0x2028 || n == 0x2029 || n == 0x202F || n == 0x205F
    || n == 0x3000 || n == 0xFEFF
  }

  predicate IsAsciiUpper(c: char) { 'A' <= c <= 'Z' }

  predicate IsAsciiLower(c: char) { 'a' <= c <= 'z' }

  /** `\d` in a JavaScript regular expression. */
  predicate IsAsciiDigit(c: char) { '0' <= c <= '9' }

  /** The class `[a-zA-Z0-9_]`. */
  predicate IsWordChar(c: char) {
    IsAsciiUpper(c) || IsAsciiLower(c) || IsAsciiDigit(c) || c == '_'
  }

  /** The class `[a-z0-9_]`: what a normalised identifier is made of. */
  predicate IsLowerWordChar(c: char) {
    IsAsciiLower(c) || IsAsciiDigit(c) || c == '_'
  }

  predicate AllWhitespace(s: string) {
    forall k :: 0 <= k < |s| ==> IsWhitespace(s[k])
  }

  predicate AllDigits(s: string) {
    forall k :: 0 <= k < |s| ==> IsAsciiDigit(s[k])
  }

  /** `toLowerCase` on one ASCII character; every other character is left alone. */
  function AsciiLower(c: char): (r: char)
    ensures IsAsciiUpper(c) ==> IsAsciiLower(r) && r as int == c as int + 32
    ensures !IsAsciiUpper(c) ==> r == c
    ensures r == '_' <==> c == '_'
  {
    if IsAsciiUpper(c) then (c as int + 32) as char else c
  }

  function DigitChar(d: nat): (c: char)
    requires d < 10
    ensures IsAsciiDigit(c)
  {
    ('0' as int + d) as char
  }

  /** The decimal text of `n`, as JavaScript writes a non-negative integer into a string. */
  function NatToString(n: nat): (r: string)
    ensures |r| > 0 && AllDigits(r)
    ensures r[0] == '0' ==> n == 0
    decreases n
  {
    if n < 10 then [DigitChar(n)] else NatToString(n / 10) + [DigitChar(n % 10)]
  }

  /** The number a string of decimal digits denotes; the partner of NatToString. */
  function DecimalValue(s: string): nat
    requires AllDigits(s)
  {
    if s == [] then 0 else 10 * DecimalValue(s[..|s| - 1]) + (s[|s| - 1] as int - '0' as int)
  }

  /** Reading back the decimal text gives the number again. */
  lemma {:induction false} DecimalRoundTrip(n: nat)
    ensures DecimalValue(NatToString(n)) == n
    decreases n
  {
    if n >= 10 {
      var s := NatToString(n);
      assert s[..|s| - 1] == NatToString(n / 10);
      DecimalRoundTrip(n / 10);
    }
  }

  /** Different numbers are written differently. */
  lemma NatToStringInjective(m: nat, n: nat)
    requires NatToString(m) == NatToString(n)
    ensures m == n
  {
    DecimalRoundTrip(m);
    DecimalRoundTrip(n);
  }

  /** Concatenation is associative; stated for the proofs that need it spelled out. */
  lemma AppendAssoc(a: string, b: string, c: string)
    ensures a + b + c == a + (b + c)
  {
  }
}
