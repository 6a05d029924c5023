/**
 * The handful of `java.lang.String` operations and the decimal parsers
 * (`Integer.parseInt`, `Long.parseLong`) that the ingestion code relies on.
 * Strings are sequences of Unicode characters.
 */
module Text {
  import opened Wrappers

  /** `s.startsWith(prefix)`. */
  predicate StartsWith(s: string, prefix: string) {
    |prefix| <= |s| && s[..|prefix|] == prefix
  }

  /** `s.contains(sub)`: `sub` occurs in `s` at some offset. */
  function Contains(s: string, sub: string): (r: bool)
    ensures r <==> exists i :: 0 <= i <= |s| && StartsWith(s[i..], sub)
    decreases |s|
  {
    if StartsWith(s, sub) then
      assert s[0..] == s;
      true
    else if |s| == 0 then
      false
    else
      var r := Contains(s[1..], sub);
      assert forall i :: 1 <= i <= |s| ==> s[i..] == s[1..][i - 1..];
      assert r ==> exists i :: 0 <= i <= |s| && StartsWith(s[i..], sub) by {
        if r {
          var j :| 0 <= j <= |s[1..]| && StartsWith(s[1..][j..], sub);
          assert s[j + 1..] == s[1..][j..];
        }
      }
      assert (exists i :: 0 <= i <= |s| && StartsWith(s[i..], sub)) ==> r by {
        if exists i :: 0 <= i <= |s| && StartsWith(s[i..], sub) {
          var i :| 0 <= i <= |s| && StartsWith(s[i..], sub);
          assert i != 0 by { assert s[0..] == s; }
          assert StartsWith(s[1..][i - 1..], sub);
        }
      }
      r
  }

  /**
   * `s.trim().isEmpty()`: `String.trim` strips every character at or below
   * U+0020 from both ends, so the trimmed string is empty exactly when all
   * characters are at or below U+0020.
   */
  predicate TrimsToEmpty(s: string) {
    forall i :: 0 <= i < |s| ==> s[i] <= ' '
  }

  /** `Character.isWhitespace`: the ASCII separators and the Unicode space, line and paragraph separators other than the no-break spaces. */
  predicate IsJavaWhitespace(c: char) {
    || c == ' ' || c == '\t' || c == '\n' || c == '\U{000B}' || c == '\U{000C}' || c == '\r'
    || ('\U{001C}' <= c <= '\U{001F}')
    || c == '\U{1680}' || ('\U{2000}' <= c <= '\U{2006}') || ('\U{2008}' <= c <= '\U{200A}')
    || c == '\U{2028}' || c == '\U{2029}' || c == '\U{205F}' || c == '\U{3000}'
  }

  /** `s.isBlank()` (Java 11): every character is whitespace; true of "". */
  predicate IsBlank(s: string) {
    forall i :: 0 <= i < |s| ==> IsJavaWhitespace(s[i])
  }

  /** A nullable string that is null or blank (`name == null || name.isBlank()`). */
  predicate IsNullOrBlank(s: Option<string>) {
    s.None? || IsBlank(s.value)
  }

  predicate IsDigit(c: char) {
    '0' <= c <= '9'
  }

  predicate AllDigits(s: string) {
    forall i :: 0 <= i < |s| ==> IsDigit(s[i])
  }

  /** The value of a run of decimal digits, most significant first. */
  function DigitsValue(s: string): nat
    requires AllDigits(s)
    decreases |s|
  {
    if |s| == 0 then 0 else DigitsValue(s[..|s| - 1]) * 10 + (s[|s| - 1] as int - '0' as int)
  }

  /** The syntax `Integer.parseInt` and `Long.parseLong` accept: an optional sign, then at least one digit. */
  predicate IsDecimal(s: string) {
    && |s| > 0
    && if s[0] == '-' || s[0] == '+' then |s| > 1 && AllDigits(s[1..]) else AllDigits(s)
  }

  /** Radix-10 parsing without a range check; `None` is the `NumberFormatException`. */
  function ParseDecimal(s: string): (r: Option<int>)
    ensures r.Some? <==> IsDecimal(s)
    ensures r.Some? && r.value < 0 ==> s[0] == '-'
  {
    if |s| == 0 then None
    else if s[0] == '-' || s[0] == '+' then
      if |s| > 1 && AllDigits(s[1..]) then
        var magnitude: int := DigitsValue(s[1..]);
        Some(if s[0] == '-' then -magnitude else magnitude)
      else None
    else if AllDigits(s) then Some(DigitsValue(s))
    else None
  }

  const IntMin: int := -0x8000_0000
  const IntMax: int := 0x7FFF_FFFF
  const LongMin: int := -0x8000_0000_0000_0000
  const LongMax: int := 0x7FFF_FFFF_FFFF_FFFF

  /** `Integer.parseInt(s)`: decimal syntax and a value that fits 32 bits, else a failure. */
  function ParseInt(s: string): (r: Option<int>)
    ensures r.Some? <==> IsDecimal(s) && IntMin <= ParseDecimal(s).value <= IntMax
    ensures r.Some? ==> r == ParseDecimal(s)
  {
    match ParseDecimal(s)
    case Some(v) => if IntMin <= v <= IntMax then Some(v) else None
    case None => None
  }

  /** `Long.parseLong(s)`: decimal syntax and a value that fits 64 bits, else a failure. */
  function ParseLong(s: string): (r: Option<int>)
    ensures r.Some? <==> IsDecimal(s) && LongMin <= ParseDecimal(s).value <= LongMax
    ensures r.Some? ==> r == ParseDecimal(s)
  {
    match ParseDecimal(s)
    case Some(v) => if LongMin <= v <= LongMax then Some(v) else None
    case None => None
  }

  function DigitChar(d: nat): char
    requires d < 10
  {
    ('0' as int + d) as char
  }

  /** The decimal digits of `n` without sign or leading zeros (`Integer.toString` of a non-negative value). */
  function NatString(n: nat): (r: string)
    ensures |r| > 0 && AllDigits(r) && DigitsValue(r) == n
    decreases n
  {
    if n < 10 then [DigitChar(n)]
    else
      var r := NatString(n / 10) + [DigitChar(n % 10)];
      assert r[..|r| - 1] == NatString(n / 10);
      r
  }

  /** `Integer.toString(n)` / `Long.toString(n)`. */
  function DecimalString(n: int): string {
    if n < 0 then "-" + NatString(-n) else NatString(n)
  }

  /** Printing a number and parsing it back gives the number again. */
  lemma ParseDecimalRoundTrip(n: int)
    ensures ParseDecimal(DecimalString(n)) == Some(n)
  {
    var digits := NatString(if n < 0 then -n else n);
    if n < 0 {
      assert DecimalString(n)[1..] == digits;
    } else {
      assert !IsDigit('-') && !IsDigit('+');
      assert DecimalString(n)[0] == digits[0];
    }
  }

  /** Every 32-bit value survives `Integer.parseInt(Integer.toString(n))`. */
  lemma ParseIntRoundTrip(n: int)
    requires IntMin <= n <= IntMax
    ensures ParseInt(DecimalString(n)) == Some(n)
  {
    ParseDecimalRoundTrip(n);
  }

  /** Every 64-bit value survives `Long.parseLong(Long.toString(n))`. */
  lemma ParseLongRoundTrip(n: int)
    requires LongMin <= n <= LongMax
    ensures ParseLong(DecimalString(n)) == Some(n)
  {
    ParseDecimalRoundTrip(n);
  }
}
