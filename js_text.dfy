/**
 * The pieces of JavaScript string behaviour the video handlers rely on:
 * `String.prototype.trim`, the `length` of a string, and the decimal
 * rendering `Number.prototype.toString` gives a non-negative integer.
 */
module JsText {

  /** The characters `trim` removes: WhiteSpace (section 12.2 of ECMA-262) and
      LineTerminator (section 12.3 of ECMA-262), the Zs category written out. */
  predicate IsJsWhitespace(c: char) {
    var n := c as int;
    n == 0x09 || n == 0x0B || n == 0x0C || n == 0x20 || n == 0xA0 || n == 0xFEFF
    || n == 0x1680 || (0x2000 <= n <= 0x200A) || n == 0x202F || n == 0x205F || n == 0x3000
    || n == 0x0A || n == 0x0D || n == 0x2028 || n == 0x2029
  }

  /** Every character of `s` is whitespace (the empty string included). */
  predicate AllWhitespace(s: string) {
    forall i :: 0 <= i < |s| ==> IsJsWhitespace(s[i])
  }

  /** `s` without its leading whitespace: a suffix of `s` that does not start with whitespace. */
  function TrimStart(s: string): (r: string)
    ensures |r| <= |s| && r == s[|s| - |r|..]
    ensures forall i :: 0 <= i < |s| - |r| ==> IsJsWhitespace(s[i])
    ensures r != [] ==> !IsJsWhitespace(r[0])
  {
    if s != [] && IsJsWhitespace(s[0]) then TrimStart(s[1..]) else s
  }

  /** `s` without its trailing whitespace: a prefix of `s` that does not end with whitespace. */
  function TrimEnd(s: string): (r: string)
    ensures |r| <= |s| && r == s[..|r|]
    ensures forall i :: |r| <= i < |s| ==> IsJsWhitespace(s[i])
    ensures r != [] ==> !IsJsWhitespace(r[|r| - 1])
  {
    if s != [] && IsJsWhitespace(s[|s| - 1]) then TrimEnd(s[..|s| - 1]) else s
  }

  /** `String.prototype.trim` (section 22.1.3.32 of ECMA-262): whitespace removed at both ends.
      The result is empty exactly when the string is whitespace only. */
  function Trim(s: string): (r: string)
    ensures |r| <= |s|
    ensures r == [] <==> AllWhitespace(s)
    ensures r != [] ==> !IsJsWhitespace(r[0]) && !IsJsWhitespace(r[|r| - 1])
  {
    var t := TrimStart(s);
    assert t != [] ==> t[0] == s[|s| - |t|];
    TrimEnd(t)
  }

  /** How many UTF-16 code units encode `c`: two outside the Basic Multilingual Plane. */
  function CodeUnits(c: char): nat {
    if c as int <= 0xFFFF then 1 else 2
  }

  /** The `length` JavaScript reports for `s`: its number of UTF-16 code units. */
  function Utf16Length(s: string): (n: nat)
    ensures |s| <= n <= 2 * |s|
  {
    if s == [] then 0 else Utf16Length(s[..|s| - 1]) + CodeUnits(s[|s| - 1])
  }

  /** A string of Basic Multilingual Plane characters only. */
  predicate InBmp(s: string) {
    forall i :: 0 <= i < |s| ==> s[i] as int <= 0xFFFF
  }

  /** The JavaScript length equals the number of characters exactly when no
      character lies outside the Basic Multilingual Plane. */
  lemma {:induction false} Utf16LengthIsSizeIffBmp(s: string)
    ensures Utf16Length(s) == |s| <==> InBmp(s)
  {
    if s != [] {
      var p := s[..|s| - 1];
      Utf16LengthIsSizeIffBmp(p);
      assert InBmp(s) <==> InBmp(p) && s[|s| - 1] as int <= 0xFFFF by {
        if InBmp(p) && s[|s| - 1] as int <= 0xFFFF {
          forall i | 0 <= i < |s| ensures s[i] as int <= 0xFFFF {
            if i < |s| - 1 { assert s[i] == p[i]; }
          }
        }
      }
    }
  }

  predicate IsDigit(c: char) {
    '0' <= c <= '9'
  }

  function DigitChar(d: nat): (c: char)
    requires d < 10
    ensures IsDigit(c)
  {
    ('0' as int + d) as char
  }

  function DigitValue(c: char): (d: nat)
    requires IsDigit(c)
    ensures d < 10 && DigitChar(d) == c
  {
    c as int - '0' as int
  }

  predicate AllDigits(s: string) {
    forall i :: 0 <= i < |s| ==> IsDigit(s[i])
  }

  /** The strings `toString` can produce for a non-negative integer: one or more
      digits, with no leading zero unless the string is "0" itself. */
  predicate IsCanonicalDecimal(s: string) {
    s != [] && AllDigits(s) && (s[0] == '0' ==> |s| == 1)
  }

  /** The decimal rendering of `n` (what `n.toString()` gives for a safe integer). */
  function DecimalString(n: nat): (r: string)
    ensures IsCanonicalDecimal(r)
    ensures r[0] == '0' <==> n == 0
  {
    if n < 10 then [DigitChar(n)] else DecimalString(n / 10) + [DigitChar(n % 10)]
  }

  /** The value of a string of decimal digits, most significant first. */
  function ParseDecimal(s: string): nat
    requires AllDigits(s)
  {
    if s == [] then 0 else ParseDecimal(s[..|s| - 1]) * 10 + DigitValue(s[|s| - 1])
  }

  /** Reading back the rendering of `n` gives `n`. */
  lemma {:induction false} ParseDecimalString(n: nat)
    ensures ParseDecimal(DecimalString(n)) == n
  {
    var s := DecimalString(n);
    if n >= 10 {
      ParseDecimalString(n / 10);
      assert s[..|s| - 1] == DecimalString(n / 10);
    }
  }

  /** Digits that do not start with '0' denote a positive number. */
  lemma {:induction false} ParseDecimalPositive(s: string)
    requires s != [] && AllDigits(s) && s[0] != '0'
    ensures ParseDecimal(s) > 0
  {
    if |s| > 1 {
      ParseDecimalPositive(s[..|s| - 1]);
    }
  }

  /** Rendering the value of a canonical decimal string gives the string back. */
  lemma {:induction false} DecimalStringOfParse(s: string)
    requires IsCanonicalDecimal(s)
    ensures DecimalString(ParseDecimal(s)) == s
  {
    var p := s[..|s| - 1];
    var d := DigitValue(s[|s| - 1]);
    if p != [] {
      assert IsCanonicalDecimal(p) && p[0] != '0';
      DecimalStringOfParse(p);
      ParseDecimalPositive(p);
      var n := ParseDecimal(s);
      assert n == ParseDecimal(p) * 10 + d;
      assert n / 10 == ParseDecimal(p) && n % 10 == d;
      assert s == p + [s[|s| - 1]];
    }
  }

  /** A string is the rendering of `n` exactly when it is a canonical decimal
      string whose value is `n`; so "01" or "+1" or "1.0" never render 1. */
  lemma DecimalStringIff(n: nat, s: string)
    ensures DecimalString(n) == s <==> IsCanonicalDecimal(s) && ParseDecimal(s) == n
  {
    if DecimalString(n) == s {
      ParseDecimalString(n);
    }
    if IsCanonicalDecimal(s) && ParseDecimal(s) == n {
      DecimalStringOfParse(s);
    }
  }

  /** Distinct numbers have distinct renderings. */
  lemma DecimalStringInjective(a: nat, b: nat)
    ensures DecimalString(a) == DecimalString(b) ==> a == b
  {
    ParseDecimalString(a);
    ParseDecimalString(b);
  }
}
