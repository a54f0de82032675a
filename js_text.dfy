/** The JavaScript string operations the bypasser's front end relies on: `parseInt` and `split("_").pop()`. */
module JsText {
  import opened Common
  import opened Text

  /**
   * The characters `parseInt` skips before the number: the WhiteSpace and LineTerminator code
   * points of section 12.2 and 12.3 of ECMA-262 (tab, vertical tab, form feed, space, no-break
   * space, byte order mark, the Zs category, line feed, carriage return, line and paragraph separator).
   */
  predicate IsJsSpace(c: char)
  {
    c == '\t' || c == '\n' || c == '\U{0B}' || c == '\U{0C}' || c == '\r' || c == ' ' || c == '\U{A0}' ||
    c == '\U{1680}' || ('\U{2000}' <= c <= '\U{200A}') || c == '\U{2028}' || c == '\U{2029}' ||
    c == '\U{202F}' || c == '\U{205F}' || c == '\U{3000}' || c == '\U{FEFF}'
  }

  /** Drops the leading JavaScript whitespace. */
  function TrimStartJs(s: string): (r: string)
    ensures |r| <= |s| && r == s[|s| - |r|..]
    ensures forall i :: 0 <= i < |s| - |r| ==> IsJsSpace(s[i])
    ensures r == [] || !IsJsSpace(r[0])
  {
    if s != [] && IsJsSpace(s[0]) then TrimStartJs(s[1..]) else s
  }

  predicate IsHexDigit(c: char)
  {
    IsDigit(c) || 'a' <= c <= 'f' || 'A' <= c <= 'F'
  }

  function HexDigitValue(c: char): (d: nat)
    requires IsHexDigit(c)
    ensures d < 16
  {
    if IsDigit(c) then DigitValue(c)
    else if 'a' <= c <= 'f' then (c as int - 'a' as int + 10) as nat
    else (c as int - 'A' as int + 10) as nat
  }

  predicate AllHexDigits(s: string)
  {
    forall i :: 0 <= i < |s| ==> IsHexDigit(s[i])
  }

  function HexDigitsValue(s: string): nat
    requires AllHexDigits(s)
  {
    if s == [] then 0 else HexDigitsValue(s[..|s| - 1]) * 16 + HexDigitValue(s[|s| - 1])
  }

  /** The longest prefix of `s` made of decimal digits. */
  function DigitPrefix(s: string): (r: string)
    ensures |r| <= |s| && r == s[..|r|] && AllDigits(r)
    ensures |r| < |s| ==> !IsDigit(s[|r|])
  {
    if s != [] && IsDigit(s[0]) then
      var t := DigitPrefix(s[1..]);
      assert s[..|t| + 1] == [s[0]] + t;
      [s[0]] + t
    else []
  }

  /** The longest prefix of `s` made of hexadecimal digits. */
  function HexPrefix(s: string): (r: string)
    ensures |r| <= |s| && r == s[..|r|] && AllHexDigits(r)
    ensures |r| < |s| ==> !IsHexDigit(s[|r|])
  {
    if s != [] && IsHexDigit(s[0]) then
      var t := HexPrefix(s[1..]);
      assert s[..|t| + 1] == [s[0]] + t;
      [s[0]] + t
    else []
  }

  /**
   * `parseInt(s)` with no radix (section 19.2.5 of ECMA-262), `None` standing for `NaN`: leading
   * whitespace is skipped, one sign is read, a `0x`/`0X` prefix selects base 16, and the longest
   * run of digits that follows is read; no digit at all gives `NaN`.
   */
  function ParseInt(s: string): Option<int>
  {
    var t := TrimStartJs(s);
    var negative := t != [] && t[0] == '-';
    var u := if t != [] && (t[0] == '-' || t[0] == '+') then t[1..] else t;
    var sign := if negative then -1 else 1;
    if |u| >= 2 && u[0] == '0' && (u[1] == 'x' || u[1] == 'X') then
      var digits := HexPrefix(u[2..]);
      if digits == [] then None else Some(sign * HexDigitsValue(digits))
    else
      var digits := DigitPrefix(u);
      if digits == [] then None else Some(sign * DigitsValue(digits))
  }

  /** A non-empty string of decimal digits reads back as the number it denotes. */
  lemma ParseIntOfDigits(d: string)
    requires d != [] && AllDigits(d)
    ensures ParseInt(d) == Some(DigitsValue(d))
  {
    assert !IsJsSpace(d[0]);
    assert d[0] != '-' && d[0] != '+';
    assert |d| >= 2 ==> d[1] != 'x' && d[1] != 'X';
    DigitPrefixOfDigits(d);
  }

  lemma DigitPrefixOfDigits(d: string)
    requires AllDigits(d)
    ensures DigitPrefix(d) == d
  {
  }

  /** `parseInt` inverts `String(n)` for every natural number. */
  lemma ParseIntDecimal(n: nat)
    ensures ParseInt(Decimal(n)) == Some(n)
  {
    ParseIntOfDigits(Decimal(n));
  }

  /** `s.split("_").pop()`: the text after the last underscore, or all of `s` when there is none. */
  function LastUnderscorePart(s: string): (r: string)
    ensures '_' !in r
    ensures |r| <= |s| && r == s[|s| - |r|..]
    ensures |r| < |s| ==> s[|s| - |r| - 1] == '_'
  {
    s[LastIndexOf(s, '_') + 1..]
  }
}
