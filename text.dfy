/** String operations of Python's `str` that the nodes use, on `seq<char>` (code points). */
module Text {

  /** Python's `str.isspace()` on one code point. */
  predicate IsPySpace(c: char)
  {
    ('\t' <= c <= '\r') || ('\U{1C}' <= c <= ' ') || c == '\U{85}' || c == '\U{A0}' ||
    c == '\U{1680}' || ('\U{2000}' <= c <= '\U{200A}') || c == '\U{2028}' || c == '\U{2029}' ||
    c == '\U{202F}' || c == '\U{205F}' || c == '\U{3000}'
  }

  ghost predicate AllSpace(s: string)
  {
    forall i :: 0 <= i < |s| ==> IsPySpace(s[i])
  }

  /** Neither end of `s` is whitespace. */
  ghost predicate IsStripped(s: string)
  {
    s == [] || (!IsPySpace(s[0]) && !IsPySpace(s[|s| - 1]))
  }

  /** `str.lstrip()`: drops the longest whitespace prefix. */
  function LStrip(s: string): (r: string)
    ensures |r| <= |s| && r == s[|s| - |r|..]
    ensures forall i :: 0 <= i < |s| - |r| ==> IsPySpace(s[i])
    ensures r == [] || !IsPySpace(r[0])
  {
    if |s| > 0 && IsPySpace(s[0]) then LStrip(s[1..]) else s
  }

  /** `str.rstrip()`: drops the longest whitespace suffix. */
  function RStrip(s: string): (r: string)
    ensures |r| <= |s| && r == s[..|r|]
    ensures forall i :: |r| <= i < |s| ==> IsPySpace(s[i])
    ensures r == [] || !IsPySpace(r[|r| - 1])
  {
    if |s| > 0 && IsPySpace(s[|s| - 1]) then RStrip(s[..|s| - 1]) else s
  }

  /** `str.strip()`: `s` with the whitespace at both ends removed. */
  function Strip(s: string): (r: string)
  {
    RStrip(LStrip(s))
  }

  /** `Strip(s)` is the slice `s[i..j]` with only whitespace outside it and none at its ends. */
  lemma StripIsTrimmedSlice(s: string) returns (i: nat, j: nat)
    ensures i <= j <= |s| && Strip(s) == s[i..j]
    ensures AllSpace(s[..i]) && AllSpace(s[j..])
    ensures IsStripped(Strip(s))
  {
    var l := LStrip(s);
    var r := RStrip(l);
    i := |s| - |l|;
    j := i + |r|;
    LeadingSpaces(s);
    TrailingSpaces(s, i);
    if r != [] {
      assert r[0] == l[0];
    }
  }

  lemma LeadingSpaces(s: string)
    ensures AllSpace(s[..|s| - |LStrip(s)|])
  {
    var i := |s| - |LStrip(s)|;
    forall k | 0 <= k < i ensures IsPySpace(s[..i][k]) {
      assert s[..i][k] == s[k];
    }
  }

  lemma TrailingSpaces(s: string, i: nat)
    requires i <= |s|
    ensures var r := RStrip(s[i..]);
      && s[i..i + |r|] == r
      && AllSpace(s[i + |r|..])
  {
    var l := s[i..];
    var r := RStrip(l);
    assert s[i..i + |r|] == l[..|r|];
    var tail := s[i + |r|..];
    forall k | 0 <= k < |tail| ensures IsPySpace(tail[k]) {
      assert tail[k] == l[|r| + k];
    }
  }

  lemma StripOfStripped(s: string)
    requires IsStripped(s)
    ensures Strip(s) == s
  {
  }

  /** Stripping twice is stripping once. */
  lemma StripIdempotent(s: string)
    ensures Strip(Strip(s)) == Strip(s)
  {
    var _, _ := StripIsTrimmedSlice(s);
    StripOfStripped(Strip(s));
  }

  lemma {:induction false} LStripAllSpace(s: string)
    requires AllSpace(s)
    ensures LStrip(s) == []
  {
    if |s| > 0 {
      LStripAllSpace(s[1..]);
    }
  }

  lemma {:induction false} RStripDropsSpaces(a: string, b: string)
    requires AllSpace(b)
    ensures RStrip(a + b) == RStrip(a)
  {
    if |b| > 0 {
      assert (a + b)[..|a + b| - 1] == a + b[..|b| - 1];
      RStripDropsSpaces(a, b[..|b| - 1]);
    } else {
      assert a + b == a;
    }
  }

  lemma {:induction false} LStripDropsSpaces(a: string, b: string)
    requires AllSpace(a)
    ensures LStrip(a + b) == LStrip(b)
  {
    if |a| > 0 {
      assert (a + b)[1..] == a[1..] + b;
      LStripDropsSpaces(a[1..], b);
    } else {
      assert a + b == b;
    }
  }

  /**
   * The result of joining two stripped strings with one space, as `f"{a} {b}".strip()` gives it:
   * the single space only when both sides are non-empty.
   */
  function SpaceJoin(a: string, b: string): string
  {
    if a == [] then b else if b == [] then a else a + " " + b
  }

  lemma StripSpaceJoin(a: string, b: string)
    requires IsStripped(a) && IsStripped(b)
    ensures Strip(a + " " + b) == SpaceJoin(a, b)
    ensures IsStripped(SpaceJoin(a, b))
  {
    if a == [] {
      assert a + " " + b == " " + b;
      LStripDropsSpaces(" ", b);
      StripOfStripped(b);
    } else if b == [] {
      assert a + " " + b == a + " ";
      RStripDropsSpaces(a, " ");
      StripOfStripped(a);
    } else {
      var s := a + " " + b;
      assert s[0] == a[0] && s[|s| - 1] == b[|b| - 1];
      StripOfStripped(s);
    }
  }

  /** The pieces of `str.split(sep)` joined back with `sep`. */
  function Join(parts: seq<string>, sep: char): string
  {
    if |parts| == 0 then "" else if |parts| == 1 then parts[0] else parts[0] + [sep] + Join(parts[1..], sep)
  }

  /** Python's `s.split(sep)` for a one-character separator. */
  function Split(s: string, sep: char): (r: seq<string>)
    ensures |r| >= 1
    ensures forall k :: 0 <= k < |r| ==> sep !in r[k]
    ensures Join(r, sep) == s
  {
    if |s| == 0 then [""]
    else if s[0] == sep then [""] + Split(s[1..], sep)
    else
      var rest := Split(s[1..], sep);
      [[s[0]] + rest[0]] + rest[1..]
  }

  /** Splitting undoes joining, provided no piece contains the separator. */
  lemma {:induction false} SplitJoin(parts: seq<string>, sep: char)
    requires |parts| >= 1
    requires forall k :: 0 <= k < |parts| ==> sep !in parts[k]
    ensures Split(Join(parts, sep), sep) == parts
  {
    if |parts| == 1 {
      SplitNoSep(parts[0], sep);
    } else {
      SplitJoin(parts[1..], sep);
      SplitPrefix(parts[0], Join(parts[1..], sep), sep);
      assert [parts[0]] + parts[1..] == parts;
    }
  }

  lemma {:induction false} SplitNoSep(s: string, sep: char)
    requires sep !in s
    ensures Split(s, sep) == [s]
  {
    if |s| > 0 {
      SplitNoSep(s[1..], sep);
      assert [s[0]] + s[1..] == s;
    }
  }

  lemma {:induction false} SplitPrefix(p: string, t: string, sep: char)
    requires sep !in p
    ensures Split(p + [sep] + t, sep) == [p] + Split(t, sep)
  {
    if |p| == 0 {
      assert p + [sep] + t == [sep] + t;
      assert ([sep] + t)[1..] == t;
    } else {
      var s := p + [sep] + t;
      assert s[1..] == p[1..] + [sep] + t;
      SplitPrefix(p[1..], t, sep);
      assert [p[0]] + p[1..] == p;
    }
  }

  /** `t` occurs in `s` at position `i`. */
  ghost predicate OccursAt(s: string, t: string, i: int)
  {
    0 <= i && i + |t| <= |s| && s[i..i + |t|] == t
  }

  /** Python's `t in s` for strings (substring test). */
  predicate Contains(s: string, t: string)
  {
    t <= s || (|s| > 0 && Contains(s[1..], t))
  }

  lemma {:induction false} ContainsIsOccurrence(s: string, t: string)
    ensures Contains(s, t) <==> exists i :: OccursAt(s, t, i)
  {
    if t <= s {
      assert OccursAt(s, t, 0);
    } else if |s| > 0 {
      ContainsIsOccurrence(s[1..], t);
      if Contains(s[1..], t) {
        var i :| OccursAt(s[1..], t, i);
        assert s[i + 1..i + 1 + |t|] == s[1..][i..i + |t|];
        assert OccursAt(s, t, i + 1);
      }
      if i :| OccursAt(s, t, i) {
        assert i != 0;
        assert s[1..][i - 1..i - 1 + |t|] == s[i..i + |t|];
        assert OccursAt(s[1..], t, i - 1);
      }
    }
  }

  /** A decimal digit `'0'`..`'9'`. */
  predicate IsDigit(c: char)
  {
    '0' <= c <= '9'
  }

  predicate AllDigits(s: string)
  {
    forall i :: 0 <= i < |s| ==> IsDigit(s[i])
  }

  function DigitChar(d: nat): (c: char)
    requires d < 10
    ensures IsDigit(c)
  {
    ['0', '1', '2', '3', '4', '5', '6', '7', '8', '9'][d]
  }

  function DigitValue(c: char): (d: nat)
    requires IsDigit(c)
    ensures d < 10 && DigitChar(d) == c
  {
    (c as int - '0' as int) as nat
  }

  /** The number a string of decimal digits denotes (leading zeros allowed). */
  function DigitsValue(s: string): nat
    requires AllDigits(s)
  {
    if s == [] then 0 else DigitsValue(s[..|s| - 1]) * 10 + DigitValue(s[|s| - 1])
  }

  /** The shortest decimal representation of `n`, as `str(n)` gives it. */
  function Decimal(n: nat): (r: string)
    ensures |r| >= 1 && AllDigits(r)
    ensures DigitsValue(r) == n
    ensures r[0] == '0' ==> n == 0
  {
    if n < 10 then [DigitChar(n)]
    else
      var r := Decimal(n / 10) + [DigitChar(n % 10)];
      assert r[..|r| - 1] == Decimal(n / 10);
      r
  }

  /** `n` copies of `c`. */
  function Repeat(c: char, n: nat): (r: string)
    ensures |r| == n && forall i :: 0 <= i < n ==> r[i] == c
  {
    if n == 0 then [] else [c] + Repeat(c, n - 1)
  }

  /** `s` padded on the left with zeros up to `width` characters; never truncated. */
  function ZeroPad(s: string, width: nat): (r: string)
    ensures |r| == if |s| < width then width else |s|
  {
    if |s| < width then Repeat('0', width - |s|) + s else s
  }

  lemma {:induction false} ZerosDoNotCount(z: nat, s: string)
    requires AllDigits(s)
    ensures AllDigits(Repeat('0', z) + s) && DigitsValue(Repeat('0', z) + s) == DigitsValue(s)
  {
    if z == 0 {
      assert Repeat('0', z) + s == s;
    } else if s == [] {
      assert Repeat('0', z) + s == Repeat('0', z);
      ZerosValueZero(z);
    } else {
      var t := Repeat('0', z) + s;
      assert t[..|t| - 1] == Repeat('0', z) + s[..|s| - 1];
      ZerosDoNotCount(z, s[..|s| - 1]);
    }
  }

  lemma {:induction false} ZerosValueZero(z: nat)
    ensures AllDigits(Repeat('0', z)) && DigitsValue(Repeat('0', z)) == 0
  {
    if z > 0 {
      assert Repeat('0', z)[..z - 1] == Repeat('0', z - 1);
      ZerosValueZero(z - 1);
    }
  }

  /** Python's `f"{n:05d}"`: at least five characters, the sign counted in the width. */
  function Format05d(n: int): string
  {
    if n >= 0 then ZeroPad(Decimal(n), 5) else "-" + ZeroPad(Decimal(-n), 4)
  }

  /** For a non-negative `n` the padded text is all digits, at least five of them, and reads back as `n`. */
  lemma Format05dValue(n: nat)
    ensures |Format05d(n)| == if |Decimal(n)| < 5 then 5 else |Decimal(n)|
    ensures AllDigits(Format05d(n)) && DigitsValue(Format05d(n)) == n
  {
    var d := Decimal(n);
    if |d| < 5 {
      ZerosDoNotCount(5 - |d|, d);
    }
  }

  /** ASCII lower-casing of one character; other characters are kept. */
  function LowerAscii(c: char): char
  {
    if 'A' <= c <= 'Z' then (c as int + 32) as char else c
  }

  function LowerAsciiString(s: string): (r: string)
    ensures |r| == |s| && forall i :: 0 <= i < |s| ==> r[i] == LowerAscii(s[i])
  {
    seq(|s|, i requires 0 <= i < |s| => LowerAscii(s[i]))
  }

  /** Lower-casing leaves no ASCII capital, changes nothing else, and a second pass changes nothing. */
  lemma LowerAsciiIdempotent(s: string)
    ensures forall i :: 0 <= i < |s| ==> !('A' <= LowerAsciiString(s)[i] <= 'Z')
    ensures forall i :: 0 <= i < |s| && !('A' <= s[i] <= 'Z') ==> LowerAsciiString(s)[i] == s[i]
    ensures LowerAsciiString(LowerAsciiString(s)) == LowerAsciiString(s)
  {
  }

  /** Index of the last `c` in `s`, or -1 (Python's `str.rfind`). */
  function LastIndexOf(s: string, c: char): (r: int)
    ensures -1 <= r < |s|
    ensures r >= 0 ==> s[r] == c
    ensures forall k :: r < k < |s| ==> s[k] != c
  {
    if |s| == 0 then -1 else if s[|s| - 1] == c then |s| - 1 else LastIndexOf(s[..|s| - 1], c)
  }
}
