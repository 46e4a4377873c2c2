/**
 * Text primitives of the JavaScript runtime that the calendar code relies on:
 * string comparison (`<`, `>=`, and `localeCompare` on the date and time
 * strings the app stores), decimal rendering (`String(n)`, `padStart`),
 * `join`, `split(c)[0]`, and the UTF-16 length of a string.  A Dafny `char`
 * is a Unicode code point, so a string here is a sequence of code points;
 * `Utf16Length` counts the code units JavaScript sees.
 */
module Strings {

  /** The separator of iCalendar content lines, and of the exported file. */
  const Crlf: string := "\r\n"

  // ---------------------------------------------------------------------
  // Lexicographic comparison
  // ---------------------------------------------------------------------

  /**
   * Three-way lexicographic comparison on code points: -1, 0 or 1.  On the
   * ASCII date and time keys of the app it is the order of the JavaScript
   * relational operators on strings.
   */
  function Compare(a: string, b: string): (r: int)
    ensures -1 <= r <= 1
    ensures r == 0 <==> a == b
  {
    if a == [] then (if b == [] then 0 else -1)
    else if b == [] then 1
    else if a[0] < b[0] then -1
    else if a[0] > b[0] then 1
    else
      var r := Compare(a[1..], b[1..]);
      assert a == [a[0]] + a[1..] && b == [b[0]] + b[1..];
      r
  }

  /** `a <= b` on strings. */
  predicate LexLe(a: string, b: string) {
    Compare(a, b) <= 0
  }

  lemma {:induction false} CompareFlip(a: string, b: string)
    ensures Compare(b, a) == -Compare(a, b)
  {
    if a != [] && b != [] && a[0] == b[0] {
      CompareFlip(a[1..], b[1..]);
    }
  }

  lemma {:induction false} CompareTrans(a: string, b: string, c: string)
    requires Compare(a, b) <= 0 && Compare(b, c) <= 0
    ensures Compare(a, c) <= 0
    ensures Compare(a, b) < 0 || Compare(b, c) < 0 ==> Compare(a, c) < 0
  {
    if a != [] && b != [] && c != [] && a[0] == b[0] == c[0] {
      CompareTrans(a[1..], b[1..], c[1..]);
    }
  }

  lemma {:induction false} CompareTotal(a: string, b: string)
    ensures LexLe(a, b) || LexLe(b, a)
  {
    CompareFlip(a, b);
  }

  /** Comparing concatenations of equal-width heads: the heads decide, then the tails. */
  lemma {:induction false} CompareConcat(a1: string, b1: string, a2: string, b2: string)
    requires |a1| == |a2|
    ensures Compare(a1 + b1, a2 + b2) ==
              if Compare(a1, a2) != 0 then Compare(a1, a2) else Compare(b1, b2)
  {
    if a1 == [] {
      assert a1 + b1 == b1 && a2 + b2 == b2;
    } else {
      assert (a1 + b1)[0] == a1[0] && (a2 + b2)[0] == a2[0];
      assert (a1 + b1)[1..] == a1[1..] + b1 && (a2 + b2)[1..] == a2[1..] + b2;
      CompareConcat(a1[1..], b1, a2[1..], b2);
    }
  }

  /** Comparing `a-b-c` against `x-y-z` field by field, when the first two fields have equal widths. */
  lemma CompareDashed(a: string, b: string, c: string, x: string, y: string, z: string)
    requires |a| == |x| && |b| == |y|
    ensures Compare(a + "-" + b + "-" + c, x + "-" + y + "-" + z) ==
              if Compare(a, x) != 0 then Compare(a, x)
              else if Compare(b, y) != 0 then Compare(b, y)
              else Compare(c, z)
  {
    assert a + "-" + b + "-" + c == a + ("-" + (b + ("-" + c)));
    assert x + "-" + y + "-" + z == x + ("-" + (y + ("-" + z)));
    CompareConcat(a, "-" + (b + ("-" + c)), x, "-" + (y + ("-" + z)));
    CompareConcat("-", b + ("-" + c), "-", y + ("-" + z));
    CompareConcat(b, "-" + c, y, "-" + z);
    CompareConcat("-", c, "-", z);
  }

  function Sign(d: int): (r: int)
    ensures r == -1 <==> d < 0
    ensures r == 0 <==> d == 0
    ensures r == 1 <==> d > 0
  {
    if d < 0 then -1 else if d == 0 then 0 else 1
  }

  // ---------------------------------------------------------------------
  // Decimal digits
  // ---------------------------------------------------------------------

  predicate IsDigit(c: char) {
    '0' <= c <= '9'
  }

  predicate AllDigits(s: string) {
    forall i :: 0 <= i < |s| ==> IsDigit(s[i])
  }

  function DigitChar(d: nat): (c: char)
    requires d < 10
    ensures IsDigit(c)
  {
    (48 + d) as char
  }

  function DigitValue(c: char): (d: nat)
    requires IsDigit(c)
    ensures d < 10 && DigitChar(d) == c
  {
    c as int - 48
  }

  function Pow10(w: nat): (r: nat)
    ensures r >= 1
  {
    if w == 0 then 1 else 10 * Pow10(w - 1)
  }

  /** The last `w` decimal digits of `x`, zero-padded on the left. */
  function Digits(x: nat, w: nat): (r: string)
    ensures |r| == w && AllDigits(r)
  {
    if w == 0 then [] else Digits(x / 10, w - 1) + [DigitChar(x % 10)]
  }

  /** The number a string of decimal digits denotes. */
  function DigitsValue(s: string): (v: nat)
    requires AllDigits(s)
    ensures v < Pow10(|s|)
  {
    if s == [] then 0 else DigitsValue(s[..|s| - 1]) * 10 + DigitValue(s[|s| - 1])
  }

  lemma {:induction false} DigitsValueOfDigits(x: nat, w: nat)
    requires x < Pow10(w)
    ensures DigitsValue(Digits(x, w)) == x
  {
    if w > 0 {
      var s := Digits(x, w);
      assert s[..|s| - 1] == Digits(x / 10, w - 1);
      DigitsValueOfDigits(x / 10, w - 1);
    }
  }

  lemma {:induction false} DigitsOfDigitsValue(s: string)
    requires AllDigits(s)
    ensures Digits(DigitsValue(s), |s|) == s
  {
    if s != [] {
      var p := s[..|s| - 1];
      var v := DigitsValue(p);
      var d := DigitValue(s[|s| - 1]);
      assert (v * 10 + d) / 10 == v && (v * 10 + d) % 10 == d;
      DigitsOfDigitsValue(p);
      assert s == p + [s[|s| - 1]];
    }
  }

  /** Fixed-width zero-padded numbers compare as text exactly as they compare as numbers. */
  lemma {:induction false} CompareDigits(x: nat, y: nat, w: nat)
    requires x < Pow10(w) && y < Pow10(w)
    ensures Compare(Digits(x, w), Digits(y, w)) == Sign(x - y)
  {
    if w > 0 {
      CompareDigits(x / 10, y / 10, w - 1);
      CompareConcat(Digits(x / 10, w - 1), [DigitChar(x % 10)], Digits(y / 10, w - 1), [DigitChar(y % 10)]);
      assert Compare([DigitChar(x % 10)], [DigitChar(y % 10)]) == Sign(x % 10 - y % 10);
    }
  }

  /** `String(n)` for a natural number: its decimal digits, no padding. */
  function Decimal(n: nat): (r: string)
    ensures |r| >= 1 && AllDigits(r)
  {
    if n < 10 then [DigitChar(n)] else Decimal(n / 10) + [DigitChar(n % 10)]
  }

  /** `String(n)` for an integer: a leading '-' for negative numbers. */
  function DecimalInt(n: int): (r: string)
    ensures n >= 0 ==> r == Decimal(n)
    ensures n < 0 ==> r == "-" + Decimal(-n)
  {
    if n < 0 then "-" + Decimal(-n) else Decimal(n)
  }

  lemma {:induction false} DecimalIsDigits(x: nat, w: nat)
    requires w >= 1 && Pow10(w - 1) <= x < Pow10(w)
    ensures Decimal(x) == Digits(x, w)
  {
    if w > 1 {
      DecimalIsDigits(x / 10, w - 1);
    }
  }

  function Repeat(c: char, n: nat): (r: string)
    ensures |r| == n && forall i :: 0 <= i < n ==> r[i] == c
  {
    if n == 0 then [] else [c] + Repeat(c, n - 1)
  }

  /** `s.padStart(len, c)` with a one-character filler. */
  function PadStart(s: string, len: nat, c: char): (r: string)
    ensures |r| == if |s| >= len then |s| else len
    ensures r[|r| - |s|..] == s
    ensures forall i :: 0 <= i < |r| - |s| ==> r[i] == c
  {
    if |s| >= len then s else Repeat(c, len - |s|) + s
  }

  /** `String(x).padStart(2, '0')` is the two-digit form of any number below 100. */
  lemma PadTwoDigits(x: nat)
    requires x < 100
    ensures PadStart(Decimal(x), 2, '0') == Digits(x, 2)
  {
    if x < 10 {
      assert Digits(x, 2) == Digits(0, 1) + [DigitChar(x)];
    } else {
      DecimalIsDigits(x, 2);
    }
  }

  // ---------------------------------------------------------------------
  // join, split, replace
  // ---------------------------------------------------------------------

  /** `parts.join(sep)`. */
  function Join(parts: seq<string>, sep: string): (r: string)
  {
    if |parts| == 0 then ""
    else if |parts| == 1 then parts[0]
    else parts[0] + sep + Join(parts[1..], sep)
  }

  lemma {:induction false} JoinEndsWithLast(parts: seq<string>, sep: string)
    requires |parts| >= 1
    ensures |Join(parts, sep)| >= |parts[|parts| - 1]|
    ensures Join(parts, sep)[|Join(parts, sep)| - |parts[|parts| - 1]|..] == parts[|parts| - 1]
  {
    if |parts| > 1 {
      JoinEndsWithLast(parts[1..], sep);
      var j := Join(parts[1..], sep);
      var last := parts[|parts| - 1];
      assert (parts[0] + sep + j)[|parts[0] + sep + j| - |last|..] == j[|j| - |last|..];
    }
  }

  lemma {:induction false} JoinStartsWithFirst(parts: seq<string>, sep: string)
    requires |parts| >= 1
    ensures |Join(parts, sep)| >= |parts[0]|
    ensures Join(parts, sep)[..|parts[0]|] == parts[0]
  {
    if |parts| > 1 {
      assert (parts[0] + sep + Join(parts[1..], sep))[..|parts[0]|] == parts[0];
    }
  }

  /**
   * Splitting text at every CR LF pair, scanning left to right: how a
   * reader of the exported iCalendar text recovers its content lines.
   */
  function SplitCrlf(s: string): (r: seq<string>)
    ensures |r| >= 1
    decreases |s|
  {
    if s == [] then [""]
    else if |s| >= 2 && s[0] == '\r' && s[1] == '\n' then [""] + SplitCrlf(s[2..])
    else
      var rest := SplitCrlf(s[1..]);
      [[s[0]] + rest[0]] + rest[1..]
  }

  /** The pieces of every part, in order. */
  function SplitEach(parts: seq<string>): (r: seq<string>)
    requires |parts| >= 1
  {
    if |parts| == 1 then SplitCrlf(parts[0]) else SplitCrlf(parts[0]) + SplitEach(parts[1..])
  }

  lemma {:induction false} SplitAround(a: string, b: string)
    ensures SplitCrlf(a + Crlf + b) == SplitCrlf(a) + SplitCrlf(b)
    decreases |a|
  {
    var s := a + Crlf + b;
    if a == [] {
      assert s == Crlf + b && s[2..] == b;
    } else if |a| >= 2 && a[0] == '\r' && a[1] == '\n' {
      assert s[2..] == a[2..] + Crlf + b;
      SplitAround(a[2..], b);
    } else {
      assert s[0] == a[0] && s[1..] == a[1..] + Crlf + b;
      assert !(|s| >= 2 && s[0] == '\r' && s[1] == '\n');
      SplitAround(a[1..], b);
      var ra, rb := SplitCrlf(a[1..]), SplitCrlf(b);
      assert (ra + rb)[0] == ra[0] && (ra + rb)[1..] == ra[1..] + rb;
      assert SplitCrlf(a) == [[a[0]] + ra[0]] + ra[1..];
    }
  }

  /** Splitting joined lines splits each line separately. */
  lemma {:induction false} SplitJoin(parts: seq<string>)
    requires |parts| >= 1
    ensures SplitCrlf(Join(parts, Crlf)) == SplitEach(parts)
  {
    if |parts| > 1 {
      SplitAround(parts[0], Join(parts[1..], Crlf));
      SplitJoin(parts[1..]);
    }
  }

  lemma {:induction false} SplitWithoutCr(s: string)
    requires '\r' !in s
    ensures SplitCrlf(s) == [s]
  {
    if s != [] {
      assert '\r' !in s[1..];
      SplitWithoutCr(s[1..]);
      assert [s[0]] + s[1..] == s;
    }
  }

  lemma {:induction false} SplitEachWithoutCr(parts: seq<string>)
    requires |parts| >= 1
    requires forall i :: 0 <= i < |parts| ==> '\r' !in parts[i]
    ensures SplitEach(parts) == parts
  {
    SplitWithoutCr(parts[0]);
    if |parts| > 1 {
      SplitEachWithoutCr(parts[1..]);
    }
  }

  lemma {:induction false} SplitEachLength(parts: seq<string>)
    requires |parts| >= 1
    ensures |SplitEach(parts)| >= |parts|
    ensures (exists i :: 0 <= i < |parts| && |SplitCrlf(parts[i])| >= 2) ==> |SplitEach(parts)| > |parts|
  {
    if |parts| > 1 {
      SplitEachLength(parts[1..]);
      if exists i :: 0 <= i < |parts| && |SplitCrlf(parts[i])| >= 2 {
        var i :| 0 <= i < |parts| && |SplitCrlf(parts[i])| >= 2;
        if i > 0 {
          assert parts[1..][i - 1] == parts[i];
        }
      }
    }
  }

  /** `s.split(c)[0]`: everything before the first `c`. */
  function Before(s: string, c: char): (r: string)
    ensures c !in r
    ensures r <= s
    ensures c !in s ==> r == s
    ensures |r| < |s| ==> s[|r|] == c
  {
    if s == [] then [] else if s[0] == c then [] else [s[0]] + Before(s[1..], c)
  }

  lemma {:induction false} BeforeConcat(a: string, c: char, b: string)
    requires c !in a
    ensures Before(a + [c] + b, c) == a
  {
    if a != [] {
      assert (a + [c] + b)[1..] == a[1..] + [c] + b;
      BeforeConcat(a[1..], c, b);
    }
  }

  /** `s.replace(/[...]/g, '')` for a character class: drops every character of `drop`. */
  function Without(s: string, drop: set<char>): (r: string)
    ensures forall i :: 0 <= i < |r| ==> r[i] !in drop
    ensures |r| <= |s|
  {
    if s == [] then [] else (if s[0] in drop then [] else [s[0]]) + Without(s[1..], drop)
  }

  lemma {:induction false} WithoutConcat(a: string, b: string, drop: set<char>)
    ensures Without(a + b, drop) == Without(a, drop) + Without(b, drop)
  {
    if a == [] {
      assert a + b == b;
    } else {
      assert (a + b)[1..] == a[1..] + b;
      WithoutConcat(a[1..], b, drop);
    }
  }

  lemma {:induction false} WithoutNone(s: string, drop: set<char>)
    requires forall i :: 0 <= i < |s| ==> s[i] !in drop
    ensures Without(s, drop) == s
  {
    if s != [] {
      WithoutNone(s[1..], drop);
      assert [s[0]] + s[1..] == s;
    }
  }

  // ---------------------------------------------------------------------
  // UTF-16 code units
  // ---------------------------------------------------------------------

  /** The UTF-16 code units of a character: two, a surrogate pair, outside the Basic Multilingual Plane. */
  function Utf16Units(c: char): (n: nat)
    ensures n == 1 || n == 2
  {
    if c as int >= 0x1_0000 then 2 else 1
  }

  /** Every character of the string lies in the Basic Multilingual Plane. */
  predicate InBmp(s: string) {
    forall i :: 0 <= i < |s| ==> s[i] as int < 0x1_0000
  }

  /** `s.length` in JavaScript: the number of UTF-16 code units of the string. */
  function Utf16Length(s: string): (n: nat)
    ensures n >= |s|
    ensures n == |s| <==> InBmp(s)
  {
    if s == [] then 0
    else
      var n := Utf16Units(s[0]) + Utf16Length(s[1..]);
      assert InBmp(s) <==> s[0] as int < 0x1_0000 && InBmp(s[1..]) by {
        assert forall i :: 1 <= i < |s| ==> s[i] == s[1..][i - 1];
      }
      n
  }

  lemma {:induction false} Utf16LengthConcat(a: string, b: string)
    ensures Utf16Length(a + b) == Utf16Length(a) + Utf16Length(b)
  {
    if a == [] {
      assert a + b == b;
    } else {
      assert (a + b)[0] == a[0] && (a + b)[1..] == a[1..] + b;
      Utf16LengthConcat(a[1..], b);
    }
  }

  // ---------------------------------------------------------------------
  // ASCII classes
  // ---------------------------------------------------------------------

  predicate IsAsciiLetter(c: char) {
    'a' <= c <= 'z' || 'A' <= c <= 'Z'
  }

  predicate IsAsciiAlnum(c: char) {
    IsAsciiLetter(c) || IsDigit(c)
  }

  /** Lower-casing of one ASCII character; other characters are unchanged. */
  function AsciiLower(c: char): (r: char)
    ensures 'A' <= c <= 'Z' ==> 'a' <= r <= 'z' && r as int == c as int + 32
    ensures !('A' <= c <= 'Z') ==> r == c
  {
    if 'A' <= c <= 'Z' then (c as int + 32) as char else c
  }

  /** Lower-casing of ASCII letters, character by character. */
  function LowerAscii(s: string): (r: string)
    ensures |r| == |s| && forall i :: 0 <= i < |s| ==> r[i] == AsciiLower(s[i])
  {
    if s == [] then [] else [AsciiLower(s[0])] + LowerAscii(s[1..])
  }
}
