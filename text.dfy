/**
 * The string operations of JavaScript that the news pipeline relies on:
 * `trim`, `toLowerCase`, `includes`, string ordering, `join` and the
 * decimal rendering of a count.  Strings are sequences of characters.
 */
module Text {

  // ---------------------------------------------------------------------
  // String.prototype.trim
  // ---------------------------------------------------------------------

  /** JavaScript's WhiteSpace and LineTerminator characters: what `trim` strips. */
  predicate IsJsSpace(c: char) {
    || c == '\t' || c == '\n' || c == '\U{000B}' || c == '\U{000C}' || c == '\r'
    || c == ' ' || c == '\U{00A0}' || c == '\U{1680}'
    || ('\U{2000}' <= c <= '\U{200A}')
    || c == '\U{2028}' || c == '\U{2029}' || c == '\U{202F}' || c == '\U{205F}'
    || c == '\U{3000}' || c == '\U{FEFF}'
  }

  /** Every character of `s` is white space (the empty string included). */
  predicate AllSpace(s: string) {
    forall i :: 0 <= i < |s| ==> IsJsSpace(s[i])
  }

  function TrimStart(s: string): (r: string)
    ensures r == [] || !IsJsSpace(r[0])
    decreases |s|
  {
    if s != [] && IsJsSpace(s[0]) then TrimStart(s[1..]) else s
  }

  function TrimEnd(s: string): (r: string)
    ensures r == [] || !IsJsSpace(r[|r| - 1])
    decreases |s|
  {
    if s != [] && IsJsSpace(s[|s| - 1]) then TrimEnd(s[..|s| - 1]) else s
  }

  /** `s.trim()`: white space removed from both ends. */
  function Trim(s: string): string {
    TrimEnd(TrimStart(s))
  }

  lemma {:induction false} TrimStartEmptyIff(s: string)
    ensures TrimStart(s) == [] <==> AllSpace(s)
    decreases |s|
  {
    if s != [] && IsJsSpace(s[0]) {
      TrimStartEmptyIff(s[1..]);
      assert AllSpace(s) <==> AllSpace(s[1..]) by {
        if AllSpace(s[1..]) {
          forall i | 0 <= i < |s| ensures IsJsSpace(s[i]) {
            if i > 0 { assert s[i] == s[1..][i - 1]; }
          }
        }
      }
    }
  }

  /** Trimming from the end never removes a first character that is not white space. */
  lemma {:induction false} TrimEndKeepsHead(s: string)
    requires s != [] && !IsJsSpace(s[0])
    ensures TrimEnd(s) != []
    decreases |s|
  {
    if IsJsSpace(s[|s| - 1]) {
      assert |s| > 1;
      TrimEndKeepsHead(s[..|s| - 1]);
    }
  }

  /** `s.trim()` is the empty (falsy) string exactly when `s` is all white space. */
  lemma TrimEmptyIff(s: string)
    ensures Trim(s) == [] <==> AllSpace(s)
  {
    TrimStartEmptyIff(s);
    var t := TrimStart(s);
    if t != [] {
      TrimEndKeepsHead(t);
    }
  }

  // ---------------------------------------------------------------------
  // String.prototype.toLowerCase
  // ---------------------------------------------------------------------

  /** The lower-case mapping of the ASCII and Latin-1 upper-case letters; other characters are kept. */
  function LowerChar(c: char): char {
    if 'A' <= c <= 'Z' then (c as int + 32) as char
    else if '\U{00C0}' <= c <= '\U{00DE}' && c != '\U{00D7}' then (c as int + 32) as char
    else c
  }

  function ToLower(s: string): (r: string)
    ensures |r| == |s|
    ensures forall i :: 0 <= i < |s| ==> r[i] == LowerChar(s[i])
  {
    seq(|s|, i requires 0 <= i < |s| => LowerChar(s[i]))
  }

  /** Lower-casing twice is lower-casing once. */
  lemma ToLowerIdempotent(s: string)
    ensures ToLower(ToLower(s)) == ToLower(s)
  {
  }

  // ---------------------------------------------------------------------
  // String.prototype.includes
  // ---------------------------------------------------------------------

  predicate StartsWith(s: string, p: string) {
    |p| <= |s| && s[..|p|] == p
  }

  /** `s.includes(p)`: `p` occurs in `s` (the empty string occurs everywhere). */
  predicate Contains(s: string, p: string)
    decreases |s|
  {
    StartsWith(s, p) || (s != [] && Contains(s[1..], p))
  }

  /** `Contains` agrees with "some suffix of `s` starts with `p`". */
  lemma {:induction false} ContainsIff(s: string, p: string)
    ensures Contains(s, p) <==> exists i :: 0 <= i <= |s| && StartsWith(s[i..], p)
    decreases |s|
  {
    if s == [] {
      if StartsWith(s, p) {
        assert s[0..] == s;
      }
      if exists i :: 0 <= i <= |s| && StartsWith(s[i..], p) {
        var i :| 0 <= i <= |s| && StartsWith(s[i..], p);
        assert s[i..] == s;
      }
    } else {
      ContainsIff(s[1..], p);
      if StartsWith(s, p) {
        assert s[0..] == s;
      }
      if Contains(s[1..], p) {
        var i :| 0 <= i <= |s[1..]| && StartsWith(s[1..][i..], p);
        assert s[1..][i..] == s[i + 1..];
        assert StartsWith(s[i + 1..], p);
      }
      if exists i :: 0 <= i <= |s| && StartsWith(s[i..], p) {
        var i :| 0 <= i <= |s| && StartsWith(s[i..], p);
        if i == 0 {
          assert s[0..] == s;
        } else {
          assert s[1..][i - 1..] == s[i..];
          assert 0 <= i - 1 <= |s[1..]| && StartsWith(s[1..][i - 1..], p);
          assert Contains(s[1..], p);
        }
      }
    }
  }

  /** The empty query is contained in every string. */
  lemma ContainsEmpty(s: string)
    ensures Contains(s, [])
  {
    assert StartsWith(s, []);
  }

  // ---------------------------------------------------------------------
  // String ordering
  // ---------------------------------------------------------------------

  /**
   * The UTF-16 code units JavaScript stores for one character: the
   * character itself below U+10000, otherwise its surrogate pair.
   */
  function CodeUnits(c: char): (u: seq<int>)
    ensures 1 <= |u| <= 2
    ensures |u| == 1 <==> c as int < 0x10000
  {
    var v := c as int;
    if v < 0x10000 then [v]
    else [0xD800 + (v - 0x10000) / 0x400, 0xDC00 + (v - 0x10000) % 0x400]
  }

  /** The UTF-16 encoding of a string, the sequence JavaScript compares. */
  function Utf16(s: string): seq<int>
    decreases |s|
  {
    if s == [] then [] else CodeUnits(s[0]) + Utf16(s[1..])
  }

  /** Three-way lexicographic comparison of code-unit sequences. */
  function CompareUnits(a: seq<int>, b: seq<int>): (r: int)
    ensures -1 <= r <= 1
    decreases |a|
  {
    if a == [] && b == [] then 0
    else if a == [] then -1
    else if b == [] then 1
    else if a[0] < b[0] then -1
    else if b[0] < a[0] then 1
    else CompareUnits(a[1..], b[1..])
  }

  /**
   * A number per character that orders characters as their UTF-16
   * encodings compare: characters above U+FFFF, whose first unit is a
   * surrogate, come after U+D7FF and before U+E000.
   */
  function UnitRank(c: char): int {
    var v := c as int;
    if v < 0xD800 then v
    else if v < 0x10000 then v + 0x100000
    else v - 0x10000 + 0xD800
  }

  /**
   * Three-way comparison in UTF-16 code-unit order, the order of
   * `Array.prototype.sort()` without a comparator; it also stands for
   * `localeCompare`, whose locale collation is not modelled.  It walks the
   * characters; `CompareStringsIsUtf16Order` shows it agrees with comparing
   * the encodings unit by unit.
   */
  function CompareStrings(a: string, b: string): (r: int)
    ensures -1 <= r <= 1
    decreases |a|
  {
    if a == [] && b == [] then 0
    else if a == [] then -1
    else if b == [] then 1
    else if UnitRank(a[0]) < UnitRank(b[0]) then -1
    else if UnitRank(b[0]) < UnitRank(a[0]) then 1
    else CompareStrings(a[1..], b[1..])
  }

  /** Comparing the characters is comparing their UTF-16 encodings. */
  lemma {:induction false} CompareStringsIsUtf16Order(a: string, b: string)
    ensures CompareStrings(a, b) == CompareUnits(Utf16(a), Utf16(b))
    decreases |a|
  {
    if a != [] && b != [] {
      if UnitRank(a[0]) < UnitRank(b[0]) {
        FirstCharDecides(a[0], b[0], Utf16(a[1..]), Utf16(b[1..]));
      } else if UnitRank(b[0]) < UnitRank(a[0]) {
        FirstCharDecides(b[0], a[0], Utf16(b[1..]), Utf16(a[1..]));
      } else {
        CompareStringsIsUtf16Order(a[1..], b[1..]);
        CommonPrefix(CodeUnits(a[0]), Utf16(a[1..]), Utf16(b[1..]));
      }
    }
  }

  /** A shared prefix does not change the comparison. */
  lemma {:induction false} CommonPrefix(u: seq<int>, x: seq<int>, y: seq<int>)
    ensures CompareUnits(u + x, u + y) == CompareUnits(x, y)
    decreases |u|
  {
    if u == [] {
      assert u + x == x && u + y == y;
    } else {
      assert (u + x)[1..] == u[1..] + x && (u + y)[1..] == u[1..] + y;
      CommonPrefix(u[1..], x, y);
    }
  }

  /** Two different first characters decide the comparison of the encodings. */
  lemma FirstCharDecides(c: char, d: char, x: seq<int>, y: seq<int>)
    requires UnitRank(c) < UnitRank(d)
    ensures CompareUnits(CodeUnits(c) + x, CodeUnits(d) + y) == -1
    ensures CompareUnits(CodeUnits(d) + y, CodeUnits(c) + x) == 1
  {
    var u, w := CodeUnits(c) + x, CodeUnits(d) + y;
    var v, t := c as int, d as int;
    if v >= 0x10000 && t >= 0x10000 && (v - 0x10000) / 0x400 == (t - 0x10000) / 0x400 {
      assert u[1..] == [CodeUnits(c)[1]] + x && w[1..] == [CodeUnits(d)[1]] + y;
    }
  }

  lemma {:induction false} CompareStringsAntisymmetric(a: string, b: string)
    ensures CompareStrings(a, b) == -CompareStrings(b, a)
    decreases |a|
  {
    if a != [] && b != [] && a[0] == b[0] {
      CompareStringsAntisymmetric(a[1..], b[1..]);
    }
  }

  lemma {:induction false} CompareStringsZeroIff(a: string, b: string)
    ensures CompareStrings(a, b) == 0 <==> a == b
    decreases |a|
  {
    if a != [] && b != [] && a[0] == b[0] {
      CompareStringsZeroIff(a[1..], b[1..]);
      assert a == [a[0]] + a[1..] && b == [b[0]] + b[1..];
    }
  }

  lemma {:induction false} CompareStringsTransitive(a: string, b: string, c: string)
    requires CompareStrings(a, b) <= 0 && CompareStrings(b, c) <= 0
    ensures CompareStrings(a, c) <= 0
    decreases |a|
  {
    if a != [] && b != [] && c != [] && a[0] == b[0] == c[0] {
      CompareStringsTransitive(a[1..], b[1..], c[1..]);
    }
  }

  // ---------------------------------------------------------------------
  // Array.prototype.join and number rendering
  // ---------------------------------------------------------------------

  /** `parts.join(sep)`. */
  function Join(parts: seq<string>, sep: string): (r: string)
    ensures parts == [] ==> r == []
    ensures |parts| == 1 ==> r == parts[0]
    decreases |parts|
  {
    if parts == [] then []
    else if |parts| == 1 then parts[0]
    else parts[0] + sep + Join(parts[1..], sep)
  }

  function DigitChar(d: nat): char
    requires d < 10
  {
    ('0' as int + d) as char
  }

  function DigitValue(c: char): int {
    c as int - '0' as int
  }

  /** The decimal digits of `n`, as JavaScript renders a non-negative integer. */
  function NatToString(n: nat): (r: string)
    ensures r != []
    ensures forall i :: 0 <= i < |r| ==> '0' <= r[i] <= '9'
  {
    if n < 10 then [DigitChar(n)] else NatToString(n / 10) + [DigitChar(n % 10)]
  }

  /** The number a string of decimal digits denotes. */
  function DigitsValue(s: string): int {
    if s == [] then 0 else DigitsValue(s[..|s| - 1]) * 10 + DigitValue(s[|s| - 1])
  }

  /** Reading back the rendered digits gives the number; there is no leading zero. */
  lemma {:induction false} NatToStringRoundTrip(n: nat)
    ensures DigitsValue(NatToString(n)) == n
    ensures NatToString(n)[0] == '0' ==> n == 0
  {
    if n >= 10 {
      NatToStringRoundTrip(n / 10);
      var r := NatToString(n);
      assert r[..|r| - 1] == NatToString(n / 10);
    }
  }
}
