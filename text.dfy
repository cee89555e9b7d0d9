/**
 * The Python string built-ins that the knowledge-base code relies on, as pure
 * functions over `seq<char>`: `str.lower` (ASCII only), the substring test
 * `a in b`, `startswith`, `lstrip`, `strip`, slicing `[:n]`, `splitlines`,
 * `split`, `count` and `str(int)`.
 */
module Text {

  // ----- lower-casing ---------------------------------------------------------

  /** ASCII model of lower-casing one character. */
  function LowerChar(c: char): (r: char)
    ensures 'A' <= c <= 'Z' ==> 'a' <= r <= 'z' && r as int == c as int + 32
    ensures !('A' <= c <= 'Z') ==> r == c
  {
    if 'A' <= c <= 'Z' then (c as int + 32) as char else c
  }

  predicate IsUpper(c: char) { 'A' <= c <= 'Z' }

  /** `s.lower()`, character by character. */
  function Lower(s: string): (r: string)
    ensures |r| == |s|
    ensures forall i :: 0 <= i < |s| ==> r[i] == LowerChar(s[i])
  {
    seq(|s|, i requires 0 <= i < |s| => LowerChar(s[i]))
  }

  /** Lower-casing leaves no upper-case letter behind, so doing it twice changes nothing. */
  lemma LowerIdempotent(s: string)
    ensures forall i :: 0 <= i < |s| ==> !IsUpper(Lower(s)[i])
    ensures Lower(Lower(s)) == Lower(s)
  {
  }

  // ----- prefixes and substrings ----------------------------------------------

  /** `s.startswith(prefix)`. */
  predicate StartsWith(s: string, prefix: string) {
    |prefix| <= |s| && s[..|prefix|] == prefix
  }

  /** Python's `sub in s` on strings: `sub` occurs at some position of `s`. */
  predicate Contains(s: string, sub: string) {
    exists i | 0 <= i <= |s| - |sub| :: StartsWith(s[i..], sub)
  }

  /** The empty string is in every string, as in Python. */
  lemma EmptyInAll(s: string)
    ensures Contains(s, "")
  {
    assert StartsWith(s[0..], "");
  }

  /** Every string is in itself, and a prefix is a substring. */
  lemma PrefixIsContained(s: string, prefix: string)
    requires StartsWith(s, prefix)
    ensures Contains(s, prefix)
  {
    assert s[0..] == s;
  }

  /** A case-sensitive occurrence is also an occurrence once both sides are lower-cased. */
  lemma ContainsLower(s: string, sub: string)
    requires Contains(s, sub)
    ensures Contains(Lower(s), Lower(sub))
  {
    var i :| 0 <= i <= |s| - |sub| && StartsWith(s[i..], sub);
    assert Lower(s)[i..][..|sub|] == Lower(sub) by {
      forall k | 0 <= k < |sub|
        ensures Lower(s)[i..][..|sub|][k] == Lower(sub)[k]
      {
        assert s[i..][..|sub|][k] == sub[k];
      }
    }
    assert StartsWith(Lower(s)[i..], Lower(sub));
  }

  // ----- stripping ------------------------------------------------------------

  /** `s.lstrip(c)` for a single character `c`. */
  function LStrip(s: string, c: char): (r: string)
    ensures |r| <= |s| && r == s[|s| - |r|..]
    ensures forall i :: 0 <= i < |s| - |r| ==> s[i] == c
    ensures r == [] || r[0] != c
    decreases |s|
  {
    if |s| > 0 && s[0] == c then LStrip(s[1..], c) else s
  }

  /** Python's `str.isspace()` on one character: the Unicode white-space characters. */
  predicate IsSpace(c: char) {
    || '\U{0009}' <= c <= '\U{000D}'
    || '\U{001C}' <= c <= '\U{0020}'
    || c == '\U{0085}' || c == '\U{00A0}' || c == '\U{1680}'
    || '\U{2000}' <= c <= '\U{200A}'
    || c == '\U{2028}' || c == '\U{2029}' || c == '\U{202F}'
    || c == '\U{205F}' || c == '\U{3000}'
  }

  /** Leading white space removed. */
  function LStripSpace(s: string): (r: string)
    ensures |r| <= |s| && r == s[|s| - |r|..]
    ensures forall i :: 0 <= i < |s| - |r| ==> IsSpace(s[i])
    ensures r == [] || !IsSpace(r[0])
    decreases |s|
  {
    if |s| > 0 && IsSpace(s[0]) then LStripSpace(s[1..]) else s
  }

  /** Trailing white space removed. */
  function RStripSpace(s: string): (r: string)
    ensures |r| <= |s| && r == s[..|r|]
    ensures forall i :: |r| <= i < |s| ==> IsSpace(s[i])
    ensures r == [] || !IsSpace(r[|r| - 1])
    decreases |s|
  {
    if |s| > 0 && IsSpace(s[|s| - 1]) then RStripSpace(s[..|s| - 1]) else s
  }

  /** `s.strip()`: white space removed from both ends. */
  function Strip(s: string): (r: string)
  {
    RStripSpace(LStripSpace(s))
  }

  /**
   * `strip` keeps one contiguous slice `s[a..b]`: everything before `a` and
   * after `b` is white space, and the slice neither starts nor ends with it.
   */
  lemma StripIsTrimmedSlice(s: string) returns (a: nat, b: nat)
    ensures a <= b <= |s| && Strip(s) == s[a..b]
    ensures forall i :: 0 <= i < a ==> IsSpace(s[i])
    ensures forall i :: b <= i < |s| ==> IsSpace(s[i])
    ensures Strip(s) == [] || (!IsSpace(Strip(s)[0]) && !IsSpace(Strip(s)[|Strip(s)| - 1]))
  {
    var l := LStripSpace(s);
    var r := RStripSpace(l);
    a, b := TrimmedSlice(s, l, r);
  }

  /** A prefix `r` of a suffix `l` of `s` is the slice `s[a..b]`, with white space past it when `l` has only white space past `r`. */
  lemma TrimmedSlice(s: string, l: string, r: string) returns (a: nat, b: nat)
    requires |l| <= |s| && l == s[|s| - |l|..]
    requires |r| <= |l| && r == l[..|r|]
    requires forall i :: |r| <= i < |l| ==> IsSpace(l[i])
    ensures a == |s| - |l| && b == a + |r| && b <= |s| && r == s[a..b]
    ensures forall i :: b <= i < |s| ==> IsSpace(s[i])
    ensures r != [] ==> r[0] == l[0]
  {
    a, b := |s| - |l|, |s| - |l| + |r|;
    forall i | b <= i < |s| ensures IsSpace(s[i]) {
      assert s[i] == l[i - a];
    }
  }

  /** `s[:n]`. */
  function Take(s: string, n: nat): (r: string)
    ensures |r| <= n && StartsWith(s, r)
    ensures |s| <= n ==> r == s
    ensures n <= |s| ==> |r| == n
  {
    if |s| <= n then s else s[..n]
  }

  // ----- lines and splitting --------------------------------------------------

  /** The characters Python's `str.splitlines()` treats as line boundaries. */
  predicate IsLineBreak(c: char) {
    || c == '\n' || c == '\r'
    || c == '\U{000B}' || c == '\U{000C}'
    || c == '\U{001C}' || c == '\U{001D}' || c == '\U{001E}'
    || c == '\U{0085}' || c == '\U{2028}' || c == '\U{2029}'
  }

  /** Index of the first line boundary at or after `i`, or `|s|` if there is none. */
  function LineEnd(s: string, i: nat): (j: nat)
    requires i <= |s|
    ensures i <= j <= |s|
    ensures forall k :: i <= k < j ==> !IsLineBreak(s[k])
    ensures j < |s| ==> IsLineBreak(s[j])
    decreases |s| - i
  {
    if i == |s| || IsLineBreak(s[i]) then i else LineEnd(s, i + 1)
  }

  /**
   * `s.splitlines()`: the lines between boundaries, `\r\n` counting as one
   * boundary, and no empty last line after a trailing boundary. No line holds
   * a boundary character.
   */
  function SplitLines(s: string): (lines: seq<string>)
    ensures forall k, m :: 0 <= k < |lines| && 0 <= m < |lines[k]| ==> !IsLineBreak(lines[k][m])
    ensures s == [] <==> lines == []
    decreases |s|
  {
    if s == [] then []
    else
      var j := LineEnd(s, 0);
      if j == |s| then [s]
      else [s[..j]] + SplitLines(s[BreakEnd(s, j)..])
  }

  /** The end of the boundary at `j`: two characters for `\r\n`, one otherwise. */
  function BreakEnd(s: string, j: nat): (next: nat)
    requires j < |s|
    ensures j < next <= |s|
  {
    if s[j] == '\r' && j + 1 < |s| && s[j + 1] == '\n' then j + 2 else j + 1
  }

  /** A boundary `splitlines` recognises: `\r\n` or a single boundary character. */
  predicate IsTerminator(t: string) {
    t == "\r\n" || (|t| == 1 && IsLineBreak(t[0]))
  }

  /** The boundary that ends each line of `SplitLines(s)`, `""` after a last line that has none. */
  function Terminators(s: string): seq<string>
    decreases |s|
  {
    if s == [] then []
    else
      var j := LineEnd(s, 0);
      if j == |s| then [""]
      else [s[j..BreakEnd(s, j)]] + Terminators(s[BreakEnd(s, j)..])
  }

  /** Each line followed by its boundary, all concatenated. */
  function Interleave(lines: seq<string>, ts: seq<string>): string
    requires |lines| == |ts|
    decreases |lines|
  {
    if lines == [] then [] else lines[0] + ts[0] + Interleave(lines[1..], ts[1..])
  }

  /** There is one boundary entry per line. */
  lemma {:induction false} TerminatorsLength(s: string)
    ensures |Terminators(s)| == |SplitLines(s)|
    decreases |s|
  {
    if s != [] && LineEnd(s, 0) < |s| {
      TerminatorsLength(s[BreakEnd(s, LineEnd(s, 0))..]);
    }
  }

  /** The lines, each followed by its boundary, give the text back. */
  lemma {:induction false} InterleaveRebuilds(s: string)
    ensures |Terminators(s)| == |SplitLines(s)|
    ensures Interleave(SplitLines(s), Terminators(s)) == s
    decreases |s|
  {
    TerminatorsLength(s);
    if s != [] {
      var j := LineEnd(s, 0);
      if j < |s| {
        var next := BreakEnd(s, j);
        var rest := s[next..];
        InterleaveRebuilds(rest);
        var lines, ts := SplitLines(s), Terminators(s);
        assert lines[1..] == SplitLines(rest) && ts[1..] == Terminators(rest);
        assert s == s[..j] + s[j..next] + rest;
      }
    }
  }

  /** Every boundary entry is a real boundary, except a `""` after a non-empty last line. */
  lemma {:induction false} TerminatorsAreBoundaries(s: string)
    ensures forall k :: 0 <= k < |Terminators(s)| ==>
      (|| IsTerminator(Terminators(s)[k])
       || (k == |Terminators(s)| - 1 && Terminators(s)[k] == "" && k < |SplitLines(s)| && SplitLines(s)[k] != []))
    decreases |s|
  {
    TerminatorsLength(s);
    if s != [] {
      var j := LineEnd(s, 0);
      if j < |s| {
        var next := BreakEnd(s, j);
        var rest := s[next..];
        TerminatorsAreBoundaries(rest);
        var lines, ts := SplitLines(s), Terminators(s);
        assert lines[1..] == SplitLines(rest) && ts[1..] == Terminators(rest);
        assert IsTerminator(ts[0]);
        forall k | 1 <= k < |ts|
          ensures || IsTerminator(ts[k])
                  || (k == |ts| - 1 && ts[k] == "" && k < |lines| && lines[k] != [])
        {
          assert ts[k] == Terminators(rest)[k - 1];
        }
      }
    }
  }

  /** A `\r` boundary is never followed by an empty line ended by `\n`: that pair is one `\r\n`. */
  lemma {:induction false} CrLfIsOneBoundary(s: string)
    ensures forall k :: 0 <= k < |Terminators(s)| - 1 && Terminators(s)[k] == "\r" ==>
      !(k + 1 < |SplitLines(s)| && SplitLines(s)[k + 1] == [] && Terminators(s)[k + 1] == "\n")
    decreases |s|
  {
    if s != [] {
      var j := LineEnd(s, 0);
      if j < |s| {
        var next := BreakEnd(s, j);
        var rest := s[next..];
        CrLfIsOneBoundary(rest);
        var lines, ts := SplitLines(s), Terminators(s);
        var lines', ts' := SplitLines(rest), Terminators(rest);
        assert lines[1..] == lines' && ts[1..] == ts';
        if ts[0] == "\r" && rest != [] {
          assert next == j + 1;
          assert rest[0] != '\n';
          if LineEnd(rest, 0) == 0 {
            assert ts'[0][0] == rest[0];
          }
        }
      }
    }
  }

  /**
   * `splitlines` loses nothing but the boundaries: the text is its lines,
   * each followed by exactly one boundary, where only a non-empty last line
   * may have none, and `\r\n` is always taken as one boundary.
   */
  lemma SplitLinesRebuild(s: string)
    ensures |Terminators(s)| == |SplitLines(s)|
    ensures Interleave(SplitLines(s), Terminators(s)) == s
    ensures forall k :: 0 <= k < |Terminators(s)| ==>
      (|| IsTerminator(Terminators(s)[k])
       || (k == |Terminators(s)| - 1 && Terminators(s)[k] == "" && SplitLines(s)[k] != []))
    ensures forall k :: 0 <= k < |Terminators(s)| - 1 && Terminators(s)[k] == "\r" ==>
      !(SplitLines(s)[k + 1] == [] && Terminators(s)[k + 1] == "\n")
  {
    InterleaveRebuilds(s);
    TerminatorsAreBoundaries(s);
    CrLfIsOneBoundary(s);
  }

  /** `s.count(c)` for one character. */
  function CountChar(s: string, c: char): (n: nat)
    ensures n <= |s|
  {
    if s == [] then 0 else CountChar(s[..|s| - 1], c) + (if s[|s| - 1] == c then 1 else 0)
  }

  /** `s.split(c)` for one separator character: always at least one part. */
  function SplitOn(s: string, c: char): (parts: seq<string>)
    ensures |parts| >= 1
    decreases |s|
  {
    if s == [] then [[]]
    else
      var rest := SplitOn(s[1..], c);
      if s[0] == c then [[]] + rest else [[s[0]] + rest[0]] + rest[1..]
  }

  /** `c.join(parts)`. */
  function Join(parts: seq<string>, c: char): string
    decreases |parts|
  {
    if |parts| <= 1 then (if parts == [] then [] else parts[0])
    else parts[0] + [c] + Join(parts[1..], c)
  }

  lemma CountCharFront(s: string, c: char)
    requires s != []
    ensures CountChar(s, c) == (if s[0] == c then 1 else 0) + CountChar(s[1..], c)
    decreases |s|
  {
    if |s| > 1 {
      CountCharFront(s[..|s| - 1], c);
      assert s[..|s| - 1][1..] == s[1..][..|s[1..]| - 1];
    }
  }

  /** Splitting on `c` yields one more part than there are occurrences of `c`. */
  lemma {:induction false} SplitOnCount(s: string, c: char)
    ensures |SplitOn(s, c)| == CountChar(s, c) + 1
    decreases |s|
  {
    if s != [] {
      SplitOnCount(s[1..], c);
      CountCharFront(s, c);
    }
  }

  /** No part of `s.split(c)` contains `c`, and joining the parts with `c` gives `s` back. */
  lemma {:induction false} SplitOnJoin(s: string, c: char)
    ensures forall k, m :: 0 <= k < |SplitOn(s, c)| && 0 <= m < |SplitOn(s, c)[k]| ==> SplitOn(s, c)[k][m] != c
    ensures Join(SplitOn(s, c), c) == s
    decreases |s|
  {
    if s != [] {
      SplitOnJoin(s[1..], c);
      var rest := SplitOn(s[1..], c);
      if s[0] == c {
        assert SplitOn(s, c) == [[]] + rest;
        assert Join(SplitOn(s, c), c) == [] + [c] + Join(rest, c);
      } else {
        var parts := SplitOn(s, c);
        assert parts == [[s[0]] + rest[0]] + rest[1..];
        if |rest| == 1 {
          assert Join(parts, c) == [s[0]] + rest[0];
        } else {
          assert parts[1..] == rest[1..];
          assert Join(rest, c) == rest[0] + [c] + Join(rest[1..], c);
          assert Join(parts, c) == [s[0]] + rest[0] + [c] + Join(rest[1..], c);
        }
      }
    }
  }

  // ----- decimal rendering ----------------------------------------------------

  function DigitChar(d: nat): (c: char)
    requires d < 10
    ensures '0' <= c <= '9' && c as int - '0' as int == d
  {
    (d + '0' as int) as char
  }

  /** `str(n)` for a non-negative `n`: decimal digits, most significant first. */
  function NatToString(n: nat): (s: string)
    ensures |s| >= 1
    ensures forall i :: 0 <= i < |s| ==> '0' <= s[i] <= '9'
    ensures n == 0 ==> s == "0"
    ensures n > 0 ==> s[0] != '0'
    decreases n
  {
    if n < 10 then [DigitChar(n)] else NatToString(n / 10) + [DigitChar(n % 10)]
  }

  /** The number a string of decimal digits denotes. */
  function DecimalValue(s: string): nat
    requires forall i :: 0 <= i < |s| ==> '0' <= s[i] <= '9'
    decreases |s|
  {
    if s == [] then 0 else 10 * DecimalValue(s[..|s| - 1]) + (s[|s| - 1] as int - '0' as int)
  }

  /** Rendering a number and reading it back gives the number. */
  lemma {:induction false} DecimalRoundTrip(n: nat)
    ensures DecimalValue(NatToString(n)) == n
    decreases n
  {
    if n >= 10 {
      DecimalRoundTrip(n / 10);
      var s := NatToString(n);
      assert s[..|s| - 1] == NatToString(n / 10);
    }
  }

  /**
   * `str(i)` for any integer: the decimal digits of `|i|` without leading
   * zeros, after a minus sign when `i` is negative.
   */
  function IntToString(i: int): (s: string)
    ensures |s| >= 1
    ensures i < 0 <==> s[0] == '-'
    ensures i >= 0 ==>
      && (forall k :: 0 <= k < |s| ==> '0' <= s[k] <= '9')
      && DecimalValue(s) == i
      && (|s| > 1 ==> s[0] != '0')
    ensures i < 0 ==>
      && |s| > 1
      && (forall k :: 0 <= k < |s[1..]| ==> '0' <= s[1..][k] <= '9')
      && DecimalValue(s[1..]) == -i
      && s[1] != '0'
  {
    if i < 0 then
      DecimalRoundTrip(-i);
      assert ("-" + NatToString(-i))[1..] == NatToString(-i);
      "-" + NatToString(-i)
    else
      DecimalRoundTrip(i);
      NatToString(i)
  }
}
