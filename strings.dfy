/** The parts of Python's `str` that the backend relies on: whitespace,
    `strip()`, `splitlines()`, `sep.join(...)`, the `in` substring test and
    `str(n)` for integers. Strings are sequences of code points. */
module Strings {

  /** `c.isspace()`: the characters Python's `strip()` removes. */
  predicate IsSpace(c: char) {
    || ('\t' <= c <= '\r')          // \t \n \v \f \r
    || ('\U{1C}' <= c <= ' ')       // file, group, record, unit separators; space
    || c == '\U{85}' || c == '\U{A0}' || c == '\U{1680}'
    || ('\U{2000}' <= c <= '\U{200A}')
    || c == '\U{2028}' || c == '\U{2029}' || c == '\U{202F}' || c == '\U{205F}'
    || c == '\U{3000}'
  }

  /** The line boundaries `splitlines()` splits on (`\r\n` counts as one). */
  predicate IsLineBreak(c: char) {
    || ('\n' <= c <= '\r')          // \n \v \f \r
    || ('\U{1C}' <= c <= '\U{1E}')
    || c == '\U{85}' || c == '\U{2028}' || c == '\U{2029}'
  }

  predicate AllSpace(s: string) {
    forall i :: 0 <= i < |s| ==> IsSpace(s[i])
  }

  predicate NoLineBreak(s: string) {
    forall i :: 0 <= i < |s| ==> !IsLineBreak(s[i])
  }

  /** Neither end of `s` is whitespace: what `strip()` leaves. */
  predicate IsStripped(s: string) {
    s == [] || (!IsSpace(s[0]) && !IsSpace(s[|s| - 1]))
  }

  /** `s.lstrip()`: the suffix of `s` left once leading whitespace is gone. */
  function StripLeft(s: string): (r: string)
    ensures |r| <= |s| && r == s[|s| - |r|..]
    ensures AllSpace(s[..|s| - |r|])
    ensures r == [] || !IsSpace(r[0])
  {
    if s != [] && IsSpace(s[0]) then
      var r := StripLeft(s[1..]);
      assert forall i :: 0 <= i < |s| - |r| ==> IsSpace(s[i]) by {
        forall i | 0 <= i < |s| - |r| ensures IsSpace(s[i]) {
          if i > 0 { assert s[i] == s[1..][..|s| - 1 - |r|][i - 1]; }
        }
      }
      r
    else s
  }

  /** `s.rstrip()`: the prefix of `s` left once trailing whitespace is gone. */
  function StripRight(s: string): (r: string)
    ensures |r| <= |s| && r == s[..|r|]
    ensures AllSpace(s[|r|..])
    ensures r == [] || !IsSpace(r[|r| - 1])
  {
    if s != [] && IsSpace(s[|s| - 1]) then
      var t := s[..|s| - 1];
      var r := StripRight(t);
      assert forall i :: |r| <= i < |s| ==> IsSpace(s[i]) by {
        forall i | |r| <= i < |s| ensures IsSpace(s[i]) {
          if i < |s| - 1 { assert s[i] == t[|r|..][i - |r|]; }
        }
      }
      r
    else s
  }

  /** `s.strip()`. */
  function Strip(s: string): (r: string)
    ensures IsStripped(r)
    ensures r == [] <==> AllSpace(s)
    ensures NoLineBreak(s) ==> NoLineBreak(r)
    ensures IsStripped(s) ==> r == s
  {
    var left := StripLeft(s);
    var r := StripRight(left);
    StripBothEnds(s);
    StripBlank(s);
    StripStripped(s);
    StripNoLineBreak(s);
    r
  }

  lemma StripNoLineBreak(s: string)
    ensures NoLineBreak(s) ==> NoLineBreak(StripRight(StripLeft(s)))
  {
    var left := StripLeft(s);
    var r := StripRight(left);
    if NoLineBreak(s) {
      forall i | 0 <= i < |r| ensures !IsLineBreak(r[i]) {
        assert r[i] == left[i] == s[|s| - |left| + i];
      }
    }
  }

  lemma StripBothEnds(s: string)
    ensures IsStripped(StripRight(StripLeft(s)))
  {
    var left := StripLeft(s);
    var r := StripRight(left);
    if r != [] { assert r[0] == left[0]; }
  }

  lemma StripBlank(s: string)
    ensures StripRight(StripLeft(s)) == [] <==> AllSpace(s)
  {
    var left := StripLeft(s);
    var r := StripRight(left);
    var a := |s| - |left|;
    if left != [] {
      assert s[a] == left[0];
      assert !AllSpace(left[0..]) by { assert left[0..][0] == left[0]; }
      assert |r| > 0;
    } else {
      assert s[..a] == s;
    }
  }

  lemma StripStripped(s: string)
    ensures IsStripped(s) ==> StripRight(StripLeft(s)) == s
  {
    if IsStripped(s) && s != [] {
      var left := StripLeft(s);
      assert left == s;
      assert s[|s| - 1] == left[|left| - 1];
    }
  }

  /** The length of the first line of `s`: the index of its first line break,
      or `|s|` when there is none. */
  function LineEnd(s: string): (k: nat)
    ensures k <= |s|
    ensures NoLineBreak(s[..k])
    ensures k < |s| ==> IsLineBreak(s[k])
  {
    if s == [] || IsLineBreak(s[0]) then 0
    else
      var k := 1 + LineEnd(s[1..]);
      assert s[..k] == [s[0]] + s[1..][..k - 1];
      k
  }

  /** Where the line that ends at index `k` of `s` is followed by the next one:
      past the break, and past both characters of a `\r\n`. */
  function NextLineStart(s: string, k: nat): (next: nat)
    requires k < |s|
    ensures k < next <= |s|
  {
    if s[k] == '\r' && k + 1 < |s| && s[k + 1] == '\n' then k + 2 else k + 1
  }

  /** `s.splitlines()`: the lines of `s` without their line breaks; a final
      line break does not start an empty last line. */
  function SplitLines(s: string): (lines: seq<string>)
    ensures forall l :: l in lines ==> NoLineBreak(l)
    decreases |s|
  {
    if s == [] then []
    else
      var k := LineEnd(s);
      if k == |s| then [s]
      else [s[..k]] + SplitLines(s[NextLineStart(s, k)..])
  }

  /** `sep.join(parts)`. */
  function Join(sep: string, parts: seq<string>): string {
    if parts == [] then ""
    else if |parts| == 1 then parts[0]
    else parts[0] + sep + Join(sep, parts[1..])
  }

  /** The Python test `sub in s`: `sub` occurs in `s` as a contiguous substring. */
  predicate Contains(s: string, sub: string) {
    exists i :: 0 <= i <= |s| - |sub| && OccursAt(s, sub, i)
  }

  predicate OccursAt(s: string, sub: string, i: int) {
    0 <= i <= |s| - |sub| && s[i..i + |sub|] == sub
  }

  function DigitChar(d: nat): (c: char)
    requires d < 10
    ensures '0' <= c <= '9'
  {
    "0123456789"[d]
  }

  function DigitValue(c: char): int {
    c as int - '0' as int
  }

  /** `str(n)` for a natural number: decimal digits, no leading zero. */
  function NatToString(n: nat): (s: string)
    ensures |s| > 0
    ensures forall i :: 0 <= i < |s| ==> '0' <= s[i] <= '9'
    ensures |s| > 1 ==> s[0] != '0'
  {
    if n < 10 then [DigitChar(n)] else NatToString(n / 10) + [DigitChar(n % 10)]
  }

  /** `str(i)` for any integer. */
  function IntToString(i: int): string {
    if i < 0 then "-" + NatToString(-i) else NatToString(i)
  }

  /** The number a string of decimal digits denotes. */
  function DecimalValue(s: string): int {
    if s == [] then 0 else DecimalValue(s[..|s| - 1]) * 10 + DigitValue(s[|s| - 1])
  }

  /** Reading back what `NatToString` writes gives the number again. */
  lemma {:induction false} DecimalRoundTrip(n: nat)
    ensures DecimalValue(NatToString(n)) == n
  {
    var s := NatToString(n);
    if n >= 10 {
      DecimalRoundTrip(n / 10);
      assert s[..|s| - 1] == NatToString(n / 10);
    }
  }

  /** A string all of whose characters are whitespace is all whitespace line
      by line, and back again: line breaks are themselves whitespace. */
  lemma {:induction false} AllSpaceByLines(s: string)
    ensures AllSpace(s) <==> forall l :: l in SplitLines(s) ==> AllSpace(l)
    decreases |s|
  {
    if s != [] {
      var k := LineEnd(s);
      if k < |s| {
        var next := NextLineStart(s, k);
        var line, brk, rest := s[..k], s[k..next], s[next..];
        AllSpaceByLines(rest);
        assert s == line + brk + rest;
        AllSpaceAppend(line, brk);
        AllSpaceAppend(line + brk, rest);
        BreakIsSpace(s, k);
        assert SplitLines(s) == [line] + SplitLines(rest);
        assert forall l :: l in SplitLines(s) <==> l == line || l in SplitLines(rest);
      }
    }
  }

  /** A line break, `\r\n` included, is whitespace. */
  lemma BreakIsSpace(s: string, k: nat)
    requires k < |s| && IsLineBreak(s[k])
    ensures AllSpace(s[k..NextLineStart(s, k)])
  {
    var brk := s[k..NextLineStart(s, k)];
    assert IsSpace(s[k]);
    if |brk| == 1 {
      assert brk == [s[k]];
    } else {
      assert brk == [s[k], '\n'];
    }
  }

  lemma AllSpaceAppend(a: string, b: string)
    ensures AllSpace(a + b) <==> AllSpace(a) && AllSpace(b)
  {
    if AllSpace(a + b) {
      forall i | 0 <= i < |a| ensures IsSpace(a[i]) { assert a[i] == (a + b)[i]; }
      forall i | 0 <= i < |b| ensures IsSpace(b[i]) { assert b[i] == (a + b)[|a| + i]; }
    }
  }

  /** Joining non-empty parts gives the empty string only for no parts. */
  lemma JoinEmpty(sep: string, parts: seq<string>)
    requires forall p :: p in parts ==> p != ""
    ensures Join(sep, parts) == "" <==> parts == []
  {
    if parts != [] {
      assert parts[0] in parts;
      if |parts| > 1 {
        assert Join(sep, parts) == parts[0] + sep + Join(sep, parts[1..]);
      }
    }
  }

  /** Splitting the newline-join of non-empty, break-free lines gives the
      lines back. */
  lemma {:induction false} SplitLinesOfJoin(lines: seq<string>)
    requires forall l :: l in lines ==> l != "" && NoLineBreak(l)
    ensures SplitLines(Join("\n", lines)) == lines
  {
    if |lines| == 1 {
      var l := lines[0];
      assert l in lines;
      assert LineEnd(l) == |l| by { LineEndOfBreakFree(l); }
    } else if |lines| > 1 {
      var l := lines[0];
      assert l in lines;
      var rest := Join("\n", lines[1..]);
      var tail := "\n" + rest;
      var s := l + tail;
      assert Join("\n", lines) == s;
      assert s[..|l|] == l;
      assert tail[0] == '\n';
      assert LineEnd(s) == |l| by { LineEndOfLine(l, tail); }
      assert NextLineStart(s, |l|) == |l| + 1;
      assert s[|l| + 1..] == rest;
      assert forall x :: x in lines[1..] ==> x in lines;
      SplitLinesOfJoin(lines[1..]);
      assert lines == [l] + lines[1..];
    }
  }

  lemma {:induction false} LineEndOfBreakFree(l: string)
    requires NoLineBreak(l)
    ensures LineEnd(l) == |l|
    decreases |l|
  {
    if l != [] {
      LineEndOfBreakFree(l[1..]);
    }
  }

  /** The first line of `l + tail` is `l` when `l` has no break and `tail`
      starts with one. */
  lemma {:induction false} LineEndOfLine(l: string, tail: string)
    requires NoLineBreak(l)
    requires tail != [] && IsLineBreak(tail[0])
    ensures LineEnd(l + tail) == |l|
    decreases |l|
  {
    var s := l + tail;
    if l == [] {
      assert s == tail;
    } else {
      assert s[0] == l[0] && !IsLineBreak(l[0]);
      assert s[1..] == l[1..] + tail;
      assert NoLineBreak(l[1..]) by {
        forall i | 0 <= i < |l| - 1 ensures !IsLineBreak(l[1..][i]) { assert l[1..][i] == l[i + 1]; }
      }
      LineEndOfLine(l[1..], tail);
      assert LineEnd(s) == 1 + LineEnd(s[1..]);
    }
  }

  /** An occurrence stays an occurrence when text is added in front. */
  lemma OccursAfterPrefix(prefix: string, s: string, sub: string, i: int)
    requires OccursAt(s, sub, i)
    ensures OccursAt(prefix + s, sub, |prefix| + i)
  {
    assert (prefix + s)[|prefix| + i..|prefix| + i + |sub|] == s[i..i + |sub|];
  }

  /** Each part occurs in the join of the parts, whatever the separator. */
  lemma {:induction false} JoinContainsParts(sep: string, parts: seq<string>)
    ensures forall i :: 0 <= i < |parts| ==> Contains(Join(sep, parts), parts[i])
  {
    if |parts| == 1 {
      assert OccursAt(parts[0], parts[0], 0);
    } else if |parts| > 1 {
      var rest := Join(sep, parts[1..]);
      var joined := parts[0] + sep + rest;
      assert Join(sep, parts) == joined;
      JoinContainsParts(sep, parts[1..]);
      forall i | 0 <= i < |parts| ensures Contains(joined, parts[i]) {
        if i == 0 {
          assert joined[0..|parts[0]|] == parts[0];
          assert OccursAt(joined, parts[0], 0);
        } else {
          assert parts[i] == parts[1..][i - 1];
          var j :| 0 <= j <= |rest| - |parts[i]| && OccursAt(rest, parts[i], j);
          OccursAfterPrefix(parts[0] + sep, rest, parts[i], j);
        }
      }
    }
  }
}
