/** `sorted(set(xs))` for strings: Python orders strings lexicographically by
    code point, a proper prefix first. */
module Sorting {

  /** Python's `a < b` on strings. */
  predicate Less(a: string, b: string)
    decreases |a|
  {
    |b| > 0 && (|a| == 0 || a[0] < b[0] || (a[0] == b[0] && Less(a[1..], b[1..])))
  }

  lemma {:induction false} LessIrreflexive(a: string)
    ensures !Less(a, a)
    decreases |a|
  {
    if |a| > 0 {
      LessIrreflexive(a[1..]);
    }
  }

  lemma {:induction false} LessTransitive(a: string, b: string, c: string)
    requires Less(a, b) && Less(b, c)
    ensures Less(a, c)
    decreases |a|
  {
    if |a| > 0 && a[0] == b[0] && b[0] == c[0] {
      LessTransitive(a[1..], b[1..], c[1..]);
    }
  }

  /** Two different strings are ordered one way or the other. */
  lemma {:induction false} LessTotal(a: string, b: string)
    requires a != b
    ensures Less(a, b) || Less(b, a)
    decreases |a|
  {
    if |a| > 0 && |b| > 0 && a[0] == b[0] {
      assert a == [a[0]] + a[1..] && b == [b[0]] + b[1..];
      LessTotal(a[1..], b[1..]);
    }
  }

  /** Strictly ascending: sorted, and no element twice. */
  predicate StrictlySorted(s: seq<string>) {
    forall i, j :: 0 <= i < j < |s| ==> Less(s[i], s[j])
  }

  /** Puts `x` into its place in a strictly sorted sequence, unless it is
      there already. */
  function InsertSorted(x: string, s: seq<string>): (r: seq<string>)
    requires StrictlySorted(s)
    ensures StrictlySorted(r)
    ensures forall u :: u in r <==> u == x || u in s
  {
    if s == [] then [x]
    else if x == s[0] then s
    else if Less(x, s[0]) then
      assert forall j :: 0 <= j < |s| ==> Less(x, s[j]) by {
        forall j | 0 <= j < |s| ensures Less(x, s[j]) {
          if j > 0 { LessTransitive(x, s[0], s[j]); }
        }
      }
      [x] + s
    else
      LessTotal(x, s[0]);
      var tail := InsertSorted(x, s[1..]);
      assert forall u :: u in tail ==> Less(s[0], u) by {
        forall u | u in tail ensures Less(s[0], u) {
          if u != x {
            var j :| 0 <= j < |s[1..]| && s[1..][j] == u;
            assert s[j + 1] == u;
          }
        }
      }
      [s[0]] + tail
  }

  /** `sorted(set(xs))`: the distinct elements of `xs`, ascending. */
  function SortedDistinct(xs: seq<string>): (r: seq<string>)
    ensures StrictlySorted(r)
    ensures forall u :: u in r <==> u in xs
  {
    if xs == [] then [] else InsertSorted(xs[0], SortedDistinct(xs[1..]))
  }

  /** No two strings are each below the other. */
  lemma {:induction false} LessAsymmetric(a: string, b: string)
    ensures !(Less(a, b) && Less(b, a))
    decreases |a|
  {
    if |a| > 0 && |b| > 0 && a[0] == b[0] {
      LessAsymmetric(a[1..], b[1..]);
    }
  }

  /** Every element of a strictly sorted sequence is its first or above it. */
  lemma FirstIsLeast(s: seq<string>, u: string)
    requires StrictlySorted(s) && u in s
    ensures u == s[0] || Less(s[0], u)
  {
    var j :| 0 <= j < |s| && s[j] == u;
    if j > 0 { assert Less(s[0], s[j]); }
  }

  /** A strictly sorted sequence is determined by its elements, so
      `SortedDistinct` is the only strictly sorted listing of a set. */
  lemma {:induction false} StrictlySortedUnique(a: seq<string>, b: seq<string>)
    requires StrictlySorted(a) && StrictlySorted(b)
    requires forall u :: u in a <==> u in b
    ensures a == b
    decreases |a|
  {
    if a != [] { assert a[0] in b; }
    if b != [] { assert b[0] in a; }
    if a != [] {
      FirstIsLeast(b, a[0]);
      FirstIsLeast(a, b[0]);
      LessAsymmetric(a[0], b[0]);
      assert a[0] == b[0];
      LessIrreflexive(a[0]);
      forall u ensures u in a[1..] <==> u in b[1..] {
        if u in a[1..] {
          var j :| 0 <= j < |a[1..]| && a[1..][j] == u;
          assert Less(a[0], a[j + 1]);
          assert u in b;
          var k :| 0 <= k < |b| && b[k] == u;
          assert b[1..][k - 1] == u;
        }
        if u in b[1..] {
          var j :| 0 <= j < |b[1..]| && b[1..][j] == u;
          assert Less(b[0], b[j + 1]);
          assert u in a;
          var k :| 0 <= k < |a| && a[k] == u;
          assert a[1..][k - 1] == u;
        }
      }
      StrictlySortedUnique(a[1..], b[1..]);
      assert a == [a[0]] + a[1..] && b == [b[0]] + b[1..];
    }
  }
}
