/** `clean_chunk` (backend/scraper.py): the whitespace normaliser applied to
    every chunk before it is embedded and stored. */
module Clean {
  import opened Strings

  /** A line as `clean_chunk` emits it: non-empty, trimmed, one line. */
  predicate IsCleanLine(l: string) {
    l != "" && IsStripped(l) && NoLineBreak(l)
  }

  /** `[line.strip() for line in lines if line.strip()]`. */
  function KeptLines(lines: seq<string>): (kept: seq<string>)
    ensures |kept| <= |lines|
    ensures (forall l :: l in lines ==> NoLineBreak(l)) ==> forall k :: k in kept ==> IsCleanLine(k)
    ensures kept == [] <==> forall l :: l in lines ==> AllSpace(l)
  {
    if lines == [] then []
    else
      var rest := KeptLines(lines[1..]);
      assert forall l :: l in lines[1..] ==> l in lines;
      assert forall l :: l in lines ==> l == lines[0] || l in lines[1..];
      if Strip(lines[0]) != "" then [Strip(lines[0])] + rest else rest
  }

  /** The kept lines of `a + b` are those of `a` followed by those of `b`:
      the surviving lines keep their relative order. */
  lemma {:induction false} KeptLinesAppend(a: seq<string>, b: seq<string>)
    ensures KeptLines(a + b) == KeptLines(a) + KeptLines(b)
  {
    if a != [] {
      assert (a + b)[1..] == a[1..] + b;
      KeptLinesAppend(a[1..], b);
    } else {
      assert a + b == b;
    }
  }

  /** Lines that are already clean are all kept, unchanged. */
  lemma {:induction false} KeptLinesOfClean(lines: seq<string>)
    requires forall l :: l in lines ==> IsCleanLine(l)
    ensures KeptLines(lines) == lines
  {
    if lines != [] {
      assert lines[0] in lines;
      assert forall l :: l in lines[1..] ==> l in lines;
      KeptLinesOfClean(lines[1..]);
    }
  }

  /** `clean_chunk(chunk)`: split into lines, strip each, drop the empty
      ones, rejoin with `"\n"`. Empty exactly for blank input. */
  function CleanChunk(chunk: string): (cleaned: string)
    ensures cleaned == "" <==> AllSpace(chunk)
  {
    var kept := KeptLines(SplitLines(chunk));
    JoinEmpty("\n", kept);
    AllSpaceByLines(chunk);
    Join("\n", kept)
  }

  /** The lines of the cleaned text are the stripped non-blank lines of the
      input, in their order; each is non-empty, trimmed and a single line. */
  lemma LinesOfCleanChunk(chunk: string)
    ensures SplitLines(CleanChunk(chunk)) == KeptLines(SplitLines(chunk))
    ensures forall l :: l in SplitLines(CleanChunk(chunk)) ==> IsCleanLine(l)
  {
    SplitLinesOfJoin(KeptLines(SplitLines(chunk)));
  }

  /** Cleaning twice is cleaning once. */
  lemma CleanChunkIdempotent(chunk: string)
    ensures CleanChunk(CleanChunk(chunk)) == CleanChunk(chunk)
  {
    var kept := KeptLines(SplitLines(chunk));
    LinesOfCleanChunk(chunk);
    KeptLinesOfClean(kept);
  }
}
