/** `process_and_store_url` (backend/scraper.py): fetch a page as text, split
    it into chunks, and embed and store each cleaned chunk, where a failure on
    one chunk is reported and the next chunk is still processed. The
    splitter, the embedding service and the table insert are oracles; the
    model records every call made to the two remote services, with its reply. */
module Ingest {
  import opened Exceptions
  import opened Strings
  import opened Fetch
  import opened Clean

  /** An embedding; the values are opaque. */
  type Vector = seq<real>

  /** The row `insert_chunk` writes: the page, the cleaned chunk, its embedding. */
  datatype StoredRecord = StoredRecord(url: string, content: string, embedding: Vector)

  /** A call to a remote service made while storing a page, with its reply.
      `chunk` is the 1-based chunk number of `enumerate(chunks, start=1)`. */
  datatype RemoteCall =
    | Embed(chunk: nat, text: string, embedded: Outcome<Vector>)
    | Insert(chunk: nat, record: StoredRecord, inserted: Outcome<()>)
  {
    predicate Succeeded() {
      if Embed? then embedded.Ok? else inserted.Ok?
    }
  }

  /** The splitter (`split_into_chunks`), and the answers of the embedding
      service and of the table to the call made for chunk number `n`. */
  datatype Services = Services(
    split: string -> seq<string>,
    embed: (nat, string) -> Outcome<Vector>,
    insert: (nat, StoredRecord) -> Outcome<()>)

  /** One "Failed to embed/insert chunk i of n" line. */
  datatype ChunkFailure = ChunkFailure(chunk: nat, total: nat, message: string)

  /** How `process_and_store_url` ends: it never raises. Either it went
      through the chunks, reporting the ones that failed, or the fetch raised
      and "Failed to process" was printed. */
  datatype Report = Processed(failures: seq<ChunkFailure>) | Failed(message: string)

  /** `clean_chunk` applied to every chunk. */
  function Cleaned(chunks: seq<string>): (texts: seq<string>)
    ensures |texts| == |chunks|
    ensures forall i :: 0 <= i < |chunks| ==> texts[i] == CleanChunk(chunks[i])
  {
    seq(|chunks|, i requires 0 <= i < |chunks| => CleanChunk(chunks[i]))
  }

  /** The calls made for chunk number `n`, whose cleaned text is
      `texts[n - 1]`: none when that is empty; otherwise the embedding of the
      text and, when that succeeds, the insert of the text with its embedding. */
  function ChunkCalls(url: string, texts: seq<string>, s: Services, n: nat): (calls: seq<RemoteCall>)
    requires 1 <= n <= |texts|
    ensures calls == [] <==> texts[n - 1] == ""
    ensures |calls| <= 2
    ensures forall c :: c in calls ==> c.chunk == n
  {
    var text := texts[n - 1];
    if text == "" then []
    else
      var embedded := s.embed(n, text);
      match embedded
      case Raised(_) => [Embed(n, text, embedded)]
      case Ok(e) =>
        var record := StoredRecord(url, text, e);
        [Embed(n, text, embedded), Insert(n, record, s.insert(n, record))]
  }

  /** The calls made for the first `k` chunks, in order, given their cleaned
      texts. */
  function Trace(url: string, texts: seq<string>, s: Services, k: nat): seq<RemoteCall>
    requires k <= |texts|
  {
    if k == 0 then [] else Trace(url, texts, s, k - 1) + ChunkCalls(url, texts, s, k)
  }

  /** The records stored by `calls`: those of the inserts that succeeded. */
  function Stored(calls: seq<RemoteCall>): seq<StoredRecord> {
    if calls == [] then []
    else
      match calls[0]
      case Insert(_, record, Ok(_)) => [record] + Stored(calls[1..])
      case _ => Stored(calls[1..])
  }

  /** The failure lines printed for `calls` out of `total` chunks. */
  function Failures(calls: seq<RemoteCall>, total: nat): seq<ChunkFailure> {
    if calls == [] then []
    else
      match calls[0]
      case Embed(n, _, Raised(m)) => [ChunkFailure(n, total, m)] + Failures(calls[1..], total)
      case Insert(n, _, Raised(m)) => [ChunkFailure(n, total, m)] + Failures(calls[1..], total)
      case _ => Failures(calls[1..], total)
  }

  /** One failure line per failed call: none exactly when every call succeeded. */
  lemma {:induction false} FailuresExactly(calls: seq<RemoteCall>, total: nat)
    ensures |Failures(calls, total)| <= |calls|
    ensures Failures(calls, total) == [] <==> forall c :: c in calls ==> c.Succeeded()
  {
    if calls != [] {
      FailuresExactly(calls[1..], total);
      assert calls[0] in calls;
      assert forall c :: c in calls[1..] ==> c in calls;
      assert forall c :: c in calls ==> c == calls[0] || c in calls[1..];
    }
  }

  lemma {:induction false} StoredAppend(a: seq<RemoteCall>, b: seq<RemoteCall>)
    ensures Stored(a + b) == Stored(a) + Stored(b)
  {
    if a == [] {
      assert a + b == b;
    } else {
      assert (a + b)[1..] == a[1..] + b;
      StoredAppend(a[1..], b);
    }
  }

  lemma {:induction false} FailuresAppend(a: seq<RemoteCall>, b: seq<RemoteCall>, total: nat)
    ensures Failures(a + b, total) == Failures(a, total) + Failures(b, total)
  {
    if a == [] {
      assert a + b == b;
    } else {
      assert (a + b)[1..] == a[1..] + b;
      FailuresAppend(a[1..], b, total);
    }
  }

  /** What `process_and_store_url(url)` does, given the proxy and the
      services. It fetches the page as text with the default attempts; if
      that raises, it stops with no call to either service. Otherwise it
      makes the calls of every chunk in turn, whatever became of the earlier
      ones, and reports each failed call. */
  method ProcessAndStoreUrl(jina: JinaClient, url: string, s: Services) returns (report: Report, calls: seq<RemoteCall>)
    ensures var page := FetchResult(jina.serve, JinaRequest(jina, url, "text"), DefaultRetries, 0);
      && (page.Raised? ==> report == Failed(page.message) && calls == [])
      && (page.Ok? ==>
            var chunks := s.split(page.value);
            && calls == Trace(url, Cleaned(chunks), s, |chunks|)
            && report == Processed(Failures(calls, |chunks|)))
  {
    var text, _, _ := FetchJina(jina, url, DefaultRetries, DefaultDelay, "text");
    if text.Raised? {
      return Failed(text.message), [];
    }
    var chunks := s.split(text.value);
    ghost var texts := Cleaned(chunks);
    var failures: seq<ChunkFailure> := [];
    calls := [];
    for i := 0 to |chunks|
      invariant calls == Trace(url, texts, s, i)
      invariant failures == Failures(calls, |chunks|)
    {
      var n := i + 1;
      var cleaned := CleanChunk(chunks[i]);
      var made: seq<RemoteCall> := [];
      if cleaned != "" {
        var embedded := s.embed(n, cleaned);
        match embedded {
          case Raised(m) =>
            made := [Embed(n, cleaned, embedded)];
          case Ok(e) =>
            var record := StoredRecord(url, cleaned, e);
            var inserted := s.insert(n, record);
            made := [Embed(n, cleaned, embedded), Insert(n, record, inserted)];
        }
      }
      assert made == ChunkCalls(url, texts, s, n);
      FailuresAppend(calls, made, |chunks|);
      failures := failures + Failures(made, |chunks|);
      calls := calls + made;
    }
    report := Processed(failures);
  }

  /** The record chunk number `n` leaves in the table, if any: one whose
      cleaned text is not empty, and whose embedding and then insert both
      succeed. */
  function ChunkRecord(url: string, texts: seq<string>, s: Services, n: nat): Option<StoredRecord>
    requires 1 <= n <= |texts|
  {
    var text := texts[n - 1];
    if text == "" then None
    else match s.embed(n, text)
      case Raised(_) => None
      case Ok(e) =>
        var record := StoredRecord(url, text, e);
        if s.insert(n, record).Ok? then Some(record) else None
  }

  lemma StoredOfChunk(url: string, texts: seq<string>, s: Services, n: nat)
    requires 1 <= n <= |texts|
    ensures Stored(ChunkCalls(url, texts, s, n)) ==
      match ChunkRecord(url, texts, s, n) case None => [] case Some(r) => [r]
  {
    var calls := ChunkCalls(url, texts, s, n);
    if calls != [] {
      assert Stored(calls) == Stored(calls[1..]);
      if |calls| == 2 {
        var rest := calls[1..];
        assert rest == [calls[1]] && rest[1..] == [];
        if calls[1].inserted.Ok? {
          assert Stored(rest) == [calls[1].record];
        } else {
          assert Stored(rest) == [];
        }
      }
    }
  }

  /** The records the first `k` chunks leave in the table, chunk by chunk. */
  function Records(url: string, texts: seq<string>, s: Services, k: nat): seq<StoredRecord>
    requires k <= |texts|
  {
    if k == 0 then []
    else Records(url, texts, s, k - 1) + match ChunkRecord(url, texts, s, k) case None => [] case Some(r) => [r]
  }

  /** The inserts that succeed in the trace store exactly the chunks' records,
      in chunk order. */
  lemma {:induction false} StoredIsRecords(url: string, texts: seq<string>, s: Services, k: nat)
    requires k <= |texts|
    ensures Stored(Trace(url, texts, s, k)) == Records(url, texts, s, k)
  {
    if k > 0 {
      var before, last := Trace(url, texts, s, k - 1), ChunkCalls(url, texts, s, k);
      assert Trace(url, texts, s, k) == before + last;
      StoredIsRecords(url, texts, s, k - 1);
      StoredAppend(before, last);
      StoredOfChunk(url, texts, s, k);
    }
  }

  lemma {:induction false} RecordsExactly(url: string, texts: seq<string>, s: Services, k: nat, r: StoredRecord)
    requires k <= |texts|
    ensures r in Records(url, texts, s, k) <==> exists n :: 1 <= n <= k && ChunkRecord(url, texts, s, n) == Some(r)
  {
    if k > 0 {
      RecordsExactly(url, texts, s, k - 1, r);
      if r in Records(url, texts, s, k - 1) {
        var n :| 1 <= n <= k - 1 && ChunkRecord(url, texts, s, n) == Some(r);
        assert 1 <= n <= k;
      }
      if exists n :: 1 <= n <= k && ChunkRecord(url, texts, s, n) == Some(r) {
        var n :| 1 <= n <= k && ChunkRecord(url, texts, s, n) == Some(r);
        if n < k {
          assert r in Records(url, texts, s, k - 1);
        }
      }
    }
  }

  /** A record is stored exactly when it is the record of one of the chunks. */
  lemma StoredExactly(url: string, texts: seq<string>, s: Services, k: nat, r: StoredRecord)
    requires k <= |texts|
    ensures r in Stored(Trace(url, texts, s, k)) <==>
      exists n :: 1 <= n <= k && ChunkRecord(url, texts, s, n) == Some(r)
  {
    StoredIsRecords(url, texts, s, k);
    RecordsExactly(url, texts, s, k, r);
  }

  /** The record of a chunk holds its cleaned text, which cleaning leaves as
      it is. */
  lemma ChunkRecordClean(url: string, chunks: seq<string>, s: Services, n: nat, r: StoredRecord)
    requires 1 <= n <= |chunks| && ChunkRecord(url, Cleaned(chunks), s, n) == Some(r)
    ensures r.url == url && r.content == CleanChunk(chunks[n - 1]) != ""
    ensures CleanChunk(r.content) == r.content
  {
    var texts := Cleaned(chunks);
    assert r.content == texts[n - 1] == CleanChunk(chunks[n - 1]);
    CleanChunkIdempotent(chunks[n - 1]);
  }

  /** Every record stored for a page belongs to that page, and its content is
      a non-empty cleaned chunk, which cleaning leaves as it is. */
  lemma StoredRecordsClean(url: string, chunks: seq<string>, s: Services)
    ensures forall r :: r in Stored(Trace(url, Cleaned(chunks), s, |chunks|)) ==>
      r.url == url && r.content != "" && CleanChunk(r.content) == r.content
  {
    var texts := Cleaned(chunks);
    forall r | r in Stored(Trace(url, texts, s, |chunks|))
      ensures r.url == url && r.content != "" && CleanChunk(r.content) == r.content
    {
      StoredExactly(url, texts, s, |chunks|, r);
      var n :| 1 <= n <= |chunks| && ChunkRecord(url, texts, s, n) == Some(r);
      ChunkRecordClean(url, chunks, s, n, r);
    }
  }

  /** Every call is numbered by its chunk, and the numbers never go down:
      the chunks are processed in order. */
  lemma {:induction false} TraceInChunkOrder(url: string, texts: seq<string>, s: Services, k: nat)
    requires k <= |texts|
    ensures forall c :: c in Trace(url, texts, s, k) ==> 1 <= c.chunk <= k
    ensures forall i, j :: 0 <= i < j < |Trace(url, texts, s, k)| ==>
      Trace(url, texts, s, k)[i].chunk <= Trace(url, texts, s, k)[j].chunk
  {
    if k > 0 {
      TraceInChunkOrder(url, texts, s, k - 1);
      var before := Trace(url, texts, s, k - 1);
      var last := ChunkCalls(url, texts, s, k);
      var t := before + last;
      forall i | 0 <= i < |t| ensures 1 <= t[i].chunk <= k {
        if i < |before| { assert t[i] in before; } else { assert t[i] in last; }
      }
      forall i, j | 0 <= i < j < |t| ensures t[i].chunk <= t[j].chunk {
        if j >= |before| {
          assert t[j] in last;
          if i < |before| { assert t[i] in before; } else { assert t[i] in last; }
        }
      }
    }
  }

  /** The call at position `p` of a trace is about the cleaned text of its
      chunk: an embedding asks for that text, never empty; an insert stores it
      with the embedding just returned for it, and comes right after that
      embedding. */
  ghost predicate CallWellFormed(url: string, texts: seq<string>, s: Services, t: seq<RemoteCall>, p: nat)
    requires p < |t|
  {
    var c := t[p];
    && 1 <= c.chunk <= |texts|
    && var text := texts[c.chunk - 1];
    && (c.Embed? ==> c.text == text != "" && c.embedded == s.embed(c.chunk, text))
    && (c.Insert? ==>
          && p > 0
          && t[p - 1] == Embed(c.chunk, text, Ok(c.record.embedding))
          && c.record == StoredRecord(url, text, c.record.embedding)
          && c.inserted == s.insert(c.chunk, c.record))
  }

  lemma {:induction false} TraceWellFormed(url: string, texts: seq<string>, s: Services, k: nat)
    requires k <= |texts|
    ensures forall p :: 0 <= p < |Trace(url, texts, s, k)| ==> CallWellFormed(url, texts, s, Trace(url, texts, s, k), p)
  {
    if k > 0 {
      TraceWellFormed(url, texts, s, k - 1);
      var before := Trace(url, texts, s, k - 1);
      var last := ChunkCalls(url, texts, s, k);
      var t := before + last;
      forall p | 0 <= p < |t| ensures CallWellFormed(url, texts, s, t, p) {
        if p < |before| {
          assert CallWellFormed(url, texts, s, before, p);
          assert t[p] == before[p];
          if p > 0 { assert t[p - 1] == before[p - 1]; }
        } else {
          assert t[p] == last[p - |before|];
          if p > |before| { assert t[p - 1] == last[p - 1 - |before|]; }
        }
      }
    }
  }

  /** A failure on one chunk does not stop the others: every chunk whose
      cleaned text is not empty has that text sent for embedding, and a chunk
      whose cleaned text is empty causes no call. */
  lemma {:induction false} EveryTextAttempted(url: string, texts: seq<string>, s: Services, k: nat, n: nat)
    requires k <= |texts| && 1 <= n <= k
    ensures texts[n - 1] != "" ==> Embed(n, texts[n - 1], s.embed(n, texts[n - 1])) in Trace(url, texts, s, k)
    ensures texts[n - 1] == "" ==> forall c :: c in Trace(url, texts, s, k) ==> c.chunk != n
  {
    var before, last := Trace(url, texts, s, k - 1), ChunkCalls(url, texts, s, k);
    assert Trace(url, texts, s, k) == before + last;
    if n < k {
      EveryTextAttempted(url, texts, s, k - 1, n);
    } else {
      TraceInChunkOrder(url, texts, s, k - 1);
      if texts[n - 1] != "" {
        assert last[0] == Embed(n, texts[n - 1], s.embed(n, texts[n - 1]));
      }
    }
  }

  /** In terms of the raw chunks: a chunk that is not blank is always sent
      for embedding, cleaned, whatever became of the other chunks; a blank
      chunk is never sent anywhere. */
  lemma EveryChunkAttempted(url: string, chunks: seq<string>, s: Services, n: nat)
    requires 1 <= n <= |chunks|
    ensures var t := Trace(url, Cleaned(chunks), s, |chunks|);
      && (!AllSpace(chunks[n - 1]) ==> Embed(n, CleanChunk(chunks[n - 1]), s.embed(n, CleanChunk(chunks[n - 1]))) in t)
      && (AllSpace(chunks[n - 1]) ==> forall c :: c in t ==> c.chunk != n)
  {
    EveryTextAttempted(url, Cleaned(chunks), s, |chunks|, n);
  }

  /** Three chunks with non-empty cleaned texts, where only the embedding of
      the second one raises: the first and third are stored, in that order,
      and one failure line is printed, for chunk 2 of 3. */
  lemma SecondEmbedFails(url: string, texts: seq<string>, s: Services, m: string)
    requires |texts| == 3 && texts[0] != "" && texts[1] != "" && texts[2] != ""
    requires s.embed(2, texts[1]) == Raised(m)
    requires s.embed(1, texts[0]).Ok? && s.embed(3, texts[2]).Ok?
    requires forall n, r :: s.insert(n, r) == Ok(())
    ensures Stored(Trace(url, texts, s, 3)) == [
      StoredRecord(url, texts[0], s.embed(1, texts[0]).value),
      StoredRecord(url, texts[2], s.embed(3, texts[2]).value)]
    ensures Failures(Trace(url, texts, s, 3), 3) == [ChunkFailure(2, 3, m)]
  {
    var c1 := ChunkCalls(url, texts, s, 1);
    var c2 := ChunkCalls(url, texts, s, 2);
    var c3 := ChunkCalls(url, texts, s, 3);
    assert Trace(url, texts, s, 1) == c1;
    assert Trace(url, texts, s, 2) == c1 + c2;
    assert Trace(url, texts, s, 3) == c1 + c2 + c3;
    StoredAppend(c1, c2);
    StoredAppend(c1 + c2, c3);
    StoredOfChunk(url, texts, s, 1);
    StoredOfChunk(url, texts, s, 2);
    StoredOfChunk(url, texts, s, 3);
    FailuresAppend(c1, c2, 3);
    FailuresAppend(c1 + c2, c3, 3);
    assert c1[1..][1..] == [] && c3[1..][1..] == [];
  }
}
