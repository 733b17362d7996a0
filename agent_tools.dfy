/** The tools of the parts agent (backend/agent.py): query embedding with a
    zero-vector fallback, vector search, the listing of stored product URLs
    and the retrieval of one page's chunks. Each tool turns every exception
    into a value, so none of them raises. The embedding service, the search
    procedure and the table are oracles that answer with rows or an
    exception. */
module AgentTools {
  import opened Exceptions
  import opened Strings
  import opened Sorting
  import opened Ingest

  /** The embedding model `get_embedding` asks for. */
  const EmbeddingModel := "text-embedding-3-small"
  /** The table the tools read: the one the ingest pipeline fills. */
  const ChunkTable := "partselect_chunks"
  /** The length of a `text-embedding-3-small` vector, and of the fallback. */
  const EmbeddingLength := 1536
  const MatchFunction := "match_partselect_chunks"
  const MatchCount := 5
  const NoMatches := "No relevant product content found."
  const SearchSeparator := "\n\n---\n\n"
  const SearchError := "Error during vector search: "
  const PageSeparator := "\n\n"
  const PageError := "Error retrieving page content: "

  /** The answer when the table holds no chunk of `url`. */
  function NoContentFor(url: string): string {
    "No content found for " + url
  }

  /** A row as the database returns it: column name to value. */
  type Row = map<string, string>

  /** `str(KeyError(key))`: the key in single quotes. */
  function KeyErrorMessage(key: string): string {
    "'" + key + "'"
  }

  /** `[row[key] for row in rows]`: the column's values in row order, or the
      `KeyError` of the first row that lacks the column. */
  function Column(rows: seq<Row>, key: string): (r: Outcome<seq<string>>)
    ensures r.Ok? <==> forall i :: 0 <= i < |rows| ==> key in rows[i]
    ensures r.Ok? ==> |r.value| == |rows| && forall i :: 0 <= i < |rows| ==> r.value[i] == rows[i][key]
    ensures r.Raised? ==> r.message == KeyErrorMessage(key)
  {
    if rows == [] then Ok([])
    else if key !in rows[0] then Raised(KeyErrorMessage(key))
    else match Column(rows[1..], key)
      case Raised(m) => Raised(m)
      case Ok(rest) => Ok([rows[0][key]] + rest)
  }

  /** `[0.0] * n`. */
  function Zeros(n: nat): (v: Vector)
    ensures |v| == n && forall i :: 0 <= i < n ==> v[i] == 0.0
  {
    seq(n, i => 0.0)
  }

  /** `get_embedding(text)`. `create(model, text)` is the list of embeddings
      the service returns, or the exception it raises. The first embedding is
      returned as it is; an exception, or a reply with no embedding at all
      (the `IndexError` of `data[0]`), gives 1536 zeros instead. */
  function GetEmbedding(text: string, create: (string, string) -> Outcome<seq<Vector>>): (v: Vector)
    ensures create(EmbeddingModel, text).Ok? && |create(EmbeddingModel, text).value| > 0 ==>
      v == create(EmbeddingModel, text).value[0]
    ensures !(create(EmbeddingModel, text).Ok? && |create(EmbeddingModel, text).value| > 0) ==>
      |v| == EmbeddingLength && forall i :: 0 <= i < |v| ==> v[i] == 0.0
  {
    match create(EmbeddingModel, text)
    case Ok(data) => if |data| > 0 then data[0] else Zeros(EmbeddingLength)
    case Raised(_) => Zeros(EmbeddingLength)
  }

  /** The call to the stored procedure that ranks chunks by similarity. */
  datatype MatchRequest = MatchRequest(procedure: string, queryEmbedding: Vector, matchCount: nat)

  /** `search_parts_content(query)`: the five chunks nearest the query's
      embedding, their contents joined by a `---` rule; a fixed message when
      nothing matches; the error text when the search raises. */
  function SearchPartsContent(query: string, create: (string, string) -> Outcome<seq<Vector>>,
                              rpc: MatchRequest -> Outcome<seq<Row>>): (answer: string)
    ensures var reply := rpc(MatchRequest(MatchFunction, GetEmbedding(query, create), MatchCount));
      && (reply.Raised? ==> answer == SearchError + reply.message)
      && (reply.Ok? && reply.value == [] ==> answer == NoMatches)
      && (reply.Ok? && reply.value != [] ==>
            match Column(reply.value, "content")
            case Ok(contents) => answer == Join(SearchSeparator, contents)
            case Raised(m) => answer == SearchError + KeyErrorMessage("content"))
  {
    var embedding := GetEmbedding(query, create);
    match rpc(MatchRequest(MatchFunction, embedding, MatchCount))
    case Raised(m) => SearchError + m
    case Ok(rows) =>
      if rows == [] then NoMatches
      else match Column(rows, "content")
        case Raised(m) => SearchError + m
        case Ok(contents) => Join(SearchSeparator, contents)
  }

  /** Every matched chunk appears, whole, in the search answer. */
  lemma SearchShowsEveryMatch(query: string, create: (string, string) -> Outcome<seq<Vector>>,
                              rpc: MatchRequest -> Outcome<seq<Row>>)
    ensures var reply := rpc(MatchRequest(MatchFunction, GetEmbedding(query, create), MatchCount));
      reply.Ok? && reply.value != [] && Column(reply.value, "content").Ok? ==>
        forall i :: 0 <= i < |reply.value| ==>
          Contains(SearchPartsContent(query, create, rpc), reply.value[i]["content"])
  {
    var reply := rpc(MatchRequest(MatchFunction, GetEmbedding(query, create), MatchCount));
    if reply.Ok? && reply.value != [] && Column(reply.value, "content").Ok? {
      var contents := Column(reply.value, "content").value;
      JoinContainsParts(SearchSeparator, contents);
      assert forall i :: 0 <= i < |reply.value| ==> reply.value[i]["content"] == contents[i];
    }
  }

  /** One matching chunk: the answer is that chunk's content exactly. */
  lemma SearchOneMatch(query: string, create: (string, string) -> Outcome<seq<Vector>>,
                       rpc: MatchRequest -> Outcome<seq<Row>>, content: string)
    requires rpc(MatchRequest(MatchFunction, GetEmbedding(query, create), MatchCount)) == Ok([map["content" := content]])
    ensures SearchPartsContent(query, create, rpc) == content
  {
    var rows := [map["content" := content]];
    assert "content" in rows[0];
    var column := Column(rows, "content");
    assert |column.value| == 1 && column.value[0] == content;
    assert column.value == [content];
  }

  /** A read of the chunk table: one column, optionally only the rows whose
      column `filter.0` equals `filter.1`. */
  datatype Query = Query(table: string, column: string, filter: Option<(string, string)>)

  const UrlQuery := Query(ChunkTable, "url", None)

  function PageQuery(url: string): Query {
    Query(ChunkTable, "content", Some(("url", url)))
  }

  /** `list_product_urls()`: the distinct URLs of the table, ascending; the
      empty list when there are no rows, or when the read or a row raises. */
  function ListProductUrls(db: Query -> Outcome<seq<Row>>): (urls: seq<string>)
    ensures StrictlySorted(urls)
    ensures match db(UrlQuery)
      case Raised(_) => urls == []
      case Ok(rows) =>
        if Column(rows, "url").Raised? then urls == []
        else forall u :: u in urls <==> exists i :: 0 <= i < |rows| && rows[i]["url"] == u
  {
    match db(UrlQuery)
    case Raised(_) => []
    case Ok(rows) =>
      if rows == [] then []
      else match Column(rows, "url")
        case Raised(_) => []
        case Ok(urls) =>
          assert forall u :: u in urls <==> exists i :: 0 <= i < |rows| && rows[i]["url"] == u by {
            forall u ensures u in urls <==> exists i :: 0 <= i < |rows| && rows[i]["url"] == u {
              if u in urls {
                var i :| 0 <= i < |urls| && urls[i] == u;
                assert rows[i]["url"] == u;
              }
            }
          }
          SortedDistinct(urls)
  }

  /** `get_page_content(url)`: the contents of the page's chunks joined by a
      blank line; a fixed message naming the page when it has none; the error
      text when the read or a row raises. */
  function GetPageContent(url: string, db: Query -> Outcome<seq<Row>>): (answer: string)
    ensures match db(PageQuery(url))
      case Raised(m) => answer == PageError + m
      case Ok(rows) =>
        if rows == [] then answer == NoContentFor(url)
        else match Column(rows, "content")
          case Ok(contents) => answer == Join(PageSeparator, contents)
          case Raised(_) => answer == PageError + KeyErrorMessage("content")
  {
    match db(PageQuery(url))
    case Raised(m) => PageError + m
    case Ok(rows) =>
      if rows == [] then NoContentFor(url)
      else match Column(rows, "content")
        case Raised(m) => PageError + m
        case Ok(contents) => Join(PageSeparator, contents)
  }

  /** The selected column of one stored record, as a row. */
  function Project(r: StoredRecord, column: string): Row {
    if column == "url" then map["url" := r.url]
    else if column == "content" then map["content" := r.content]
    else map[]
  }

  predicate Selected(r: StoredRecord, filter: Option<(string, string)>) {
    match filter
    case None => true
    case Some((column, value)) =>
      (column == "url" && r.url == value) || (column == "content" && r.content == value)
  }

  /** What the table answers to a query when it holds `records`, in their order. */
  function Select(records: seq<StoredRecord>, q: Query): seq<Row> {
    if records == [] then []
    else
      var first := if Selected(records[0], q.filter) then [Project(records[0], q.column)] else [];
      first + Select(records[1..], q)
  }

  /** A table that holds `records` and answers every read of the chunk table
      from them. */
  ghost predicate Serves(db: Query -> Outcome<seq<Row>>, records: seq<StoredRecord>) {
    forall q: Query :: q.table == ChunkTable ==> db(q) == Ok(Select(records, q))
  }

  /** The contents of the chunks stored for `url`, in table order. */
  function PageChunks(records: seq<StoredRecord>, url: string): (chunks: seq<string>)
    ensures |chunks| <= |records|
  {
    if records == [] then []
    else
      var first := if records[0].url == url then [records[0].content] else [];
      first + PageChunks(records[1..], url)
  }

  /** Reading the contents of one page gives exactly the page's chunks. */
  lemma {:induction false} SelectPage(records: seq<StoredRecord>, url: string)
    ensures Column(Select(records, PageQuery(url)), "content") == Ok(PageChunks(records, url))
  {
    if records != [] {
      SelectPage(records[1..], url);
      var q := PageQuery(url);
      var rows := Select(records, q);
      if records[0].url == url {
        assert rows == [map["content" := records[0].content]] + Select(records[1..], q);
        assert rows[1..] == Select(records[1..], q);
      } else {
        assert !Selected(records[0], q.filter);
        assert rows == Select(records[1..], q);
        assert PageChunks(records, url) == PageChunks(records[1..], url);
      }
    }
  }

  /** Reading the URL column gives one row per record, holding its URL. */
  lemma {:induction false} SelectUrls(records: seq<StoredRecord>)
    ensures |Select(records, UrlQuery)| == |records|
    ensures forall i :: 0 <= i < |records| ==> Select(records, UrlQuery)[i] == map["url" := records[i].url]
  {
    if records != [] {
      SelectUrls(records[1..]);
      var rows := Select(records, UrlQuery);
      assert rows == [map["url" := records[0].url]] + Select(records[1..], UrlQuery);
      forall i | 0 <= i < |records| ensures rows[i] == map["url" := records[i].url] {
        if i > 0 { assert records[i] == records[1..][i - 1]; }
      }
    }
  }

  /** Against a table holding `records`, `get_page_content` only ever shows
      chunks stored for that page: all of them, in table order. */
  lemma PageContentOfTable(db: Query -> Outcome<seq<Row>>, records: seq<StoredRecord>, url: string)
    requires Serves(db, records)
    ensures GetPageContent(url, db) ==
      if PageChunks(records, url) == [] then NoContentFor(url)
      else Join(PageSeparator, PageChunks(records, url))
  {
    var q := PageQuery(url);
    assert db(q) == Ok(Select(records, q));
    SelectPage(records, url);
  }

  /** Against a table holding `records`, `list_product_urls` lists each URL
      of the table once, ascending, and nothing else: it is the one strictly
      ascending listing of those URLs. */
  lemma UrlsOfTable(db: Query -> Outcome<seq<Row>>, records: seq<StoredRecord>, listing: seq<string>)
    requires Serves(db, records)
    requires StrictlySorted(listing)
    requires forall u :: u in listing <==> exists r :: r in records && r.url == u
    ensures ListProductUrls(db) == listing
  {
    assert db(UrlQuery) == Ok(Select(records, UrlQuery));
    SelectUrls(records);
    var rows := Select(records, UrlQuery);
    assert forall i :: 0 <= i < |rows| ==> "url" in rows[i];
    var urls := ListProductUrls(db);
    forall u ensures u in urls <==> u in listing {
      if u in urls {
        var i :| 0 <= i < |rows| && rows[i]["url"] == u;
        assert records[i] in records && records[i].url == u;
      }
      if u in listing {
        var r :| r in records && r.url == u;
        var i :| 0 <= i < |records| && records[i] == r;
        assert rows[i]["url"] == u;
      }
    }
    StrictlySortedUnique(urls, listing);
  }
}
