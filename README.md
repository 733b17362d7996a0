# PartSelect assistant backend: a Dafny model

This project models the plain control and data logic of the PartSelect parts
assistant backend. The hosted services around it are turned into function
parameters (oracles): the Jina reader proxy, OpenAI embeddings, the Supabase
table and stored procedure, the pydantic_ai agent and the text splitter.

Three source files are modelled.

- `backend/scraper.py` is the ingest pipeline:
  - `fetch_jina` is a fixed-delay retry loop (`Fetch.FetchJina`);
  - `clean_chunk` is the whitespace normaliser (`Clean.CleanChunk`);
  - `process_and_store_url` is a per-chunk, error-isolating embed-and-insert loop
    (`Ingest.ProcessAndStoreUrl`), which records every call it makes to the
    embedding service and the table (the page fetch's requests are not
    recorded);
  - `get_links_from_page` is the product-link filter (`Links.GetLinksFromPage`);
  - `crawl_links` is a depth-bounded crawl over shared `visited` and `results`
    sets (`Crawl.CrawlLinks`). It builds a `Crawl.Crawler` to hold the state
    the inner closure shares; the class's method `Recurse` is that closure, and
    its method `FollowLinks` is the closure's loop over the links. The class
    also keeps a ghost `level` map with the `depth` at which each page was
    visited. The source has no such map; it is there only to state how deep
    each page was reached.
- `backend/agent.py` holds the agent's tools, as pure functions over the
  services' replies: `AgentTools.GetEmbedding`,
  `AgentTools.SearchPartsContent`, `AgentTools.ListProductUrls` and
  `AgentTools.GetPageContent`.
- `backend/main.py` holds `ask_agent`, which converts the chat history loop
  by loop and wraps the agent's outcome in a JSON envelope (`Ask.AskAgent`).

Python's exceptions are values: `Outcome<T> = Ok(value) | Raised(message)`.
The parts of Python's `str` the code relies on are written out in module
`Strings`:
- `isspace`, `strip()` and `splitlines()`;
- `sep.join(...)` and the substring test `in`;
- `str(n)`.

Module `Sorting` writes out `sorted(set(...))` on strings.

Modules, one concept each: `Exceptions`, `Strings`, `Sorting`, `Fetch`,
`Clean`, `Links`, `Crawl`, `Ingest`, `AgentTools`, `Ask`.

Three facts about the code that the model keeps:
- `fetch_jina` sleeps after every failed attempt, the last one included, so
  five failures mean five sleeps (`Fetch.EveryAttemptFails`).
- `fetch_jina` retries only on a status other than 200. An exception raised by
  the request itself (connection refused, DNS failure) is not retried: it
  leaves the function at once (`Fetch.FetchResult`).
- `get_links_from_page` returns a list in document order with duplicates kept.
  The `"SourceCode"` test looks at the raw `href`, before it is resolved
  against the page URL.

## Model

| member | source | states |
|---|---|---|
| Fetch.RequestHeaders | backend/scraper.py:23-25 | the format header is added, with value `html`, exactly when markup is asked for; every other shared header is kept as it is; plain text uses the shared map unchanged |
| Fetch.FetchResultOk | backend/scraper.py:29-32 | the fetch returns `body` if and only if some attempt within `retries` answers 200 with `body` and every earlier attempt answered another status |
| Fetch.FetchResultExhausted | backend/scraper.py:29-36 | when every allowed attempt answers a status other than 200, the fetch raises "Failed to retrieve content after N attempts." |
| Fetch.FetchJina | backend/scraper.py:22-36 | the loop returns what the fetch semantics gives; it sends at most `retries` requests, all the same request to the proxy URL, and sleeps `delay` after each failed attempt; on success the last request got 200 with the body; on exhaustion it made `retries` attempts and `retries` sleeps; on a connection failure the last request raised it |
| Fetch.EveryAttemptFails | backend/scraper.py:29-36 | a server answering 500 to every request, with the default arguments, gets 5 requests and 5 sleeps of 5 seconds, then the exhaustion error naming 5 attempts |
| Strings.Strip | backend/scraper.py:50 | `strip()` leaves no whitespace at either end; it gives the empty string exactly for all-whitespace input; it adds no line break; it leaves a stripped string unchanged |
| Strings.SplitLines | backend/scraper.py:49 | no line of `splitlines()` contains a line break |
| Strings.AllSpaceByLines | backend/scraper.py:49-50 | a text is all whitespace if and only if each of its lines is |
| Strings.SplitLinesOfJoin | backend/scraper.py:49-51 | splitting the newline-join of non-empty, break-free lines gives those lines back |
| Strings.JoinContainsParts | backend/agent.py:85 | each part occurs as a substring of their join, whatever the separator |
| Strings.DecimalRoundTrip | backend/scraper.py:36 | the decimal digits `str(n)` writes for the attempt count read back as `n` |
| Clean.KeptLines | backend/scraper.py:50 | the kept lines are non-empty, stripped and free of line breaks; none are kept if and only if every line is blank |
| Clean.KeptLinesAppend | backend/scraper.py:50 | the filter keeps the surviving lines in their relative order |
| Clean.KeptLinesOfClean | backend/scraper.py:50 | lines that are already clean are all kept, unchanged |
| Clean.CleanChunk | backend/scraper.py:48-51 | the cleaned chunk is empty if and only if the chunk is empty or all whitespace |
| Clean.LinesOfCleanChunk | backend/scraper.py:48-51 | the lines of the cleaned chunk are exactly the stripped non-blank input lines, in order, each non-empty, trimmed and on one line |
| Clean.CleanChunkIdempotent | backend/scraper.py:48-51 | cleaning twice is cleaning once |
| Links.LinksFromAnchors | backend/scraper.py:88 | every link kept is the resolved `href` of an anchor whose raw `href` contains "SourceCode"; every such anchor's resolved link is kept; never more links than anchors |
| Links.LinksFromAnchorsAppend | backend/scraper.py:88 | the filter works anchor by anchor, in document order, keeping duplicates |
| Links.ProductLinksOnly | backend/scraper.py:88 | anchors `/SourceCode/A.htm`, `/SourceCode/B.htm` and `/Other/C.htm` give the resolved links of A and B, in that order, and not C |
| Links.GetLinksFromPage | backend/scraper.py:85-88 | the page is fetched as markup with the default attempts; its filtered links are returned, or the fetch's exception is raised |
| Crawl.ExtendsThroughChild | backend/scraper.py:100-103 | following a not-yet-visited link (added to the results first) and then the nested visit keeps the crawl invariant: the state only grows, neither the page nor the pages visited earlier become results, and each new result is a link of a newly visited page |
| Crawl.ExtendsFromNothing | backend/scraper.py:91-92 | from empty sets, the invariant means: the start page is no result, every other visited page is one, and each result is a link of a visited page |
| Crawl.Crawler.constructor | backend/scraper.py:91-92 | the crawl starts with empty `visited` and `results` and nothing fetched |
| Crawl.Crawler.Recurse | backend/scraper.py:94-103 | the promise `Crawl.Visit` states: past the depth bound or on a visited page nothing changes (levels included); otherwise the page is fetched next, once, and given level `depth`; at the last depth only that page is fetched; below the last depth every link of the page ends up visited; the crawl invariant holds and every page newly fetched has all its links in the results or visited; levels given before are kept; every page newly fetched other than the page itself has a level in [`depth`, `max_depth`] one more than that of a fetched page linking to it, and below `max_depth` all its links fetched; a fetch exception ends the crawl, and the last page fetched is the one whose fetch raised it |
| Crawl.Crawler.FollowLinks | backend/scraper.py:100-103 | with the visit of the page at level `depth` that precedes it, the loop keeps the promise of `Crawl.Visit` for the page; each nested visit it makes must keep that promise at level `depth + 1` (the preconditions of `Crawl.FollowedChild` and `Crawl.FollowedFailed`); an exception from a nested fetch ends the loop and is passed on |
| Crawl.FollowedChild | backend/scraper.py:100-103 | a link not visited yet, added to the results and then visited at level `depth + 1` with a normal return, keeps the loop invariant for one more link: crawl invariant, closure, levels and the links so far visited (or results at the last depth) |
| Crawl.FollowedFailed | backend/scraper.py:100-103 | a link visited at level `depth + 1` whose visit raised makes the visit of the page raise the same, with the crawl invariant and the levels kept |
| Crawl.LevelledAfterChild | backend/scraper.py:101-103 | a page at level `depth` below the bound, followed by a link visited at level `depth + 1`: every page visited since is still one level deeper than a visited page linking to it |
| Crawl.LevelsOfCrawl | backend/scraper.py:94-103 | from the start page at level 0, the levels of the crawl give each fetched page a level in [0, `max_depth`], the start page 0, every other page one more than a fetched page linking to it, and every page below `max_depth` all its links fetched |
| Crawl.CrawlLinks | backend/scraper.py:90-106 | each page is fetched at most once, the start page first; a negative depth fetches nothing and yields no links; depth 0 fetches only the start page and yields exactly its links minus itself; a positive depth fetches every link of the start page; the start page is never a result; every other fetched page is a result; each result is a link of a fetched page; every link of a fetched page is a result or the start page; on failure the last fetched page's fetch raised the error; on success with `max_depth >= 0`, a level map over the fetched pages exists as `Crawl.LevelsOfCrawl` states, so every fetched page is reached from the start page along links, one level per link, within `max_depth` |
| Ingest.ChunkCalls | backend/scraper.py:72-78 | a chunk with an empty cleaned text causes no call; any other causes one or two, all numbered with that chunk |
| Ingest.FailuresExactly | backend/scraper.py:77-78 | no failure line is printed if and only if every remote call succeeded; at most one line per call |
| Ingest.StoredAppend | backend/scraper.py:71-76 | the records stored by two runs of calls are those of the first followed by those of the second |
| Ingest.FailuresAppend | backend/scraper.py:71-78 | the failures reported for two runs of calls are those of the first followed by those of the second |
| Ingest.ProcessAndStoreUrl | backend/scraper.py:65-83 | it never raises; if the text fetch raises it reports that error and calls neither service; otherwise the calls made are those of every chunk in turn, and the failures reported are exactly the failed calls |
| Ingest.StoredOfChunk | backend/scraper.py:73-76 | one chunk stores its record exactly when its cleaned text is not empty and both its embedding and then its insert succeed |
| Ingest.StoredIsRecords | backend/scraper.py:71-76 | the records stored are the chunks' records, in chunk order |
| Ingest.RecordsExactly | backend/scraper.py:71-76 | a record is among the chunks' records if and only if it is the record of one of the chunks processed |
| Ingest.StoredExactly | backend/scraper.py:71-76 | a record is stored if and only if it is the record of one of the chunks processed |
| Ingest.ChunkRecordClean | backend/scraper.py:72-76 | a chunk's record holds the page URL and the chunk's cleaned text, not the raw chunk; that text is not empty and cleaning leaves it as it is |
| Ingest.StoredRecordsClean | backend/scraper.py:71-76 | every record stored for a page holds that page's URL and a non-empty, already clean text |
| Ingest.TraceInChunkOrder | backend/scraper.py:71-78 | every call is numbered with a chunk processed so far, and the numbers never go down along the trace |
| Ingest.TraceWellFormed | backend/scraper.py:73-76 | each embedding asks for its chunk's non-empty cleaned text; each insert comes right after its chunk's successful embedding and stores the URL, the cleaned text and that embedding |
| Ingest.EveryTextAttempted | backend/scraper.py:71-78 | a failure on one chunk does not stop the others: every non-empty cleaned text is sent for embedding, and an empty one causes no call |
| Ingest.EveryChunkAttempted | backend/scraper.py:71-78 | every chunk that is not blank is sent for embedding, cleaned, whatever happened to the other chunks; a blank chunk is sent nowhere |
| Ingest.SecondEmbedFails | backend/scraper.py:71-78 | with three non-blank chunks where only the second embedding raises, the first and third records are stored, in order, and one failure line reports chunk 2 of 3 |
| Sorting.SortedDistinct | backend/agent.py:103 | `sorted(set(xs))` is strictly ascending and holds exactly the elements of `xs` |
| Sorting.StrictlySortedUnique | backend/agent.py:103 | two strictly ascending sequences with the same elements are equal, so the sorted set is the only such listing |
| AgentTools.Column | backend/agent.py:85 | the column is read if and only if every row has the key; its values follow the rows one to one, in order; otherwise the `KeyError` message is the quoted key |
| AgentTools.GetEmbedding | backend/agent.py:53-62 | the first embedding of the reply is returned as it is; an exception, or a reply with no embedding, gives 1536 zeros |
| AgentTools.SearchPartsContent | backend/agent.py:67-88 | the search calls `match_partselect_chunks` with the query's embedding and a count of 5; no rows give the fixed message; rows give their contents joined by the `---` separator, in order; an exception from the search or a row without content gives the error text |
| AgentTools.SearchShowsEveryMatch | backend/agent.py:85 | every matched chunk's content appears whole in the search answer |
| AgentTools.SearchOneMatch | backend/agent.py:85 | a single match is answered with its content exactly, with no separator |
| AgentTools.ListProductUrls | backend/agent.py:93-106 | the answer is strictly ascending; it holds exactly the URLs of the rows; it is empty when there are no rows, the read raises, or a row lacks the column |
| AgentTools.GetPageContent | backend/agent.py:111-127 | it reads the content column of the rows for that URL; no rows give the "No content found for" message with the URL; rows give their contents joined by a blank line; an exception gives the error text |
| AgentTools.SelectPage | backend/agent.py:117-120 | reading the content column filtered on the URL gives exactly that page's chunks, in table order |
| AgentTools.SelectUrls | backend/agent.py:99-101 | reading the URL column gives one row per record, holding its URL |
| AgentTools.PageContentOfTable | backend/agent.py:111-125 | against a table of stored records, the answer is the page's chunks, all of them, joined in table order, or the no-content message when it has none |
| AgentTools.UrlsOfTable | backend/agent.py:99-103 | against a table of stored records, the listing is the one strictly ascending sequence of the table's URLs |
| Ask.ToModelMessage | backend/main.py:50-53 | a user entry becomes a request with one user-prompt part, any other entry a response with one text part, each holding the entry's content |
| Ask.ChatRoundTrip | backend/main.py:50-53 | the conversion loses nothing: an entry can be read back from its message |
| Ask.HistoryRoundTrip | backend/main.py:47-53 | a history converted entry by entry reads back as the original history |
| Ask.AskAgent | backend/main.py:44-64 | the converted history has one message per entry, in order, each converted by role, and reads back as the request's history; the new message goes to the agent apart from the history; the reply is the agent's output under "response" or the exception's text under "error" |

## Left out

- `split_into_chunks` (backend/scraper.py:41-46) is an oracle, `Services.split`. The langchain splitter's algorithm is not part of this model, so no bound on chunk size is stated.
- `BeautifulSoup` parsing and `urljoin` (backend/scraper.py:87-88) are oracles: `Web.parse` gives the anchors of the markup and `Web.resolve` resolves an `href`.
- Network and storage calls are oracles that answer or raise. These are the Jina proxy, the OpenAI embeddings, the Supabase insert, the reads and the RPC. The HTTP wire format is not modelled.
- `embed_chunk` and `insert_chunk` (backend/scraper.py:53-63) are the oracles `Services.embed` and `Services.insert`, called once per chunk number. The model name and table name they pass are not modelled; the agent's tools name the same model and table (`AgentTools.EmbeddingModel`, `AgentTools.ChunkTable`).
- Embedding vectors are opaque sequences of reals. Only the length and the all-zero shape of the fallback are stated.
- `time.sleep` and `print` have no effect in the model. Sleeps are recorded as the delays they would take. The "Failed to ..." lines are the failures that `process_and_store_url` reports.
- `Fetch.FetchJina`: `delay` is a natural number. A negative delay, which makes `time.sleep` raise `ValueError`, is not modelled.
- The hard-coded proxy credential (backend/scraper.py:18-20) is not reproduced. The shared header map is the parameter `JinaClient.sharedHeaders`.
- `main()` of backend/scraper.py (lines 108-122) is not modelled. It runs the crawl from each seed with depth 0, so the URLs processed are the union of those crawls. It then runs `process_and_store_url` over them on a thread pool with a progress bar: concurrency and UI.
- `Crawl.CrawlLinks`: `list(results)` has an unspecified order, so the model returns the set.
- `AgentTools.ListProductUrls`, `AgentTools.SearchPartsContent` and `AgentTools.GetPageContent`: a reply whose `data` is `None` and one whose `data` is an empty list are both the empty row sequence.
- A column whose value is SQL `NULL` (Python `None`) is not modelled, since rows map names to strings.
- The agent itself is outside this model, as is `agent.run` (an oracle in `Ask.AskAgent`). That covers its construction, system prompt and tool-calling loop (backend/agent.py:18-48).
- The FastAPI app, CORS and request parsing (backend/main.py:22-42) are not modelled. A role other than "user" or "agent" is rejected before `ask_agent` runs, so `Role` has exactly those two values.
- The unused `part` at backend/main.py:49 has no effect and is not modelled.
- The frontend (frontend/rag_app) is UI and network code and is not part of this model.
- Environment and configuration loading (`load_dotenv`, `os.getenv`) is not modelled.
