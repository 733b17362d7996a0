/** `fetch_jina` (backend/scraper.py): fetching a page through the Jina
    reader proxy with a fixed number of attempts and a fixed delay. */
module Fetch {
  import opened Exceptions
  import opened Strings

  const JinaPrefix := "https://r.jina.ai/"
  const FormatHeader := "X-Return-Format"
  const DefaultRetries := 5
  const DefaultDelay := 5

  datatype Request = Request(url: string, headers: map<string, string>)

  /** What `requests.get` does: return a response with a status code and a
      body, or raise (connection refused, DNS failure, ...). */
  datatype Response = Response(status: int, text: string) | ConnectionFailure(message: string)

  /** The proxy as the scraper sees it: the module-wide header map
      `JINA_HEADERS` and the response the service gives to the request sent
      on attempt number `n` (counted from 0). */
  datatype JinaClient = JinaClient(sharedHeaders: map<string, string>, serve: (Request, nat) -> Response)

  /** The headers of one fetch: a copy of the shared map, with the format
      header added only when markup is asked for. */
  function RequestHeaders(shared: map<string, string>, returnFormat: string): (h: map<string, string>)
    ensures h.Keys == if returnFormat == "html" then shared.Keys + {FormatHeader} else shared.Keys
    ensures forall k :: k in shared && k != FormatHeader ==> h[k] == shared[k]
    ensures returnFormat == "html" ==> h[FormatHeader] == "html"
    ensures returnFormat != "html" ==> h == shared
  {
    if returnFormat == "html" then shared[FormatHeader := "html"] else shared
  }

  function JinaRequest(jina: JinaClient, url: string, returnFormat: string): Request {
    Request(JinaPrefix + url, RequestHeaders(jina.sharedHeaders, returnFormat))
  }

  /** A response that makes the loop try again: any status but 200. */
  predicate IsRetryable(r: Response) {
    r.Response? && r.status != 200
  }

  /** How many times `range(retries)` runs. */
  function Attempts(retries: int): nat {
    if retries > 0 then retries else 0
  }

  function ExhaustedMessage(retries: int): string {
    "Failed to retrieve content after " + IntToString(retries) + " attempts."
  }

  /** What `fetch_jina` returns or raises when attempts `attempt` to
      `retries - 1` are still to come. */
  function FetchResult(serve: (Request, nat) -> Response, req: Request, retries: int, attempt: nat): Outcome<string>
    decreases Attempts(retries) - attempt
  {
    if attempt >= retries then Raised(ExhaustedMessage(retries))
    else match serve(req, attempt)
      case ConnectionFailure(m) => Raised(m)
      case Response(status, text) =>
        if status == 200 then Ok(text) else FetchResult(serve, req, retries, attempt + 1)
  }

  /** The attempt numbered `k` is the first one that returns 200, and it does so with `body`. */
  ghost predicate FirstSuccessAt(serve: (Request, nat) -> Response, req: Request, from: nat, k: nat, body: string) {
    serve(req, k) == Response(200, body) && forall j :: from <= j < k ==> IsRetryable(serve(req, j))
  }

  /** The fetch returns `body` exactly when, within the attempts allowed, an
      attempt answers 200 with `body` and every earlier one answered with
      another status. */
  lemma {:induction false} FetchResultOk(serve: (Request, nat) -> Response, req: Request, retries: int, attempt: nat, body: string)
    ensures FetchResult(serve, req, retries, attempt) == Ok(body) <==>
            exists k :: attempt <= k < retries && FirstSuccessAt(serve, req, attempt, k, body)
    decreases Attempts(retries) - attempt
  {
    if attempt < retries {
      var r := serve(req, attempt);
      if IsRetryable(r) {
        var next := attempt + 1;
        FetchResultOk(serve, req, retries, next, body);
        if exists k :: next <= k < retries && FirstSuccessAt(serve, req, next, k, body) {
          var k :| next <= k < retries && FirstSuccessAt(serve, req, next, k, body);
          assert FirstSuccessAt(serve, req, attempt, k, body);
        }
        if exists k :: attempt <= k < retries && FirstSuccessAt(serve, req, attempt, k, body) {
          var k :| attempt <= k < retries && FirstSuccessAt(serve, req, attempt, k, body);
          assert k != attempt;
          assert FirstSuccessAt(serve, req, next, k, body);
        }
      } else if r == Response(200, body) {
        assert FirstSuccessAt(serve, req, attempt, attempt, body);
      } else {
        forall k | attempt <= k < retries ensures !FirstSuccessAt(serve, req, attempt, k, body) {
          if k > attempt { assert !IsRetryable(serve(req, attempt)); }
        }
      }
    }
  }

  /** When every allowed attempt answers with a status other than 200, the
      fetch raises the exhaustion error. */
  lemma {:induction false} FetchResultExhausted(serve: (Request, nat) -> Response, req: Request, retries: int, attempt: nat)
    requires forall j :: attempt <= j < retries ==> IsRetryable(serve(req, j))
    ensures FetchResult(serve, req, retries, attempt) == Raised(ExhaustedMessage(retries))
    decreases Attempts(retries) - attempt
  {
    if attempt < retries {
      assert IsRetryable(serve(req, attempt));
      FetchResultExhausted(serve, req, retries, attempt + 1);
    }
  }

  /** `fetch_jina(url, retries, delay, return_format)`. Besides the outcome it
      gives the requests sent and the sleeps taken, in order. */
  method FetchJina(jina: JinaClient, url: string, retries: int, delay: nat, returnFormat: string)
    returns (r: Outcome<string>, sent: seq<Request>, slept: seq<nat>)
    ensures r == FetchResult(jina.serve, JinaRequest(jina, url, returnFormat), retries, 0)
    ensures |sent| <= Attempts(retries)
    ensures forall k :: 0 <= k < |sent| ==> sent[k] == JinaRequest(jina, url, returnFormat)
    ensures forall k :: 0 <= k < |sent| - 1 ==> IsRetryable(jina.serve(sent[k], k))
    ensures forall k :: 0 <= k < |slept| ==> slept[k] == delay
    ensures r.Ok? ==>
      && |sent| > 0
      && jina.serve(sent[|sent| - 1], |sent| - 1) == Response(200, r.value)
      && |slept| == |sent| - 1
    ensures r.Raised? ==>
      || (&& |sent| == Attempts(retries) == |slept|
          && (forall k :: 0 <= k < |sent| ==> IsRetryable(jina.serve(sent[k], k)))
          && r.message == ExhaustedMessage(retries))
      || (&& |sent| > 0
          && jina.serve(sent[|sent| - 1], |sent| - 1) == ConnectionFailure(r.message)
          && |slept| == |sent| - 1)
  {
    var req := JinaRequest(jina, url, returnFormat);
    sent, slept := [], [];
    var attempt: nat := 0;
    while attempt < retries
      invariant attempt <= Attempts(retries)
      invariant |sent| == attempt && |slept| == attempt
      invariant forall k :: 0 <= k < attempt ==> sent[k] == req && IsRetryable(jina.serve(req, k))
      invariant forall k :: 0 <= k < attempt ==> slept[k] == delay
      invariant FetchResult(jina.serve, req, retries, attempt) == FetchResult(jina.serve, req, retries, 0)
    {
      var response := jina.serve(req, attempt);
      sent := sent + [req];
      match response {
        case ConnectionFailure(m) =>
          r := Raised(m);
          return;
        case Response(status, text) =>
          if status == 200 {
            r := Ok(text);
            return;
          }
      }
      slept := slept + [delay];
      attempt := attempt + 1;
    }
    r := Raised(ExhaustedMessage(retries));
  }

  /** A server that answers 500 to every request, fetched with the default
      arguments: five requests, five sleeps (one after every failure,
      including the last), then the exhaustion error. */
  method EveryAttemptFails(url: string) returns (r: Outcome<string>, sent: seq<Request>, slept: seq<nat>)
    ensures |sent| == 5 && |slept| == 5
    ensures forall k :: 0 <= k < |slept| ==> slept[k] == 5
    ensures r == Raised("Failed to retrieve content after 5 attempts.")
  {
    var jina := JinaClient(map[], (req, n) => Response(500, ""));
    r, sent, slept := FetchJina(jina, url, DefaultRetries, DefaultDelay, "text");
    FetchResultExhausted(jina.serve, JinaRequest(jina, url, "text"), DefaultRetries, 0);
    assert IntToString(5) == "5";
  }
}
