/** What a cached response keeps of the original one. */
module CacheEntry {

  datatype Usage = Usage(promptTokens: int, completionTokens: int, totalTokens: int, latencyMs: int)

  datatype Response = Response(
    content: string, finishReason: string, requestIds: seq<string>, usage: Usage, milliCents: int,
    headers: map<string, seq<string>>, rawBody: string)

  datatype Entry = Entry(
    provider: string, model: string, rawBody: string, headers: map<string, string>, usage: Usage, milliCents: int)

  /** Reads the content out of a provider's raw body; the provider parsers are a parameter here. */
  type Extractor = (string, string) -> string

  predicate Essential(header: string) {
    header == "Content-Type" || header == "X-Request-ID" || header == "X-RateLimit-Remaining"
  }

  function EssentialHeaders(headers: map<string, seq<string>>): map<string, string> {
    map h | h in headers && Essential(h) && headers[h] != [] :: headers[h][0]
  }

  function ToEntry(r: Response, provider: string, model: string): Entry {
    Entry(provider, model, r.rawBody, EssentialHeaders(r.headers), r.usage, r.milliCents)
  }

  function RequestIds(headers: map<string, string>): seq<string> {
    if "X-Request-ID" in headers then [headers["X-Request-ID"]] else []
  }

  function ToResponse(extract: Extractor, e: Entry): Response {
    Response(extract(e.rawBody, e.provider), "stop", RequestIds(e.headers), e.usage, e.milliCents,
             map h | h in e.headers :: [e.headers[h]], e.rawBody)
  }

  /** Visits the headers in an arbitrary order, as a Go map range does. */
  method ResponseToEntry(r: Response, provider: string, model: string) returns (e: Entry)
    ensures e == ToEntry(r, provider, model)
  {
    var essential: map<string, string> := map[];
    var pending := r.headers.Keys;
    while pending != {}
      invariant pending <= r.headers.Keys
      invariant forall h :: h in essential <==> h in r.headers && h !in pending && Essential(h) && r.headers[h] != []
      invariant forall h | h in essential :: essential[h] == r.headers[h][0]
      decreases |pending|
    {
      var h :| h in pending;
      if |r.headers[h]| > 0 {
        if Essential(h) {
          essential := essential[h := r.headers[h][0]];
        }
      }
      pending := pending - {h};
    }
    assert essential == EssentialHeaders(r.headers);
    return Entry(provider, model, r.rawBody, essential, r.usage, r.milliCents);
  }

  method EntryToResponse(extract: Extractor, e: Entry) returns (r: Response)
    ensures r == ToResponse(extract, e)
  {
    var headers: map<string, seq<string>> := map[];
    var pending := e.headers.Keys;
    while pending != {}
      invariant pending <= e.headers.Keys && headers.Keys == e.headers.Keys - pending
      invariant forall h | h in headers :: headers[h] == [e.headers[h]]
      decreases |pending|
    {
      var h :| h in pending;
      headers := headers[h := [e.headers[h]]];
      pending := pending - {h};
    }
    return Response(extract(e.rawBody, e.provider), "stop", RequestIds(e.headers), e.usage, e.milliCents,
                    headers, e.rawBody);
  }

  /** An entry names its provider and model, and keeps the first values of three headers. */
  lemma EntryKeeps(r: Response, provider: string, model: string, h: string)
    ensures var e := ToEntry(r, provider, model);
            && e.provider == provider && e.model == model
            && (h in e.headers <==>
                  && h in r.headers && |r.headers[h]| >= 1
                  && h in {"Content-Type", "X-Request-ID", "X-RateLimit-Remaining"})
            && (h in e.headers ==> e.headers[h] == r.headers[h][0])
  {
  }

  /** A cached response always keeps the raw body, the usage and the cost; it equals the original exactly when the rest
      can be rebuilt from those and from single essential headers. */
  lemma RoundTrip(extract: Extractor, r: Response, provider: string, model: string)
    ensures var cached := ToResponse(extract, ToEntry(r, provider, model));
            && cached.rawBody == r.rawBody && cached.usage == r.usage && cached.milliCents == r.milliCents
            && (cached == r <==>
                  && r.content == extract(r.rawBody, provider)
                  && r.finishReason == "stop"
                  && (forall h | h in r.headers :: Essential(h) && |r.headers[h]| == 1)
                  && r.requestIds == if "X-Request-ID" in r.headers then r.headers["X-Request-ID"] else [])
  {
    var cached := ToResponse(extract, ToEntry(r, provider, model));
    if forall h | h in r.headers :: Essential(h) && |r.headers[h]| == 1 {
      assert cached.headers.Keys == r.headers.Keys;
      forall h | h in r.headers ensures cached.headers[h] == r.headers[h] {
        assert r.headers[h] == [r.headers[h][0]];
      }
      assert cached.headers == r.headers;
      assert "X-Request-ID" in r.headers ==> r.headers["X-Request-ID"] == [r.headers["X-Request-ID"][0]];
    }
    if cached.headers == r.headers {
      forall h | h in r.headers ensures Essential(h) && |r.headers[h]| == 1 {
        assert h in cached.headers;
      }
    }
  }

  /** Caching a response that came out of the cache changes nothing any more. */
  lemma CachingIsIdempotent(extract: Extractor, r: Response, provider: string, model: string)
    ensures var e := ToEntry(r, provider, model); ToEntry(ToResponse(extract, e), provider, model) == e
  {
    var e := ToEntry(r, provider, model);
    assert EssentialHeaders(ToResponse(extract, e).headers) == e.headers;
  }

  /** A truncated answer comes back from the cache as a finished one. */
  lemma FinishReasonIsLost(extract: Extractor, r: Response, provider: string, model: string)
    requires r.finishReason == "length"
    ensures ToResponse(extract, ToEntry(r, provider, model)).finishReason == "stop"
    ensures ToResponse(extract, ToEntry(r, provider, model)) != r
  {
  }
}
