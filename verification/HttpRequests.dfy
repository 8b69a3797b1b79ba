/** What the HTTP proxy makes of a request: its cache key, its upstream URL and its reply. */
module HttpRequests {
  import opened CleanPaths
  import opened GoStrings

  datatype Request = Request(verb: string, path: string, query: string)

  /** What became of the request to the upstream service. */
  datatype Outcome =
    | BadTarget
    | BadRequest
    | Unreachable
    | Truncated
    | Answered(status: int, body: string)

  datatype Reply = Reply(status: int, body: string)

  const GET := "GET"
  const OK := 200

  function ReplyOf(outcome: Outcome): Reply {
    match outcome
    case BadTarget => Reply(500, "invalid target URL")
    case BadRequest => Reply(500, "failed to create request")
    case Unreachable => Reply(502, "failed to execute request")
    case Truncated => Reply(500, "failed to read response body")
    case Answered(status, body) => Reply(status, body)
  }

  /** The key under which the answer to a GET is cached. */
  function CacheKey(path: string, query: string): string {
    WithQuery(path, query)
  }

  /** Paths come from request URIs and hold no '?'. On those the key determines path and query. */
  lemma KeyInjective(path: string, query: string, path': string, query': string)
    requires '?' !in path && '?' !in path'
    requires CacheKey(path, query) == CacheKey(path', query')
    ensures path == path' && query == query'
  {
    KeyPathLength(path, query, path', query');
    KeyPathLength(path', query', path, query);
    var key := CacheKey(path, query);
    assert path == key[..|path|] && path' == key[..|path'|];
    assert query != "" ==> query == key[|path| + 1..];
    assert query' != "" ==> query' == key[|path'| + 1..];
  }

  lemma KeyPathLength(path: string, query: string, path': string, query': string)
    requires '?' !in path'
    requires CacheKey(path, query) == CacheKey(path', query')
    ensures |path| >= |path'|
  {
    var key := CacheKey(path, query);
    assert forall j | 0 <= j < |path'| :: key[j] == path'[j];
    assert query != "" ==> key[|path|] == '?';
  }

  /** Another pair, with a path free of '?', has the same key. */
  ghost predicate KeyShared(path: string, query: string) {
    exists path', query' ::
      '?' !in path' && (path', query') != (path, query) && CacheKey(path', query') == CacheKey(path, query)
  }

  /** The first '?' of the path is at `i`, and the key goes on after it. */
  ghost predicate MarkInside(path: string, query: string, i: int) {
    0 <= i < |path| && path[i] == '?' && '?' !in path[..i] && (i + 1 < |path| || query != "")
  }

  /** Exactly which pairs share their key with a pair whose path is free of '?': those whose own
      path holds one that does not end the key. */
  lemma KeyCollides(path: string, query: string)
    ensures KeyShared(path, query) <==> exists i :: MarkInside(path, query, i)
  {
    if i :| MarkInside(path, query, i) {
      var rest := CacheKey(path, query)[i + 1..];
      assert CacheKey(path[..i], rest) == CacheKey(path, query);
      assert (path[..i], rest) != (path, query);
    }
    if KeyShared(path, query) {
      var path', query' :|
        '?' !in path' && (path', query') != (path, query) && CacheKey(path', query') == CacheKey(path, query);
      SharedKeyMark(path, query, path', query');
    }
  }

  lemma SharedKeyMark(path: string, query: string, path': string, query': string)
    requires '?' !in path' && (path', query') != (path, query)
    requires CacheKey(path', query') == CacheKey(path, query)
    ensures MarkInside(path, query, |path'|)
  {
    KeyPathLength(path, query, path', query');
    var key := CacheKey(path, query);
    assert key[..|path|] == path && key[..|path'|] == path';
    if |path| == |path'| {
      KeyInjective(path, query, path', query');
      assert false;
    }
    assert path[..|path'|] == path';
  }

  // ---------- the upstream request ----------

  /** The parts of a service's URL that a request to it uses. */
  datatype Address = Address(scheme: string, host: string, path: string)

  datatype Sent = Sent(verb: string, url: string)

  /** Where every request to the service goes; a path that is only the root adds nothing. */
  function Base(target: Address): string {
    target.scheme + "://" + target.host + if target.path == "/" then "" else target.path
  }

  /** The service's own path is put before the forwarded one, which is slashed, and the query behind. */
  function RequestURL(target: Address, path: string, query: string): string {
    Base(target) + Slashed(path) + if query != "" then "?" + query else ""
  }

  method BuildRequestURL(target: Address, path: string, query: string) returns (url: string)
    ensures url == RequestURL(target, path, query)
    ensures url == target.scheme + "://" + target.host
                 + (if target.path == "" || target.path == "/" then "" else target.path)
                 + (if path == "" || path[0] == '/' then path else "/" + path)
                 + (if query == "" then "" else "?" + query)
  {
    url := target.scheme + "://" + target.host;
    if target.path != "" && target.path != "/" {
      url := url + target.path;
    }
    var forwarded := path;
    if forwarded != "" {
      if !HasPrefix(forwarded, "/") {
        forwarded := "/" + forwarded;
      }
      url := url + forwarded;
    }
    if |query| > 0 {
      url := url + "?" + query;
    }
  }

  /** The path of the URL has the segments of the service's own path, then those of the forwarded one. */
  lemma RequestURLPath(target: Address, path: string, query: string) returns (whole: string)
    ensures RequestURL(target, path, query)
         == target.scheme + "://" + target.host + whole + if query == "" then "" else "?" + query
    ensures Segments(whole) == Segments(target.path) + Segments(path)
  {
    var own := if target.path == "/" then "" else target.path;
    whole := own + Slashed(path);
    SegmentsConcat(own, Slashed(path));
    assert target.scheme + "://" + target.host + (own + Slashed(path))
        == target.scheme + "://" + target.host + own + Slashed(path);
    assert ("/" + path)[1..] == path && "/"[1..] == "";
  }

  /** Two requests to a service go to the same URL exactly if they forward the same path, up to a
      missing leading slash, and the same query. */
  lemma RequestURLExact(target: Address, path: string, query: string, path': string, query': string)
    requires '?' !in Base(target) && '?' !in path && '?' !in path'
    ensures RequestURL(target, path, query) == RequestURL(target, path', query')
       <==> Slashed(path) == Slashed(path') && query == query'
  {
    var front := Base(target);
    assert RequestURL(target, path, query) == CacheKey(front + Slashed(path), query);
    assert RequestURL(target, path', query') == CacheKey(front + Slashed(path'), query');
    if RequestURL(target, path, query) == RequestURL(target, path', query') {
      KeyInjective(front + Slashed(path), query, front + Slashed(path'), query');
      assert (front + Slashed(path))[|front|..] == Slashed(path);
      assert (front + Slashed(path'))[|front|..] == Slashed(path');
    }
  }
}
