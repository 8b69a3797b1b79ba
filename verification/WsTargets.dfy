/** From the client's WebSocket request to the URL that the gateway dials. */
module WsTargets {
  import opened GoStrings

  // ---------- the router's part ----------

  const SOCKET_IO := "/socket.io"

  /** The route prefix of a configured base path: with a leading and without a trailing slash. */
  function Mount(basePath: string): string {
    TrimSuffix(if HasPrefix(basePath, "/") then basePath else "/" + basePath, "/")
  }

  /** The path that the route handler passes on, with the query behind it. */
  function FullPath(path: string, query: string): string {
    WithQuery(TrimSuffix(path, "/*"), query)
  }

  function SocketPath(path: string): string {
    if HasPrefix(path, SOCKET_IO) then path else SOCKET_IO + path
  }

  // ---------- the path below /socket.io ----------

  /** The path, with or without something before it, below the mount point of Socket.IO. */
  predicate BelowMount(r: string, path: string) {
    HasPrefix(r, "/socket.io") && HasSuffix(r, path)
  }

  /** Nothing shorter is below the mount point and ends with the path. */
  ghost predicate ShortestBelow(r: string, path: string) {
    BelowMount(r, path) && forall t | BelowMount(t, path) :: |r| <= |t|
  }

  /** A string that begins with the mount point and ends with a path is either that path, or has room
      for both: the slash of the path fits nowhere else into the mount point. */
  lemma NoOverlap(mount: string, t: string, path: string)
    requires HasPrefix(mount, "/") && '/' !in mount[1..] && (path == "" || HasPrefix(path, "/"))
    requires HasPrefix(t, mount) && HasSuffix(t, path)
    ensures t == path || |t| >= |mount| + |path|
    ensures |t| == |mount| + |path| ==> t == mount + path
  {
    var o := |t| - |path|;
    assert path != "" ==> t[o] == path[0];
    assert forall k | 0 < k < |mount| :: t[k] == mount[k] && mount[k] == mount[1..][k - 1];
    if o == |mount| {
      assert t == t[..o] + t[o..];
    }
  }

  /** The router puts the prefix before a path only if it lacks it: the result is the one shortest
      string below the mount point that ends with the path. Doing it again changes nothing. */
  lemma SocketPathShortest(path: string)
    requires path == "" || HasPrefix(path, "/")
    ensures forall r :: ShortestBelow(r, path) <==> r == SocketPath(path)
    ensures SocketPath(SocketPath(path)) == SocketPath(path)
  {
    var best := SocketPath(path);
    assert BelowMount(best, path) by {
      assert best[|best| - |path|..] == path;
    }
    forall t | BelowMount(t, path) ensures |best| <= |t| && (|t| == |best| ==> t == best) {
      OnlyFits(t, path);
    }
  }

  lemma OnlyFits(t: string, path: string)
    requires (path == "" || HasPrefix(path, "/")) && BelowMount(t, path)
    ensures |SocketPath(path)| <= |t| && (|t| == |SocketPath(path)| ==> t == SocketPath(path))
  {
    MountHasOneSlash();
    NoOverlap(SOCKET_IO, t, path);
    if HasPrefix(path, SOCKET_IO) && |t| == |path| {
      assert t == t[0..];
    }
  }

  lemma MountHasOneSlash()
    ensures HasPrefix(SOCKET_IO, "/") && '/' !in SOCKET_IO[1..] && SOCKET_IO == "/socket.io"
  {}

  /** What is left of the path, or the root if nothing is. */
  function OrRoot(path: string): string {
    if path == "" then "/" else path
  }

  function WsPath(strip: bool, basePath: string, path: string): string {
    if !strip then SocketPath(path)
    else
      var rest := TrimPrefix(path, basePath);
      SocketPath(OrRoot(rest))
  }

  lemma RewrittenShape(strip: bool, basePath: string, path: string)
    ensures var rest, r := if strip then OrRoot(TrimPrefix(path, basePath)) else path, WsPath(strip, basePath, path);
            && HasPrefix(r, "/socket.io") && HasSuffix(r, rest)
            && |r| == |rest| + (if HasPrefix(rest, "/socket.io") then 0 else |"/socket.io"|)
            && (rest == "" || HasPrefix(rest, "/") ==> ShortestBelow(r, rest))
  {
    var rest := if strip then OrRoot(TrimPrefix(path, basePath)) else path;
    assert SOCKET_IO == "/socket.io" && WsPath(strip, basePath, path) == SocketPath(rest);
    assert SocketPath(rest)[|SocketPath(rest)| - |rest|..] == rest;
    if rest == "" || HasPrefix(rest, "/") { SocketPathShortest(rest); }
  }

  method RewritePath(strip: bool, basePath: string, path: string) returns (wsPath: string)
    ensures wsPath == WsPath(strip, basePath, path)
    ensures var rest := if strip then OrRoot(TrimPrefix(path, basePath)) else path;
            && HasPrefix(wsPath, "/socket.io") && HasSuffix(wsPath, rest)
            && |wsPath| == |rest| + (if HasPrefix(rest, "/socket.io") then 0 else |"/socket.io"|)
            && (rest == "" || HasPrefix(rest, "/") ==> ShortestBelow(wsPath, rest))
  {
    RewrittenShape(strip, basePath, path);
    wsPath := path;
    if strip {
      wsPath := TrimPrefix(path, basePath);
      if wsPath == "" {
        wsPath := "/";
      }
    }
    if !HasPrefix(wsPath, SOCKET_IO) {
      wsPath := SOCKET_IO + wsPath;
    }
  }

  /** The route prefix is the base path up to a slash at either end. */
  lemma MountIsBase(basePath: string)
    ensures Mount(basePath) == "" || HasPrefix(Mount(basePath), "/")
    ensures var rooted := if HasPrefix(basePath, "/") then basePath else "/" + basePath;
            Mount(basePath) + "/" == rooted || (Mount(basePath) == rooted && !HasSuffix(rooted, "/"))
    ensures basePath == Mount(basePath)
       <==> basePath == "" || (HasPrefix(basePath, "/") && !HasSuffix(basePath, "/"))
  {}

  /** The configured base path, not its normal form, is cut off the request path. The cut leaves the
      remainder exactly when the two are the same, which is when it is empty or has a leading and no
      trailing slash. A request path is never empty. */
  lemma StripExact(basePath: string, rest: string)
    requires HasPrefix(rest, "/") || (rest == "" && Mount(basePath) != "")
    ensures TrimPrefix(Mount(basePath) + rest, basePath) == rest
       <==> basePath == "" || (HasPrefix(basePath, "/") && !HasSuffix(basePath, "/"))
  {
    MountIsBase(basePath);
  }

  // ---------- url.Parse, for paths ----------

  datatype Parsed = Failed | Parsed(path: string, rawQuery: string)

  predicate IsControl(c: char) {
    c < ' ' || c == '\U{7F}'
  }

  predicate IsHex(c: char) {
    '0' <= c <= '9' || 'a' <= c <= 'f' || 'A' <= c <= 'F'
  }

  function HexValue(c: char): (v: nat)
    requires IsHex(c)
    ensures v < 16
  {
    if c <= '9' then c as int - '0' as int
    else if c <= 'F' then c as int - 'A' as int + 10
    else c as int - 'a' as int + 10
  }

  /** Every "%" starts an escape of two hexadecimal digits. */
  predicate EscapesValid(s: string) {
    s == "" ||
    if s[0] == '%' then |s| >= 3 && IsHex(s[1]) && IsHex(s[2]) && EscapesValid(s[3..]) else EscapesValid(s[1..])
  }

  function Unescape(s: string): (u: string)
    requires EscapesValid(s)
    ensures |u| <= |s|
    ensures '%' in s ==> |u| < |s|
    ensures '%' !in s ==> u == s
  {
    if s == "" then ""
    else if s[0] == '%' then [(16 * HexValue(s[1]) + HexValue(s[2])) as char] + Unescape(s[3..])
    else
      assert s == [s[0]] + s[1..];
      [s[0]] + Unescape(s[1..])
  }

  function HexDigit(v: nat, upper: bool): char
    requires v < 16
  {
    if v < 10 then ('0' as int + v) as char
    else if upper then ('A' as int + v - 10) as char
    else ('a' as int + v - 10) as char
  }

  /** Every byte as an escape, in digits of either case. */
  function Escape(bytes: string, upper: bool): string
    requires forall c | c in bytes :: c as int < 256
  {
    if bytes == "" then ""
    else
      assert bytes[0] in bytes && forall c | c in bytes[1..] :: c in bytes;
      var b := bytes[0] as int;
      ['%', HexDigit(b / 16, upper), HexDigit(b % 16, upper)] + Escape(bytes[1..], upper)
  }

  lemma EscapedByte(b: nat, upper: bool, rest: string)
    requires b < 256 && EscapesValid(rest)
    ensures var s := ['%', HexDigit(b / 16, upper), HexDigit(b % 16, upper)] + rest;
            EscapesValid(s) && Unescape(s) == [b as char] + Unescape(rest)
  {
    var hi, lo := HexDigit(b / 16, upper), HexDigit(b % 16, upper);
    var s := ['%', hi, lo] + rest;
    assert IsHex(hi) && IsHex(lo) && HexValue(hi) == b / 16 && HexValue(lo) == b % 16;
    assert s[3..] == rest;
  }

  /** Decoding inverts escaping. */
  lemma {:induction false} EscapeRoundTrip(bytes: string, upper: bool)
    requires forall c | c in bytes :: c as int < 256
    ensures EscapesValid(Escape(bytes, upper)) && Unescape(Escape(bytes, upper)) == bytes
  {
    if bytes != "" {
      assert bytes[0] in bytes && forall c | c in bytes[1..] :: c in bytes;
      EscapeRoundTrip(bytes[1..], upper);
      EscapedByte(bytes[0] as int, upper, Escape(bytes[1..], upper));
      assert bytes == [bytes[0]] + bytes[1..];
    }
  }

  function Before(s: string, c: char): string {
    s[..IndexOf(s, c)]
  }

  function After(s: string, c: char): string {
    if IndexOf(s, c) < |s| then s[IndexOf(s, c) + 1..] else ""
  }

  /** Empty or starting with exactly one slash, so that it names no host. */
  predicate Plain(s: string) {
    s == "" || (s[0] == '/' && (|s| > 1 ==> s[1] != '/'))
  }

  lemma SocketPathIsPlain(s: string)
    requires HasPrefix(s, SOCKET_IO)
    ensures Plain(s)
  {
    assert s[0] == SOCKET_IO[0] && s[1] == SOCKET_IO[1];
  }

  /** `url.Parse` on a path that names no host: the fragment is cut off, a control
      character or a bad escape is an error, the query is what follows the first '?', and the path
      is unescaped while the query is not. */
  function ParsePath(raw: string): Parsed
    requires Plain(raw)
  {
    var u := Before(raw, '#');
    if (exists c | c in u :: IsControl(c)) || !EscapesValid(Before(u, '?')) || !EscapesValid(After(raw, '#'))
    then Failed
    else Parsed(Unescape(Before(u, '?')), After(u, '?'))
  }

  // ---------- the proxy's part ----------

  /** Path and query of the dialled URL: the query in the path wins over the one in the header, and
      a path that does not parse is used as it is. */
  function Target(path: string, headerQuery: string): string
    requires Plain(path)
  {
    match ParsePath(path)
    case Failed => WithQuery(path, headerQuery)
    case Parsed(p, rawQuery) => WithQuery(p, if rawQuery != "" then rawQuery else headerQuery)
  }

  lemma QueryAtEnd(front: string, path: string, query: string)
    ensures WithQuery(front + path, query) == front + WithQuery(path, query)
  {
    assert front + path + "?" + query == front + (path + "?" + query);
  }

  const ORIGINAL_QUERY := "X-Original-Query"

  function WsURL(https: bool, host: string, target: string): string {
    (if https then "wss" else "ws") + "://" + host + target
  }

  lemma SchemesAgree(https: bool, host: string, target: string)
    ensures var httpURL := (if https then "https" else "http") + "://" + host + target;
            && httpURL == (if https then "https://" else "http://") + host + target
            && WsURL(https, host, target) == "ws" + httpURL[4..]
  {}

  /** The URL assembly of the proxy; `headers` comes back without the query it carried. */
  method BuildURLs(https: bool, host: string, path: string, headers: map<string, string>)
    returns (wsURL: string, httpURL: string, remaining: map<string, string>)
    requires Plain(if path == "" || path[0] == '/' then path else "/" + path)
    ensures var slashed := if path == "" || path[0] == '/' then path else "/" + path;
            var q := if "X-Original-Query" in headers then headers["X-Original-Query"] else "";
            && httpURL == (if https then "https://" else "http://") + host + Target(slashed, q)
            && wsURL == WsURL(https, host, Target(slashed, q))
            && wsURL == "ws" + httpURL[4..]
    ensures forall k | k != "X-Original-Query" :: k in remaining <==> k in headers
    ensures forall k | k in remaining :: k in headers && remaining[k] == headers[k]
    ensures "X-Original-Query" in remaining ==> remaining["X-Original-Query"] == ""
  {
    var wsScheme, httpScheme := "ws", "http";
    if https {
      wsScheme, httpScheme := "wss", "https";
    }
    var fixedPath := path;
    if path != "" && !HasPrefix(path, "/") {
      fixedPath := "/" + path;
    }
    var queryParams := "";
    remaining := headers;
    if ORIGINAL_QUERY in headers && headers[ORIGINAL_QUERY] != "" {
      queryParams := headers[ORIGINAL_QUERY];
      remaining := remaining - {ORIGINAL_QUERY};
    }
    var parsed := ParsePath(fixedPath);
    var parsedPath, rawQuery := fixedPath, "";
    if parsed.Parsed? {
      parsedPath, rawQuery := parsed.path, parsed.rawQuery;
    }
    if rawQuery != "" && queryParams != "" {
      queryParams := rawQuery;
    } else if rawQuery != "" {
      queryParams := rawQuery;
    }
    QueryAtEnd(httpScheme + "://" + host, parsedPath, queryParams);
    QueryAtEnd(wsScheme + "://" + host, parsedPath, queryParams);
    SchemesAgree(https, host, Target(fixedPath, if ORIGINAL_QUERY in headers then headers[ORIGINAL_QUERY] else ""));
    httpURL := httpScheme + "://" + host + parsedPath;
    wsURL := wsScheme + "://" + host + parsedPath;
    if queryParams != "" {
      httpURL := httpURL + "?" + queryParams;
      wsURL := wsURL + "?" + queryParams;
    }
  }

  // ---------- end to end ----------

  /** Path and query dialled for a request; `clientHeader` is a client's own X-Original-Query. */
  function Dialled(strip: bool, basePath: string, path: string, query: string, clientHeader: string): string {
    RewrittenIsPlain(strip, basePath, FullPath(path, query));
    Target(WsPath(strip, basePath, FullPath(path, query)), if query != "" then query else clientHeader)
  }

  lemma RewrittenIsPlain(strip: bool, basePath: string, path: string)
    ensures HasPrefix(WsPath(strip, basePath, path), SOCKET_IO) && Plain(WsPath(strip, basePath, path))
  {
    SocketPathIsPlain(WsPath(strip, basePath, path));
  }

  /** The kept part below /socket.io, or the root if nothing is left. */
  function Wanted(kept: string): string {
    SocketPath(OrRoot(kept))
  }

  /** Routing keeps the path unless a wildcard marker ends it, or a query hides from the router that
      nothing is left of it. */
  predicate PathSurvives(kept: string, query: string) {
    if kept == "" then query == "" else !HasSuffix(kept, "/*")
  }

  /** A check on the request that tells whether the right URL is dialled. */
  predicate Faithful(kept: string, query: string, clientHeader: string) {
    && PathSurvives(kept, query)
    && (query == "" ==> clientHeader == "")
    && (if Unparsable(kept, query) then query == "" else '%' !in kept)
  }

  lemma BeforeAppend(a: string, c: char, b: string)
    requires c !in a
    ensures Before(a + [c] + b, c) == a && After(a + [c] + b, c) == b
    ensures Before(a, c) == a && After(a, c) == ""
  {
    var all := a + [c] + b;
    assert all[|a|] == c;
    assert all[..|a|] == a && all[|a| + 1..] == b;
    assert a[..|a|] == a;
  }

  /** Parsing a path free of '?' and '#' with a query free of '#'. */
  lemma ParseWithQuery(path: string, query: string)
    requires HasPrefix(path, SOCKET_IO) && '?' !in path && '#' !in path && '#' !in query
    ensures Plain(WithQuery(path, query))
    ensures ParsePath(WithQuery(path, query)) ==
              if (exists c | c in WithQuery(path, query) :: IsControl(c)) || !EscapesValid(path) then Failed
              else Parsed(Unescape(path), query)
  {
    var raw := WithQuery(path, query);
    SocketPathIsPlain(path);
    assert '#' !in raw;
    BeforeAppend(raw, '#', "");
    BeforeAppend(path, '?', query);
    assert path + ['?'] + query == path + "?" + query;
  }

  lemma SocketPathOfQuery(path: string, query: string)
    requires '?' !in path
    ensures SocketPath(WithQuery(path, query)) == WithQuery(SocketPath(path), query)
  {
    var full := WithQuery(path, query);
    assert forall i | 0 <= i < |SOCKET_IO| :: SOCKET_IO[i] != '?';
    if HasPrefix(full, SOCKET_IO) {
      assert forall i | 0 <= i < |SOCKET_IO| :: full[i] == SOCKET_IO[i];
      assert query != "" ==> full[|path|] == '?';
      assert path == full[..|path|];
    }
    QueryAtEnd(SOCKET_IO, path, query);
  }

  /** The request path is the kept part, below the base path if that is stripped. Nothing may be
      left of it below a base path. */
  predicate Keeps(strip: bool, basePath: string, path: string, kept: string) {
    && '?' !in kept && '#' !in kept
    && (if kept == "" then strip && !HasSuffix(basePath, "/*") else HasPrefix(kept, "/"))
    && path == if strip then basePath + kept else kept
  }

  /** The wildcard marker is cut off the kept part, as that is empty or starts with a slash. */
  lemma TrimmedPath(strip: bool, basePath: string, path: string, kept: string)
    requires Keeps(strip, basePath, path, kept)
    ensures TrimSuffix(path, "/*") == if strip then basePath + TrimSuffix(kept, "/*") else TrimSuffix(kept, "/*")
  {
    if strip && kept != "" {
      if |kept| >= 2 {
        assert path[|path| - 2..] == kept[|kept| - 2..];
        assert path[..|path| - 2] == basePath + kept[..|kept| - 2];
      } else {
        assert path[|path| - 1] == '/';
      }
    }
  }

  /** What the router keeps of the kept part: not the wildcard marker, and the root if it sees that
      nothing is left. */
  function RestOf(strip: bool, kept: string, query: string): string {
    var rest := TrimSuffix(kept, "/*");
    if rest == "" && strip && query == "" then "/" else rest
  }

  /** The path handed to the proxy, up to the query. */
  function Routed(strip: bool, kept: string, query: string): string {
    SocketPath(RestOf(strip, kept, query))
  }

  lemma StrippedPath(basePath: string, rest: string, query: string)
    ensures TrimPrefix(WithQuery(basePath + rest, query), basePath) == WithQuery(rest, query)
  {
    QueryAtEnd(basePath, rest, query);
    assert (basePath + WithQuery(rest, query))[|basePath|..] == WithQuery(rest, query);
  }

  lemma RoutedEquation(strip: bool, basePath: string, path: string, kept: string, query: string)
    requires Keeps(strip, basePath, path, kept)
    ensures WsPath(strip, basePath, FullPath(path, query)) == WithQuery(Routed(strip, kept, query), query)
    ensures var r := Routed(strip, kept, query);
            HasPrefix(r, SOCKET_IO) && '?' !in r && '#' !in r
  {
    TrimmedPath(strip, basePath, path, kept);
    var rest := TrimSuffix(kept, "/*");
    SocketPathOfQuery(rest, query);
    if strip { StrippedPath(basePath, rest, query); }
    NoMarks(RestOf(strip, kept, query));
  }

  lemma NoMarks(path: string)
    requires '?' !in path && '#' !in path
    ensures '?' !in SocketPath(path) && '#' !in SocketPath(path)
  {}

  /** The path that the proxy gets, and the query behind it: the part that is kept, without a wildcard
      marker at its end, below /socket.io in the shortest way. It is the whole kept part exactly if
      the path survives, and otherwise shorter than that. */
  lemma RoutedPath(strip: bool, basePath: string, path: string, kept: string, query: string)
    requires Keeps(strip, basePath, path, kept)
    ensures WsPath(strip, basePath, FullPath(path, query)) == WithQuery(Routed(strip, kept, query), query)
    ensures ShortestBelow(Routed(strip, kept, query), RestOf(strip, kept, query))
    ensures forall whole | ShortestBelow(whole, if kept == "" then "/" else kept) ::
              if PathSurvives(kept, query) then Routed(strip, kept, query) == whole
              else |Routed(strip, kept, query)| < |whole|
  {
    RoutedEquation(strip, basePath, path, kept, query);
    RoutedShortest(strip, kept, query);
    RoutedOrShorter(strip, kept, query);
    SocketPathShortest(OrRoot(kept));
  }

  lemma RoutedShortest(strip: bool, kept: string, query: string)
    requires kept == "" || HasPrefix(kept, "/")
    ensures ShortestBelow(Routed(strip, kept, query), RestOf(strip, kept, query))
  {
    SocketPathShortest(RestOf(strip, kept, query));
  }

  lemma RoutedOrShorter(strip: bool, kept: string, query: string)
    requires if kept == "" then strip else HasPrefix(kept, "/")
    ensures var r := Routed(strip, kept, query);
            if PathSurvives(kept, query) then r == Wanted(kept) else |r| < |Wanted(kept)|
  {
    if HasSuffix(kept, "/*") {
      ShorterSocketPath(kept);
    }
  }

  lemma ShorterSocketPath(kept: string)
    requires HasSuffix(kept, "/*")
    ensures |SocketPath(kept[..|kept| - 2])| < |SocketPath(kept)|
    ensures |kept| == 2 ==> |SocketPath("/")| < |SocketPath(kept)|
  {
    assert kept[|kept| - 2] == '/' && kept[|kept| - 1] == '*';
    assert HasPrefix(kept, SOCKET_IO) ==> kept[8] == 'i' && kept[9] == 'o';
  }

  /** What precedes the query of a URL cannot be longer than the path it was put behind. */
  lemma HeadLength(path: string, query: string)
    ensures |Before(WithQuery(path, query), '?')| <= |path|
    ensures '?' !in path ==> Before(WithQuery(path, query), '?') == path
  {
    var s := WithQuery(path, query);
    if query != "" {
      assert s[|path|] == '?';
      if '?' !in path { BeforeAppend(path, '?', query); assert s == path + ['?'] + query; }
    } else {
      if '?' !in path { BeforeAppend(path, '?', ""); }
    }
  }

  /** A path that comes out shorter is not hidden by any query behind it. */
  lemma ShorterDiffers(path: string, query: string, wanted: string, wantedQuery: string)
    requires '?' !in wanted && |path| < |wanted|
    ensures WithQuery(path, query) != WithQuery(wanted, wantedQuery)
  {
    HeadLength(path, query);
    HeadLength(wanted, wantedQuery);
  }

  lemma QueryTwice(path: string, query: string, again: string)
    requires query != "" && again != ""
    ensures WithQuery(WithQuery(path, query), again) == WithQuery(path, query + "?" + again)
  {
    assert path + "?" + query + "?" + again == path + "?" + (query + "?" + again);
  }

  /** A path with this query behind it does not parse as a URL. */
  predicate Unparsable(path: string, query: string) {
    (exists c | c in WithQuery(path, query) :: IsControl(c)) || !EscapesValid(path)
  }

  /** The character at `i` starts an escape. */
  predicate EscapeAt(s: string, i: int)
    requires 0 <= i < |s|
  {
    i + 2 < |s| && IsHex(s[i + 1]) && IsHex(s[i + 2])
  }

  lemma HexDigits(c: char)
    ensures IsHex(c) <==> c in "0123456789abcdefABCDEF"
  {
    var digits := "0123456789abcdefABCDEF";
    if '0' <= c <= '9' { assert digits[c as int - '0' as int] == c; }
    if 'a' <= c <= 'f' { assert digits[10 + c as int - 'a' as int] == c; }
    if 'A' <= c <= 'F' { assert digits[16 + c as int - 'A' as int] == c; }
  }

  predicate EscapesAll(s: string) {
    forall i | 0 <= i < |s| && s[i] == '%' :: EscapeAt(s, i)
  }

  lemma {:induction false} EscapesByIndex(s: string)
    ensures EscapesValid(s) <==> EscapesAll(s)
  {
    if s != "" {
      if s[0] != '%' {
        EscapesByIndex(s[1..]);
        EscapesShift(s, 1);
      } else if EscapeAt(s, 0) {
        EscapesByIndex(s[3..]);
        EscapesShift(s, 3);
      }
    }
  }

  lemma EscapesShift(s: string, n: nat)
    requires 0 < n <= |s| && (forall i | 0 < i < n :: s[i] != '%') && (s[0] == '%' ==> EscapeAt(s, 0))
    ensures EscapesAll(s) <==> EscapesAll(s[n..])
  {
    forall i | n <= i < |s| ensures s[i] == s[n..][i - n] && (EscapeAt(s, i) <==> EscapeAt(s[n..], i - n)) {}
    if EscapesAll(s[n..]) {
      forall i | 0 <= i < |s| && s[i] == '%' ensures EscapeAt(s, i) {
        if i >= n { assert s[n..][i - n] == '%'; }
      }
    }
    if EscapesAll(s) {
      forall i | 0 <= i < |s[n..]| && s[n..][i] == '%' ensures EscapeAt(s[n..], i) {
        assert s[i + n] == '%';
      }
    }
  }

  /** A path and query do not parse exactly if one of them holds a control character, or a percent
      sign of the path is not followed by two hexadecimal digits. */
  lemma ParseFails(path: string, query: string)
    requires HasPrefix(path, SOCKET_IO) && '?' !in path && '#' !in path && '#' !in query
    ensures Plain(WithQuery(path, query))
    ensures ParsePath(WithQuery(path, query)).Failed?
       <==> || (exists c | c in path + query :: (c as int) < 32 || c as int == 127)
            || (exists i | 0 <= i < |path| :: path[i] == '%' && !EscapeAt(path, i))
    ensures forall c :: IsHex(c) <==> c in "0123456789abcdefABCDEF"
  {
    forall c ensures IsHex(c) <==> c in "0123456789abcdefABCDEF" {
      HexDigits(c);
    }
    ParseWithQuery(path, query);
    EscapesByIndex(path);
    assert forall c :: IsControl(c) <==> (c as int) < 32 || c as int == 127;
    forall c | IsControl(c) ensures c in WithQuery(path, query) <==> c in path + query {}
  }

  /** What is dialled for any routed path and query with any header. A path that parses is decoded, and
      its own query wins over the header's; one that does not is taken as it is, its query being a
      part of it, and the header's query is put behind. */
  lemma TargetCases(path: string, query: string, header: string) returns (head: string, tail: string)
    requires HasPrefix(path, SOCKET_IO) && '?' !in path && '#' !in path && '#' !in query
    ensures Plain(WithQuery(path, query))
    ensures Target(WithQuery(path, query), header) == WithQuery(head, tail)
    ensures if Unparsable(path, query) then
              && head == path
              && tail == if query == "" then header else if header == "" then query else query + "?" + header
            else EscapesValid(path) && head == Unescape(path) && tail == if query != "" then query else header
  {
    ParseWithQuery(path, query);
    if Unparsable(path, query) {
      head, tail := path, if query == "" then header else if header == "" then query else query + "?" + header;
      if query != "" && header != "" { QueryTwice(path, query, header); }
    } else {
      head, tail := Unescape(path), if query != "" then query else header;
    }
  }

  /** The URL dialled for a WebSocket request has the kept path below /socket.io, as short as can be,
      and the query once,
      though the query travels both in the path and in a header, exactly for the requests that pass
      the check: no wildcard marker at the end, no query behind the bare base path, no forged query
      header, and a path that either parses and has no escapes, or does not parse and comes without
      a query. */
  lemma DialledExactly(strip: bool, basePath: string, path: string, kept: string, query: string, clientHeader: string,
                       intended: string)
    requires Keeps(strip, basePath, path, kept) && '#' !in query
    requires ShortestBelow(intended, if kept == "" then "/" else kept)
    ensures Dialled(strip, basePath, path, query, clientHeader)
              == (if query == "" then intended else intended + "?" + query)
       <==> Faithful(kept, query, clientHeader)
  {
    SocketPathShortest(OrRoot(kept));
    DialledWanted(strip, basePath, path, kept, query, clientHeader);
  }

  lemma DialledWanted(strip: bool, basePath: string, path: string, kept: string, query: string, clientHeader: string)
    requires Keeps(strip, basePath, path, kept) && '#' !in query
    ensures Dialled(strip, basePath, path, query, clientHeader) == WithQuery(Wanted(kept), query)
       <==> Faithful(kept, query, clientHeader)
  {
    RoutedEquation(strip, basePath, path, kept, query);
    RoutedOrShorter(strip, kept, query);
    if PathSurvives(kept, query) { UnparsableKept(kept, query); }
    var routed, wanted := Routed(strip, kept, query), Wanted(kept);
    var header := if query != "" then query else clientHeader;
    var head, tail := TargetCases(routed, query, header);
    if |head| < |wanted| {
      ShorterDiffers(head, tail, wanted, query);
    } else {
      SameHead(wanted, tail, query);
    }
    EscapesInWanted(kept);
  }

  /** The mount point makes no difference to whether a path parses. */
  lemma UnparsableKept(kept: string, query: string)
    ensures Unparsable(Wanted(kept), query) <==> Unparsable(kept, query)
  {
    if kept == "" {
      MountParses(Wanted(kept), query);
    } else if !HasPrefix(kept, SOCKET_IO) {
      UnparsableBehind(SOCKET_IO, kept, query);
    }
  }

  lemma UnparsableBehind(front: string, rest: string, query: string)
    requires '%' !in front && forall c | c in front :: !IsControl(c)
    ensures Unparsable(front + rest, query) <==> Unparsable(rest, query)
  {
    QueryAtEnd(front, rest, query);
    assert forall c :: c in WithQuery(front + rest, query) <==> c in front || c in WithQuery(rest, query);
    EscapesBehind(front, rest);
  }

  lemma {:induction false} EscapesBehind(front: string, rest: string)
    requires '%' !in front
    ensures EscapesValid(front + rest) <==> EscapesValid(rest)
  {
    if front == "" {
      assert front + rest == rest;
    } else {
      assert (front + rest)[1..] == front[1..] + rest;
      EscapesBehind(front[1..], rest);
    }
  }

  lemma MountParses(path: string, query: string)
    requires path == "/socket.io/"
    ensures Unparsable(path, query) <==> Unparsable("", query)
  {
    UnparsableBehind(path, "", query);
    assert path + "" == path;
  }

  lemma EscapesInWanted(kept: string)
    ensures '%' in Wanted(kept) <==> '%' in kept
  {}

  lemma SameHead(path: string, query: string, other: string)
    ensures WithQuery(path, query) == WithQuery(path, other) <==> query == other
  {
    if query != "" { assert (path + "?" + query)[|path| + 1..] == query; }
    if other != "" { assert (path + "?" + other)[|path| + 1..] == other; }
  }

  // ---------- which connections are taken for Socket.IO ----------

  predicate IsSocketIO(wsURL: string) {
    Contains(wsURL, "/socket.io/")
  }

  /** A request whose path was not itself below /socket.io is dialled below /socket.io/, unless
      nothing is left of its path and a query hides that, or the path is not stripped. */
  lemma DialledBelowSocketIO(strip: bool, basePath: string, path: string, kept: string, query: string,
                             clientHeader: string)
    requires Keeps(strip, basePath, path, kept) && '#' !in query
    requires !HasPrefix(TrimSuffix(kept, "/*"), SOCKET_IO)
    ensures HasPrefix(Dialled(strip, basePath, path, query, clientHeader), SOCKET_IO + "/")
       <==> TrimSuffix(kept, "/*") != "" || (strip && query == "")
  {
    RoutedEquation(strip, basePath, path, kept, query);
    var routed, rest := Routed(strip, kept, query), TrimSuffix(kept, "/*");
    var head, tail := TargetCases(routed, query, if query != "" then query else clientHeader);
    if rest == "" && !(strip && query == "") {
      RoutedBare(routed, head);
      NotBelow(SOCKET_IO, tail);
    } else {
      HeadBelow(head, routed, if rest == "" then "/" else rest);
      PrefixOfQuery(head, tail, SOCKET_IO + "/");
    }
  }

  lemma RoutedBare(routed: string, head: string)
    requires routed == SocketPath("")
    requires head == routed || (EscapesValid(routed) && head == Unescape(routed))
    ensures head == SOCKET_IO
  {
    assert routed == SOCKET_IO && '%' !in SOCKET_IO;
  }

  lemma NotBelow(front: string, query: string)
    ensures !HasPrefix(WithQuery(front, query), front + "/")
  {
    assert query != "" ==> WithQuery(front, query)[|front|] == '?';
    assert (front + "/")[|front|] == '/';
  }

  lemma HeadBelow(head: string, routed: string, rest: string)
    requires HasPrefix(rest, "/") && routed == SOCKET_IO + rest
    requires head == routed || (EscapesValid(routed) && head == Unescape(routed))
    ensures HasPrefix(head, SOCKET_IO + "/")
  {
    SlashAfter(SOCKET_IO, rest);
    if head != routed {
      UnescapeFront(SOCKET_IO, rest);
      SlashAfter(SOCKET_IO, Unescape(rest));
    }
  }

  /** Whether the path that is dialled, the query left aside, goes below /socket.io/. */
  predicate RoutedBelow(strip: bool, kept: string, query: string) {
    var rest := TrimSuffix(kept, "/*");
    if !HasPrefix(rest, SOCKET_IO) then rest != "" || (strip && query == "")
    else Contains(if Unparsable(rest, query) then rest else Unescape(rest), "/socket.io/")
  }

  lemma RewrittenStartsWithSlash(head: string, routed: string, query: string)
    requires HasPrefix(routed, SOCKET_IO)
    requires head == routed || (EscapesValid(routed) && head == Unescape(routed))
    ensures HasPrefix(WithQuery(head, query), "/")
  {
    assert routed[0] == '/';
  }

  /** The marker does not fit across the ends of the host except around it. */
  lemma MarkerInURL(scheme: string, host: string, rest: string, name: string)
    requires '/' !in scheme && '/' !in host && '/' !in name && name != "" && HasPrefix(rest, "/")
    ensures Contains(scheme + "://" + host + rest, "/" + name + "/")
       <==> host == name || Contains(rest, "/" + name + "/")
  {
    var marker, behind := "/" + name + "/", host + rest;
    assert marker[0] == '/' && marker[1] == name[0] != '/';
    ContainsBehind(scheme + ":", "//" + behind, marker);
    assert scheme + ":" + ("//" + behind) == scheme + "://" + host + rest;
    ContainsStep('/', "/" + behind, marker);
    assert ['/'] + ("/" + behind) == "//" + behind;
    ContainsStep('/', behind, marker);
    MarkerAtHost(host, rest, name);
    ContainsBehind(host, rest, marker);
  }

  lemma MarkerInWsURL(https: bool, host: string, target: string)
    requires '/' !in host && HasPrefix(target, "/")
    ensures IsSocketIO(WsURL(https, host, target)) <==> host == "socket.io" || Contains(target, "/socket.io/")
  {
    var name := "socket.io";
    assert "/socket.io/" == "/" + name + "/";
    if https {
      MarkerInURL("wss", host, target, name);
    } else {
      MarkerInURL("ws", host, target, name);
    }
  }

  lemma MarkerAtHost(host: string, rest: string, name: string)
    requires '/' !in host && '/' !in name && HasPrefix(rest, "/")
    ensures HasPrefix("/" + (host + rest), "/" + name + "/") <==> host == name
  {
    var url, marker := "/" + (host + rest), "/" + name + "/";
    assert url[1 + |host|] == '/' && marker[1 + |name|] == '/';
    assert forall k | 0 <= k < |host| :: url[1 + k] == host[k];
    assert forall k | 0 <= k < |name| :: marker[1 + k] == name[k];
    if HasPrefix(url, marker) {
      assert url[1 + |name|] == marker[1 + |name|];
      assert |host| <= |name|;
      assert url[1 + |host|] == marker[1 + |host|];
      assert host == url[1..][..|host|] && name == marker[1..][..|name|];
    }
    if host == name { assert rest[0] == '/'; }
  }

  lemma HeadContains(strip: bool, kept: string, query: string, head: string)
    requires kept == "" || HasPrefix(kept, "/")
    requires var routed := Routed(strip, kept, query);
             if Unparsable(routed, query) then head == routed else EscapesValid(routed) && head == Unescape(routed)
    ensures Contains(head, "/socket.io/") <==> RoutedBelow(strip, kept, query)
  {
    var routed, rest := Routed(strip, kept, query), TrimSuffix(kept, "/*");
    assert SOCKET_IO + "/" == "/socket.io/";
    if HasPrefix(rest, SOCKET_IO) {
      assert routed == rest;
    } else if rest == "" && !(strip && query == "") {
      RoutedBare(routed, head);
    } else {
      HeadBelow(head, routed, if rest == "" then "/" else rest);
      assert head[0..] == head;
    }
  }

  /** A query that is dialled twice holds the marker if it does once. */
  lemma QueryContains(head: string, tail: string, query: string, sub: string)
    requires '?' !in sub && sub != ""
    requires tail == query || tail == query + "?" + query
    ensures Contains(WithQuery(head, tail), sub) <==> Contains(head, sub) || Contains(query, sub)
  {
    ContainsInQuery(head, tail, sub);
    ContainsTwice(query, sub);
  }

  lemma DialledContains(strip: bool, basePath: string, path: string, kept: string, query: string, clientHeader: string)
    requires Keeps(strip, basePath, path, kept) && '#' !in query
    ensures var dialled := Dialled(strip, basePath, path, query, clientHeader);
            && HasPrefix(dialled, "/")
            && (Contains(dialled, "/socket.io/")
                <==> RoutedBelow(strip, kept, query)
                     || Contains(if query != "" then query else clientHeader, "/socket.io/"))
  {
    RoutedEquation(strip, basePath, path, kept, query);
    var routed, header := Routed(strip, kept, query), if query != "" then query else clientHeader;
    var head, tail := TargetCases(routed, query, header);
    RewrittenStartsWithSlash(head, routed, tail);
    QueryContains(head, tail, header, "/socket.io/");
    HeadContains(strip, kept, query, head);
  }

  /** Exactly which requests are taken for Socket.IO connections: those dialled below /socket.io/,
      and those that have the marker elsewhere in the URL, in the query or as the host's name. */
  lemma SocketIOExactly(https: bool, host: string, strip: bool, basePath: string, path: string, kept: string,
                        query: string, clientHeader: string)
    requires Keeps(strip, basePath, path, kept) && '#' !in query && '/' !in host
    ensures IsSocketIO(WsURL(https, host, Dialled(strip, basePath, path, query, clientHeader)))
       <==> || host == "socket.io"
            || RoutedBelow(strip, kept, query)
            || Contains(if query != "" then query else clientHeader, "/socket.io/")
  {
    DialledContains(strip, basePath, path, kept, query, clientHeader);
    MarkerInWsURL(https, host, Dialled(strip, basePath, path, query, clientHeader));
  }

  /** Below a bare base path a query keeps the connection from being taken for Socket.IO, though the
      same request without a query is. */
  lemma BareBasePath(https: bool, host: string, basePath: string, query: string)
    requires '#' !in query && '/' !in host && !HasSuffix(basePath, "/*")
    requires host != "socket.io" && !Contains(query, "/socket.io/")
    ensures IsSocketIO(WsURL(https, host, Dialled(true, basePath, basePath, query, "")))
       <==> query == ""
  {
    assert basePath + "" == basePath;
    SocketIOExactly(https, host, true, basePath, basePath, "", query, "");
  }

  lemma {:induction false} NoEscapes(s: string)
    requires '%' !in s
    ensures EscapesValid(s)
  {
    if s != "" { NoEscapes(s[1..]); }
  }

  lemma Parses(path: string, query: string)
    requires '%' !in path && (forall c | c in path :: !IsControl(c)) && (forall c | c in query :: !IsControl(c))
    ensures !Unparsable(path, query)
  {
    NoEscapes(path);
  }

  lemma BareBaseDialled(basePath: string, query: string)
    requires '#' !in query && !HasSuffix(basePath, "/*") && query != ""
    requires forall c | c in query :: !IsControl(c)
    ensures Dialled(true, basePath, basePath, query, "") == WithQuery(SOCKET_IO, query)
  {
    assert basePath + "" == basePath;
    RoutedEquation(true, basePath, basePath, "", query);
    var routed := Routed(true, "", query);
    var head, tail := TargetCases(routed, query, query);
    RoutedBare(routed, head);
    SocketIOParses(query);
  }

  lemma SocketIOParses(query: string)
    requires forall c | c in query :: !IsControl(c)
    ensures !Unparsable(SOCKET_IO, query)
  {
    Parses(SOCKET_IO, query);
  }

  lemma ShorterHoldsNone(s: string, sub: string)
    requires |s| < |sub|
    ensures !Contains(s, sub)
  {
    assert forall i | 0 <= i <= |s| :: |s[i..]| < |sub|;
  }

  /** A query shorter than the marker behind the bare base path, as in /api?x=1 for base path /api. */
  lemma BareBaseShortQuery(https: bool, host: string, basePath: string, query: string)
    requires '#' !in query && '/' !in host && !HasSuffix(basePath, "/*") && host != "socket.io"
    requires 0 < |query| < |"/socket.io/"| && forall c | c in query :: !IsControl(c)
    ensures Dialled(true, basePath, basePath, query, "") == WithQuery(SOCKET_IO, query)
    ensures !IsSocketIO(WsURL(https, host, WithQuery(SOCKET_IO, query)))
  {
    BareBaseDialled(basePath, query);
    ShorterHoldsNone(query, "/socket.io/");
    BareBasePath(https, host, basePath, query);
  }

  lemma BareBaseExample()
    ensures Dialled(true, "/api", "/api", "x=1", "") == WithQuery("/socket.io", "x=1")
    ensures !IsSocketIO(WsURL(false, "backend", WithQuery("/socket.io", "x=1")))
  {
    assert !HasSuffix("/api", "/*") && '/' !in "backend" && |"x=1"| == 3;
    BareBaseShortQuery(false, "backend", "/api", "x=1");
  }

  lemma SlashAfter(front: string, rest: string)
    requires HasPrefix(rest, "/")
    ensures HasPrefix(front + rest, front + "/")
  {}

  lemma PrefixOfQuery(path: string, query: string, prefix: string)
    requires HasPrefix(path, prefix)
    ensures HasPrefix(WithQuery(path, query), prefix)
  {}

  lemma {:induction false} UnescapeFront(front: string, rest: string)
    requires '%' !in front && EscapesValid(front + rest)
    ensures EscapesValid(rest) && Unescape(front + rest) == front + Unescape(rest)
  {
    if front == "" {
      assert front + rest == rest;
    } else {
      assert (front + rest)[1..] == front[1..] + rest;
      UnescapeFront(front[1..], rest);
      assert [front[0]] + (front[1..] + Unescape(rest)) == front + Unescape(rest);
    }
  }
}
