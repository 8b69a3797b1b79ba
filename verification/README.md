# Verified models of the gateway's stateful parts

This project models four parts of the API gateway in Dafny and proves what they promise:

- **Rate limiter** (`RateLimitSpec.dfy`, `RateLimitBounds.dfy`, `RateLimiter.dfy`). A map from
  addresses to records that are updated in place, a background sweep, and an exact answer to the
  question how many calls of one address can be admitted in an interval.
- **TTL cache and HTTP proxy** (`CacheSpec.dfy`, `Cache.dfy`, `CacheRuns.dfy`, `HttpRequests.dfy`,
  `HttpProxyRuns.dfy`, `HttpProxy.dfy`). Set and the sweep read the clock before they take the lock, so
  each is two events that interleave with all others; on top of that same cache, any number of
  forwarded requests in flight, and the proxy object as one of their runs.
- **WebSocket relay** (`Relay.dfy`, `RelaySafety.dfy`, `RelayTheorems.dfy`, `RelayErrors.dfy`,
  `RelayBounds.dfy`). The main goroutine with the Socket.IO handshake, two forwarders, the error
  channel and the `done` channel as a labelled transition system over every interleaving and every
  point of failure.
- **Strings** (`CleanPath.dfy`, `GoStrings.dfy`, `HeaderLists.dfy`, `WsTargets.dfy`). Metric labels,
  bracketed header lists, and the URL that is dialled for a WebSocket request.

Objects whose methods change fields are classes; each carries a ghost log of its critical sections,
and every method is proved against the specification read off that log. Runs are event sequences in
which an event that is not possible changes nothing, so a statement about every sequence is a
statement about every run. Where a theorem speaks of what happened before a state, it speaks of the
events at their places in the run, not of records that the steps keep.

## Assumptions

- Clock readings within one lock order do not go back. Cache stamps that are compared with the
  "no expiration" mark zero are not negative.
- Times, counts and durations are unbounded integers (nanoseconds where the code uses durations).
- Reads and writes on a closed connection fail; a read or write may also fail at any other time.
- The server closes the client connection after the WebSocket handler has returned.
- Request paths hold no `?` and no `#`, and queries no `#`: the HTTP server has split them off.
- A request path is never empty. The query of a WebSocket request is the serialised list of its arguments
  (`internal/router/router.go:118`), in which an empty argument is dropped and escapes are rewritten,
  not the text that the client sent.
- A configured base path is meant literally: it does not end in the router's own wildcard `/*`.
- The host of a service's URL holds no `/`.
- Cache keys are values that do not change. With an empty query the key is the framework's path string,
  which the framework may reuse after the handler unless the application is created with immutable
  strings, and `internal/server/server.go` does not ask for those.
- Header keys are in canonical form.

## Where the code does less than one might expect

- Two quotas never fit into an interval as long as the window: the opener of the earlier window lies
  outside of it. The exact maximum is `RateLimitBounds.ExactBound`, and it is reached for every
  quota, window and length.
- With a negative window the limiter never limits (`NegativeWindowNeverLimits`).
- The relay does not stop in boundedly many steps after its first error: the other direction may go on
  for any number of messages until the main goroutine is scheduled (`RelayBounds.UnboundedBeforeDone`). The steps
  still to come are bounded exactly if `done` is closed or both directions have ended
  (`RelayBounds.BoundedExactly`).
- A WebSocket path that contains a control character or a bad escape does not parse, and then a query
  is dialled twice; an escape in a path that parses is dialled decoded; a path ending in `/*` loses
  that ending; a query behind the bare base path leaves no slash after `/socket.io`; and a request
  without a query passes a client's own `X-Original-Query` header on as the query.
  `WsTargets.DialledExactly` says exactly when the URL is right.
- Not every routed request is taken for a Socket.IO connection. With stripping on and base path `/api`,
  the path `/api` with the query `x=1` is dialled as `/socket.io?x=1`, which lacks the marker
  `/socket.io/` (`WsTargets.BareBaseExample`, and `WsTargets.BareBasePath` for all of its kind).
  `WsTargets.SocketIOExactly` says which requests have it.
- Base path stripping works exactly for a configured base path with a leading and no trailing slash, and
  for the empty one (`WsTargets.StripExact`).
- Parsing a bracketed list takes brackets off the first and last element as well
  (`HeaderLists.RoundTrip` says when it does not).
- A cache key is shared by different requests if a path may hold a `?` (`HttpRequests.KeyCollides`).

## Model

| member | source | states |
|---|---|---|
| `RateLimiters.RateLimiter.IsLimited` | internal/middleware/ratelimit.go:71-94 | the answer is the one computed from the address's own call times; the map stays the one its history leads to |
| `RateLimiters.RateLimiter.CountCall` | internal/middleware/ratelimit.go:78-93 | opens a window with count 1 or increments the shared record in place, no other entry changes, no record becomes shared |
| `RateLimiters.RateLimiter.RemoveExpired` | internal/middleware/ratelimit.go:112-122 | the sweep keeps the object valid, so it changes no later answer |
| `RateLimiters.RateLimiter.DropExpired` | internal/middleware/ratelimit.go:116-121 | deleting while iterating in any order leaves exactly the entries that are not over |
| `RateLimiters.RateLimiter.constructor` | internal/middleware/ratelimit.go:35-48 | an empty limiter with the window in nanoseconds |
| `RateLimitSpec.TableMatchesHistory` | internal/middleware/ratelimit.go:71-122 | after every run the stored count is the number of calls in the current window, rejected ones included, and an entry is missing only if its window is over |
| `RateLimitSpec.RunRefinesHistory` | internal/middleware/ratelimit.go:71-122 | all decisions of every run with sweeps and many addresses equal those of a history-only specification |
| `RateLimitSpec.SweepsUnobservable` | internal/middleware/ratelimit.go:97-122 | runs with the same calls give the same decisions, however many sweeps they contain and wherever |
| `RateLimitSpec.AddressesIndependent` | internal/middleware/ratelimit.go:71-94 | the answer to a call depends on the call times of its own address only |
| `RateLimitSpec.WindowExact` | internal/middleware/ratelimit.go:80-93 | a window is exactly the calls up to and including its length after the opener, and exactly the first max(1,max) of them are admitted |
| `RateLimitSpec.NegativeWindowNeverLimits` | internal/middleware/ratelimit.go:80-87 | with a negative window nothing is limited |
| `RateLimitSpec.SweepFrees` | internal/middleware/ratelimit.go:112-122 | right after a sweep the map holds exactly the addresses whose current window, by their own calls, is not over |
| `RateLimitBounds.IntervalBound` | internal/middleware/ratelimit.go:71-94 | in every run no closed interval of a given length sees more admitted calls of one address than the exact bound |
| `RateLimitBounds.SimpleBound` | internal/middleware/ratelimit.go:71-94 | the exact bound is at most max(1,max) * (1 + (L+W)/(W+1)) for length L and window W, and equal to it exactly if W+1 divides L |
| `RateLimitBounds.IntervalBoundTight` | internal/middleware/ratelimit.go:80-93 | for every quota, window and length some run reaches the exact bound |
| `RateLimitBounds.TwoQuotasNeverFit` | internal/middleware/ratelimit.go:80-93 | over an interval as long as the window every run admits at most 2 * max(1,max) - 1 calls of one address, and some run that many |
| `CacheSpec.StampMeaning` | pkg/cache/cache.go:47-57 | negative durations never expire, zero means the default, positive ones end after the duration |
| `CacheSpec.LastTouchDecides` | pkg/cache/cache.go:42-100 | the last commit that touches a key decides what the log promises for it |
| `CacheSpec.LastPutOrigin` | pkg/cache/cache.go:42-100 | what the log promises was put for that key and not touched since |
| `CacheSpec.AgreesSweep` | pkg/cache/cache.go:131-142 | a sweep with an old stamp keeps the map in agreement with the log |
| `CacheSpec.CountAgainstLive` | pkg/cache/cache.go:103-108 | the count is at least the number of live entries, with equality exactly when no expired entry is left, as after a sweep stamped now |
| `Caches.Cache.Set` | pkg/cache/cache.go:42-44 | commits the value with the default expiration |
| `Caches.Cache.SetWithExpiration` | pkg/cache/cache.go:47-66 | commits the value with the expiration stamped before the lock, however old the stamp |
| `Caches.Cache.Get` | pkg/cache/cache.go:69-84 | answers the last committed Set since the last Delete or Clear unless it has expired |
| `Caches.Cache.Delete` | pkg/cache/cache.go:87-92 | later answers for the key are none |
| `Caches.Cache.Clear` | pkg/cache/cache.go:95-100 | later answers for all keys are none |
| `Caches.Cache.Count` | pkg/cache/cache.go:103-108 | never below the number of keys that a Get would find, equal exactly when nothing stored has expired |
| `Caches.Cache.DeleteExpired` | pkg/cache/cache.go:131-142 | the sweep with a stamp of any age drops exactly what is over at the stamp and leaves the log's answers as they are |
| `CacheRuns.GetRefinesLog` | pkg/cache/cache.go:42-142 | in every concurrent run Get answers what the log of commits promises |
| `CacheRuns.GetFromEvents` | pkg/cache/cache.go:42-100 | in every concurrent run Get finds the value given to the last committed Set of its key until that Set's duration has passed since its clock reading, and nothing after a Delete or Clear |
| `CacheRuns.GetUntouched` | pkg/cache/cache.go:69-84 | a key that no committed Set touched is not found |
| `CacheRuns.ClockFromEvents` | pkg/cache/cache.go:56-79 | the clock that stamps and lookups read is the latest tick |
| `CacheRuns.CountRefinesLog` | pkg/cache/cache.go:103-108 | in every concurrent run the count is at least the number of keys that the log promises an answer for, with equality exactly when no stored entry has expired |
| `CacheRuns.CountAfterSweep` | pkg/cache/cache.go:103-142 | right after a sweep committed at its own stamp the count is exact |
| `CacheRuns.LateSweepHarmless` | pkg/cache/cache.go:131-142 | a sweep committed arbitrarily late removes nothing a Get at the commit or later would have returned |
| `CacheRuns.SweepsUnobservable` | pkg/cache/cache.go:116-142 | every Get answers as in the run without its sweeps |
| `HttpRequests.KeyInjective` | internal/proxy/http.go:180-185 | on paths free of '?' the key determines path and query |
| `HttpRequests.KeyCollides` | internal/proxy/http.go:180-185 | exactly which other pairs share a key |
| `HttpRequests.BuildRequestURL` | internal/proxy/http.go:97-111 | the upstream URL is the service's address and path, the slashed forwarded path and the query |
| `HttpRequests.RequestURLPath` | internal/proxy/http.go:97-107 | between host and query the upstream URL has the segments of the service's own path, then those of the forwarded one |
| `HttpRequests.RequestURLExact` | internal/proxy/http.go:97-111 | two requests to a service go to the same URL exactly if they have the same query and, up to a missing leading slash, the same path |
| `HttpProxies.HTTPProxy.Forward` | internal/proxy/http.go:68-177 | a WebSocket upgrade is passed on untouched; a hit replies 200 with the cached body, sends and stores nothing; a miss sends verb and URL, replies what the upstream did and stores exactly the 200 answers to a GET; the request is a stretch of a run of the concurrent model, with the same reply and the same commits, and the next request can follow |
| `HttpProxies.HTTPProxy.Ask` | internal/proxy/http.go:92-176 | the upstream part: what is sent, what is replied, and that exactly a 200 answer to a GET is stored |
| `HttpProxies.ServedRun` | internal/proxy/http.go:68-177 | an undisturbed request, played as events of the concurrent model, replies and commits what one pass through the code does |
| `HttpProxies.CachedIsFresh` | internal/proxy/http.go:82-163 | what the proxy object finds in its cache was stored by an earlier GET of this path and query that got 200 with this body, at most the time to live ago |
| `HttpProxyRuns.CacheSeesRun` | internal/proxy/http.go:82-163 | whatever requests do, the shared cache goes through one of its own concurrent runs, so its theorems hold below the proxy |
| `HttpProxyRuns.BoundedStaleness` | internal/proxy/http.go:82-163 | what a lookup finds goes back to four events in order: a GET for the same path and query arrived, got 200 with this body, took its stamp at most the time to live ago, and stored |
| `HttpProxyRuns.ServedFromCache` | internal/proxy/http.go:82-89 | a reply served from the cache is a 200 to a GET whose body was stored for exactly this request at most the time to live ago |
| `HttpProxyRuns.RepliesAreUpstreams` | internal/proxy/http.go:82-176 | with a fixed upstream every GET is replied to with the upstream's status and body, 502 if it is not reachable and 500 for the other failures, from the cache or not |
| `HttpProxyRuns.CachingTransparent` | internal/proxy/http.go:82-176 | with a fixed upstream, a GET gets the same status and body in any two runs, caching on or off |
| `RelaySafety.RunKeepsInv` | internal/proxy/websocket.go:240-384 | every run of the goroutines and peers keeps the relay's invariant |
| `RelayTheorems.DeliveredInOrder` | internal/proxy/websocket.go:240-360 | each peer receives a prefix of what was read from the other, which is a prefix of what the events say it sent; at most one message per direction is in flight or lost |
| `RelayTheorems.SendsNeverBlock` | internal/proxy/websocket.go:294-360 | no send on the error channel blocks, none is nil, no forwarder sends twice |
| `RelayErrors.ErrorsAreReported` | internal/proxy/websocket.go:306-358 | in every run a forwarder is about to report an error, or has, if and only if a read or write of its own failed with exactly that error |
| `RelayErrors.FailsOnce` | internal/proxy/websocket.go:306-358 | no forwarder fails twice in a run |
| `RelayErrors.HandshakeFailureEnds` | internal/proxy/websocket.go:240-281 | a failed read or write of the handshake, and nothing else, ends the proxy with an error before any forwarder is started |
| `RelayErrors.FirstErrorDecides` | internal/proxy/websocket.go:363-384 | without such a failure the result is decided by the failed read or write whose error was sent first; nil exactly for close codes 1000, 1001, 1005 and 1006 of section 7.4.1 of RFC 6455 |
| `RelayTheorems.LateTraffic` | internal/proxy/websocket.go:295-360 | whatever follows the closing of done, at most one more message is read and one more written over both directions, and if both then the same one |
| `RelayTheorems.ClosingOrder` | internal/proxy/websocket.go:234-292 | an error is reported before done is closed, done is closed before the target connection and that before the client connection |
| `RelayTheorems.ConnectionsExclusive` | internal/proxy/websocket.go:240-360 | no connection ever has two readers or two writers |
| `RelayTheorems.HandshakeFirst` | internal/proxy/websocket.go:240-291 | the client is not read and the target not written before the target's first message has reached the client; forwarding starts after both first messages were exchanged |
| `RelayBounds.StepsWithinRank` | internal/proxy/websocket.go:293-384 | once done is closed or both directions have ended, every step of the proxy lowers a measure, which no peer raises, in every run |
| `RelayBounds.BoundedExactly` | internal/proxy/websocket.go:240-384 | in every reachable state the steps still to come have a bound if and only if done is closed or both directions have ended; the bound is six |
| `RelayBounds.BoundedAfterDone` | internal/proxy/websocket.go:293-384 | at most five steps of the proxy follow the closing of done |
| `RelayTheorems.RestMeansStopped` | internal/proxy/websocket.go:234-384 | from the first error on, the proxy rests only when all three goroutines have stopped and both connections are closed |
| `RelayBounds.UnboundedBeforeDone` | internal/proxy/websocket.go:331-363 | between the first error and the main goroutine's next step any list of messages can still be relayed |
| `CleanPaths.CleanPath` | internal/middleware/metrics.go:49-59 | the loop of replacements computes the one-pass result in exactly as many passes as the longest slash run has to be halved |
| `CleanPaths.LongestRunHalves` | internal/middleware/metrics.go:52 | one replacement halves the longest run of slashes, rounding up |
| `CleanPaths.HalvingsIsLog` | internal/middleware/metrics.go:51-53 | the number of passes is the logarithm to base two of the longest run, rounded up |
| `CleanPaths.CollapseOfReplace` | internal/middleware/metrics.go:52 | a replacement does not change what is left after collapsing |
| `CleanPaths.CleanIsCanonical` | internal/middleware/metrics.go:49-59 | the label is the root slash, if there was one, and the non-empty segments joined by single slashes |
| `CleanPaths.CleanKeeps` | internal/middleware/metrics.go:49-59 | the sequence of non-empty segments and the leading slash are preserved |
| `CleanPaths.SameLabel` | internal/middleware/metrics.go:37-41 | two routes share a label exactly when they have the same segments and agree on the leading slash |
| `CleanPaths.CleanIsNormal` | internal/middleware/metrics.go:49-59 | no double slash, no trailing slash but for the root, idempotent |
| `HeaderLists.AddHeader` | internal/proxy/websocket.go:143-155 | one header contributes the parsed list or its plain value, and an empty list creates no key |
| `HeaderLists.CopyHeaders` | internal/proxy/websocket.go:136-156 | a key comes out exactly if its header is not empty, contributes something and is not, case aside, one of the upgrade's; it comes out with the list parsed from its value, or with the value |
| `HeaderLists.SkippedExactly` | internal/proxy/websocket.go:137-141 | a header is kept back exactly if it is empty or its name is, compared letter by letter without regard to case, one of those of the upgrade |
| `HeaderLists.Subprotocols` | internal/proxy/websocket.go:179-195 | the same list as the header loop makes, or the configured one if nothing is left |
| `HeaderLists.ParsedAreTokens` | internal/proxy/websocket.go:143-155 | all values parsed from any input are non-empty, trimmed and free of commas |
| `HeaderLists.ParsedPieces` | internal/proxy/websocket.go:143-155 | any bracketed value: brackets at the ends go, and the pieces between commas come out in order without the white space around them and without the empty ones |
| `HeaderLists.RoundTrip` | internal/proxy/websocket.go:143-155 | parsing inverts printing exactly for lists of such tokens that begin and end without a bracket |
| `WsTargets.MountIsBase` | internal/router/router.go:75-86 | the route prefix is the base path up to one slash at either end, and is the base path exactly if that is empty or has a leading and no trailing slash |
| `WsTargets.StripExact` | internal/router/router.go:75-86 | stripping leaves the remainder exactly for base paths with a leading and no trailing slash, and the empty one |
| `WsTargets.RewritePath` | internal/router/router.go:250-261 | the rewritten path begins with /socket.io, ends with the stripped path or the root, and is longer than that only if it lacked the prefix |
| `WsTargets.SocketPathShortest` | internal/router/router.go:259-261 | the prefixed path is the one shortest string that begins with /socket.io and ends with the path; prefixing again changes nothing |
| `WsTargets.RoutedPath` | internal/router/router.go:118-130 | the path handed to the proxy is the shortest string below /socket.io that ends with what the router keeps, with the query behind it; it has the whole kept path, or the root, exactly unless a wildcard marker ends it or a query follows the bare base path |
| `WsTargets.BuildURLs` | internal/proxy/websocket.go:85-125 | an https target is dialled with wss and its HTTP URL is https, any other with ws and http; both URLs are alike behind that, and the headers come back without the query they carried |
| `WsTargets.ParseFails` | internal/proxy/websocket.go:106-109 | a routed path and query fail to parse exactly if one holds a control character or an escape of the path lacks its two digits |
| `WsTargets.TargetCases` | internal/proxy/websocket.go:106-125 | a path that parses is decoded and its own query wins over the header's; one that does not is used as it is, with the header's query behind it |
| `WsTargets.EscapeRoundTrip` | internal/proxy/websocket.go:106-121 | the decoded path of an escaped one is the original, for digits of either case |
| `WsTargets.DialledExactly` | internal/proxy/websocket.go:93-125 | the dialled URL is the shortest string below /socket.io that ends with the kept path, and the query exactly once, if and only if the request passes a check on its path, query and header |
| `WsTargets.DialledBelowSocketIO` | internal/router/router.go:250-261 | a request without a /socket.io path of its own is dialled below /socket.io/ exactly if something is left of its path, or it is stripped and has no query |
| `WsTargets.SocketIOExactly` | internal/proxy/websocket.go:173-178 | a routed request is taken for a Socket.IO connection if and only if its path is dialled below /socket.io/, its query holds the marker, or the host is called socket.io |
| `WsTargets.BareBasePath` | internal/router/router.go:253-261 | a request for exactly the base path is taken for Socket.IO without a query and not with one |

## Left out

- Circuit breaker, retrier and the timeout wrapper: their state machines live in libraries that are not part of this model.
- JWT, API key, CORS and security headers, logging, metrics export, tracing, configuration, server wiring: plumbing or single checks.
- HTTP prefix stripping: the path that the HTTP proxy forwards is a parameter, as it comes out of the framework's wildcard.
- The stand-in address for a client without one: one branch before the limiter is called.
- Choice of the target: always the first one.
- Ticker goroutines and Close: a sweep is an event that may come at any time.
- Response headers of the HTTP proxy: a cache hit does not replay them, so transparency is about status and body.
- The upstream's own timing, TLS, dialling and the full URL grammar: a path that starts with two slashes, which would name a host, is excluded.
- HeaderLists.CopyHeaders: keys that differ only in case are not merged, because the router hands over canonical keys.
- HeaderLists.Skipped: lower-casing covers ASCII, which is all a header name may hold.
- RelayTheorems.RestMeansStopped: whether the scheduler ever runs the main goroutine after an error is left to the scheduler.
- HttpProxies.HTTPProxy.Forward: headers and body of the upstream request are not part of the model, only its verb and URL; and the framework's error handler is taken to reply with the error's status and text.
