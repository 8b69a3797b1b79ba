/** Any number of requests in flight at once, with cache sweeps and the clock in between. */
module HttpProxyRuns {
  import opened CacheSpec
  import CacheRuns
  import opened HttpRequests

  /** The cache setting and the time to live (the cache's default expiration). */
  datatype Config = Config(enabled: bool, ttl: int)

  datatype Phase =
    | Arrived(req: Request)
    | Fetching(req: Request)
    | Fetched(req: Request, body: string)
    | Stamped(req: Request, body: string, stamp: int)
    | Replied(req: Request, reply: Reply)

  datatype Event =
    | Tick(now: nat)
    | Arrive(id: nat, req: Request)
    | LookUp(id: nat)
    | Fetch(id: nat, outcome: Outcome)
    | TakeStamp(id: nat)
    | Store(id: nat)
    | StampSweep(op: nat)
    | CommitSweep(op: nat)

  /** The cache, with its clock and the operations on it under way, and the requests. A store into the
      cache goes by the number of its request. */
  datatype State = State(cache: CacheRuns.State<string>, requests: map<nat, Phase>)

  predicate Cacheable(cfg: Config, req: Request) {
    cfg.enabled && req.verb == GET
  }

  function Key(req: Request): string {
    CacheKey(req.path, req.query)
  }

  /** The events that are steps of a request. */
  predicate OfRequest(e: Event) {
    e.Arrive? || e.LookUp? || e.Fetch? || e.TakeStamp? || e.Store?
  }

  /** The request is where the event takes it on. */
  predicate InPhase(s: State, e: Event) {
    match e
    case LookUp(id) => id in s.requests && s.requests[id].Arrived?
    case Fetch(id, _) => id in s.requests && s.requests[id].Fetching?
    case TakeStamp(id) => id in s.requests && s.requests[id].Fetched?
    case Store(id) => id in s.requests && s.requests[id].Stamped?
    case Arrive(id, _) => id !in s.requests
    case _ => true
  }

  /** What an event does to the cache. */
  function CacheEvents(s: State, e: Event): seq<CacheRuns.Event<string>>
    requires InPhase(s, e)
  {
    match e
    case Tick(now) => [CacheRuns.Tick(now)]
    case TakeStamp(id) => [CacheRuns.StampSet(id, Key(s.requests[id].req), s.requests[id].body, 0)]
    case Store(id) => [CacheRuns.CommitSet(id)]
    case StampSweep(op) => [CacheRuns.StampSweep(op)]
    case CommitSweep(op) => [CacheRuns.CommitSweep(op)]
    case _ => []
  }

  function CacheAfter(cfg: Config, s: State, e: Event): CacheRuns.State<string>
    requires InPhase(s, e)
  {
    var events := CacheEvents(s, e);
    if events == [] then s.cache else CacheRuns.Apply(cfg.ttl, s.cache, events[0])
  }

  /** What an event does to its request. */
  function NextPhase(cfg: Config, s: State, e: Event): Phase
    requires InPhase(s, e) && OfRequest(e)
  {
    match e
    case Arrive(_, req) => Arrived(req)
    case LookUp(id) =>
      var req := s.requests[id].req;
      var found := if Cacheable(cfg, req) then Lookup(s.cache.items, Key(req), s.cache.clock) else None;
      (match found
       case Some(body) => Replied(req, Reply(OK, body))
       case None => Fetching(req))
    case Fetch(id, outcome) =>
      var req := s.requests[id].req;
      if Cacheable(cfg, req) && outcome.Answered? && outcome.status == OK then Fetched(req, outcome.body)
      else Replied(req, ReplyOf(outcome))
    case TakeStamp(id) => Stamped(s.requests[id].req, s.requests[id].body, s.cache.clock)
    case Store(id) => Replied(s.requests[id].req, Reply(OK, s.requests[id].body))
  }

  /** One event; an event that is not possible in the state changes nothing. */
  function Apply(cfg: Config, s: State, e: Event): State {
    if !InPhase(s, e) then s
    else State(CacheAfter(cfg, s, e), if OfRequest(e) then s.requests[e.id := NextPhase(cfg, s, e)] else s.requests)
  }

  function After(cfg: Config, start: nat, events: seq<Event>): State {
    if events == [] then State(CacheRuns.After(cfg.ttl, start, []), map[])
    else Apply(cfg, After(cfg, start, events[..|events| - 1]), events[|events| - 1])
  }

  lemma AfterOneMore(cfg: Config, start: nat, events: seq<Event>, e: Event)
    ensures After(cfg, start, events + [e]) == Apply(cfg, After(cfg, start, events), e)
  {
    assert (events + [e])[..|events|] == events;
  }

  /** The cache sees one of its own runs, so that all that holds of those holds here. */
  lemma {:induction false} CacheSeesRun(cfg: Config, start: nat, events: seq<Event>)
    returns (cacheEvents: seq<CacheRuns.Event<string>>)
    ensures After(cfg, start, events).cache == CacheRuns.After(cfg.ttl, start, cacheEvents)
  {
    if events == [] {
      cacheEvents := [];
    } else {
      var s, e := After(cfg, start, events[..|events| - 1]), events[|events| - 1];
      cacheEvents := CacheSeesRun(cfg, start, events[..|events| - 1]);
      if InPhase(s, e) && CacheEvents(s, e) != [] {
        var before := cacheEvents;
        cacheEvents := before + [CacheEvents(s, e)[0]];
        assert cacheEvents[..|before|] == before;
      }
    }
  }

  // ---------- the events behind a state ----------

  /** The state in which the event at `i` finds the run. */
  function At(cfg: Config, start: nat, events: seq<Event>, i: int): State
    requires 0 <= i <= |events|
  {
    After(cfg, start, events[..i])
  }

  /** The event at `i` is possible where it stands in the run. */
  ghost predicate Happens(cfg: Config, start: nat, events: seq<Event>, i: int) {
    0 <= i < |events| && InPhase(At(cfg, start, events, i), events[i])
  }

  lemma SamePrefix(cfg: Config, start: nat, events: seq<Event>, n: nat, i: int)
    requires 0 <= i < n <= |events|
    ensures At(cfg, start, events[..n], i) == At(cfg, start, events, i)
    ensures Happens(cfg, start, events[..n], i) <==> Happens(cfg, start, events, i)
  {
    assert events[..n][..i] == events[..i];
  }

  lemma {:induction false} ArriveOrigin(cfg: Config, start: nat, events: seq<Event>, id: nat) returns (i: int)
    requires id in After(cfg, start, events).requests
    ensures Happens(cfg, start, events, i) && events[i] == Arrive(id, After(cfg, start, events).requests[id].req)
  {
    var n := |events| - 1;
    if id !in After(cfg, start, events[..n]).requests {
      i := n;
    } else {
      i := ArriveOrigin(cfg, start, events[..n], id);
      SamePrefix(cfg, start, events, n, i);
    }
  }

  /** What a request is about to store was fetched for it, as a 200 answer to a GET. */
  lemma {:induction false} FetchOrigin(cfg: Config, start: nat, events: seq<Event>, id: nat) returns (i: int)
    requires var s := After(cfg, start, events);
             id in s.requests && (s.requests[id].Fetched? || s.requests[id].Stamped?)
    ensures var p := After(cfg, start, events).requests[id];
            && Happens(cfg, start, events, i) && events[i] == Fetch(id, Answered(200, p.body))
            && At(cfg, start, events, i).requests[id] == Fetching(p.req)
            && cfg.enabled && p.req.verb == "GET"
  {
    var n := |events| - 1;
    var before := After(cfg, start, events[..n]);
    if id in before.requests && before.requests[id].Fetching? {
      i := n;
    } else {
      i := FetchOrigin(cfg, start, events[..n], id);
      SamePrefix(cfg, start, events, n, i);
    }
  }

  /** The stamp is the clock at the moment when it was taken. */
  lemma {:induction false} StampOrigin(cfg: Config, start: nat, events: seq<Event>, id: nat) returns (i: int)
    requires var s := After(cfg, start, events); id in s.requests && s.requests[id].Stamped?
    ensures var p := After(cfg, start, events).requests[id];
            && Happens(cfg, start, events, i) && events[i] == TakeStamp(id)
            && At(cfg, start, events, i).requests[id] == Fetched(p.req, p.body)
            && At(cfg, start, events, i).cache.clock == p.stamp
  {
    var n := |events| - 1;
    var before := After(cfg, start, events[..n]);
    if id in before.requests && before.requests[id].Fetched? {
      i := n;
    } else {
      i := StampOrigin(cfg, start, events[..n], id);
      SamePrefix(cfg, start, events, n, i);
    }
  }

  /** The store that waits for the cache's lock under the number of a request is that request's. */
  ghost predicate WaitingSound(cfg: Config, s: State, id: nat) {
    var waiting := id in s.requests && s.requests[id].Stamped?;
    && (id in s.cache.sets <==> waiting)
    && (waiting ==>
          var Stamped(req, body, stamp) := s.requests[id];
          s.cache.sets[id] == CacheRuns.Pending(Key(req), Item(body, Stamp(cfg.ttl, 0, stamp))))
  }

  ghost predicate Inv(cfg: Config, s: State) {
    s.cache.clock >= 0 && forall id: nat :: WaitingSound(cfg, s, id)
  }

  lemma WaitingStaysSound(cfg: Config, s: State, e: Event, id: nat)
    requires forall other: nat :: WaitingSound(cfg, s, other)
    ensures WaitingSound(cfg, Apply(cfg, s, e), id)
  {
    assert WaitingSound(cfg, s, id);
  }

  lemma {:induction false} RunKeepsInv(cfg: Config, start: nat, events: seq<Event>)
    ensures Inv(cfg, After(cfg, start, events))
  {
    if events != [] {
      var n := |events| - 1;
      RunKeepsInv(cfg, start, events[..n]);
      var s := After(cfg, start, events[..n]);
      forall id: nat ensures WaitingSound(cfg, Apply(cfg, s, events[n]), id) {
        WaitingStaysSound(cfg, s, events[n], id);
      }
    }
  }

  /** The event stores under this key. */
  predicate StoresUnder(s: State, e: Event, key: string) {
    e.Store? && InPhase(s, e) && Key(s.requests[e.id].req) == key
  }

  /** An entry is as it was before, unless the event stored under its key. */
  lemma EntryKept(cfg: Config, s: State, e: Event, key: string)
    requires Inv(cfg, s) && key in Apply(cfg, s, e).cache.items && !StoresUnder(s, e, key)
    ensures key in s.cache.items && Apply(cfg, s, e).cache.items[key] == s.cache.items[key]
  {
    if e.Store? { assert WaitingSound(cfg, s, e.id); }
  }

  lemma EntryStored(cfg: Config, s: State, e: Event, key: string)
    requires Inv(cfg, s) && StoresUnder(s, e, key)
    ensures var p := s.requests[e.id];
            var items := Apply(cfg, s, e).cache.items;
            key in items && items[key] == Item(p.body, Stamp(cfg.ttl, 0, p.stamp))
  {
    assert WaitingSound(cfg, s, e.id);
  }

  /** An entry of the cache is the one that its last store put there. */
  lemma {:induction false} EntryOrigin(cfg: Config, start: nat, events: seq<Event>, key: string) returns (i: int)
    requires key in After(cfg, start, events).cache.items
    ensures Happens(cfg, start, events, i) && StoresUnder(At(cfg, start, events, i), events[i], key)
    ensures var p := At(cfg, start, events, i).requests[events[i].id];
            After(cfg, start, events).cache.items[key] == Item(p.body, Stamp(cfg.ttl, 0, p.stamp))
  {
    var n := |events| - 1;
    var s := After(cfg, start, events[..n]);
    RunKeepsInv(cfg, start, events[..n]);
    if StoresUnder(s, events[n], key) {
      i := n;
      EntryStored(cfg, s, events[n], key);
    } else {
      EntryKept(cfg, s, events[n], key);
      i := EntryOrigin(cfg, start, events[..n], key);
      SamePrefix(cfg, start, events, n, i);
    }
  }

  // ---------- bounded staleness ----------

  ghost predicate PathsPlain(events: seq<Event>) {
    forall i | 0 <= i < |events| && events[i].Arrive? :: '?' !in events[i].req.path
  }

  /** In this order: a GET for this path and query arrived, the upstream answered it with 200 and this
      body, its stamp was taken, and its store was committed. */
  ghost predicate StoredFor(cfg: Config, start: nat, events: seq<Event>, path: string, query: string, body: string,
                            arrived: int, fetched: int, stamped: int, stored: int)
  {
    && arrived < fetched < stamped < stored
    && Happens(cfg, start, events, arrived) && Happens(cfg, start, events, fetched)
    && Happens(cfg, start, events, stamped) && Happens(cfg, start, events, stored)
    && events[arrived].Arrive? && events[arrived].req == Request("GET", path, query)
    && var id := events[arrived].id;
       && events[fetched] == Fetch(id, Answered(200, body))
       && events[stamped] == TakeStamp(id) && events[stored] == Store(id)
  }

  /** The events before a store, from the phases of its request. */
  lemma StoreHistory(cfg: Config, start: nat, events: seq<Event>, stored: int)
    returns (arrived: int, fetched: int, stamped: int)
    requires Happens(cfg, start, events, stored) && events[stored].Store?
    ensures var p := At(cfg, start, events, stored).requests[events[stored].id];
            && StoredFor(cfg, start, events, p.req.path, p.req.query, p.body, arrived, fetched, stamped, stored)
            && At(cfg, start, events, stamped).cache.clock == p.stamp
            && events[arrived].req == p.req && cfg.enabled
  {
    var id := events[stored].id;
    stamped := StampOrigin(cfg, start, events[..stored], id);
    SamePrefix(cfg, start, events, stored, stamped);
    fetched := FetchOrigin(cfg, start, events[..stamped], id);
    SamePrefix(cfg, start, events, stamped, fetched);
    arrived := ArriveOrigin(cfg, start, events[..fetched], id);
    SamePrefix(cfg, start, events, fetched, arrived);
  }

  /** In every run, with any number of requests, stores and sweeps under way, what a lookup finds
      for a path and query was stored before by a GET for exactly that path and query that the
      upstream had answered with 200 and this body, and the store's stamp was taken at most the time
      to live ago. */
  lemma BoundedStaleness(cfg: Config, start: nat, events: seq<Event>, path: string, query: string)
    returns (arrived: int, fetched: int, stamped: int, stored: int)
    requires cfg.ttl > 0 && '?' !in path && PathsPlain(events)
    requires var s := After(cfg, start, events); Lookup(s.cache.items, CacheKey(path, query), s.cache.clock).Some?
    ensures var s := After(cfg, start, events);
            var body := Lookup(s.cache.items, CacheKey(path, query), s.cache.clock).value;
            && StoredFor(cfg, start, events, path, query, body, arrived, fetched, stamped, stored)
            && s.cache.clock <= At(cfg, start, events, stamped).cache.clock + cfg.ttl
            && cfg.enabled
  {
    stored := EntryOrigin(cfg, start, events, CacheKey(path, query));
    arrived, fetched, stamped := StoreHistory(cfg, start, events, stored);
    RunKeepsInv(cfg, start, events[..stamped]);
    var req := events[arrived].req;
    KeyInjective(req.path, req.query, path, query);
  }

  /** The same for a reply served from the cache: it is a 200 to a GET, with caching on, and its body
      was stored for exactly this request at most the time to live ago. */
  lemma ServedFromCache(cfg: Config, start: nat, events: seq<Event>, id: nat)
    returns (arrived: int, fetched: int, stamped: int, stored: int)
    requires cfg.ttl > 0 && PathsPlain(events)
    requires var s := After(cfg, start, events);
             && id in s.requests && s.requests[id].Arrived?
             && Apply(cfg, s, LookUp(id)).requests[id].Replied?
    ensures var s := After(cfg, start, events);
            var req, reply := s.requests[id].req, Apply(cfg, s, LookUp(id)).requests[id].reply;
            && cfg.enabled && req.verb == "GET" && reply.status == 200
            && StoredFor(cfg, start, events, req.path, req.query, reply.body, arrived, fetched, stamped, stored)
            && s.cache.clock <= At(cfg, start, events, stamped).cache.clock + cfg.ttl
  {
    var req := After(cfg, start, events).requests[id].req;
    var i := ArriveOrigin(cfg, start, events, id);
    arrived, fetched, stamped, stored := BoundedStaleness(cfg, start, events, req.path, req.query);
  }

  // ---------- transparency ----------

  /** The upstream answers GET as a fixed function of path and query, failures included. */
  ghost predicate FixedUpstream(upstream: (string, string) -> Outcome, cfg: Config, start: nat, events: seq<Event>) {
    forall i | Happens(cfg, start, events, i) && events[i].Fetch? ::
      var req := At(cfg, start, events, i).requests[events[i].id].req;
      req.verb == "GET" ==> events[i].outcome == upstream(req.path, req.query)
  }

  lemma FixedBefore(upstream: (string, string) -> Outcome, cfg: Config, start: nat, events: seq<Event>, n: nat)
    requires FixedUpstream(upstream, cfg, start, events) && n <= |events|
    ensures FixedUpstream(upstream, cfg, start, events[..n])
  {
    forall i | Happens(cfg, start, events[..n], i) && events[..n][i].Fetch?
      ensures var req := At(cfg, start, events[..n], i).requests[events[..n][i].id].req;
              req.verb == "GET" ==> events[..n][i].outcome == upstream(req.path, req.query)
    {
      SamePrefix(cfg, start, events, n, i);
    }
  }

  /** What is about to be stored is what the upstream answers. */
  lemma FetchedIsFixed(upstream: (string, string) -> Outcome, cfg: Config, start: nat, events: seq<Event>, id: nat)
    requires FixedUpstream(upstream, cfg, start, events)
    requires var s := After(cfg, start, events);
             id in s.requests && (s.requests[id].Fetched? || s.requests[id].Stamped?)
    ensures var p := After(cfg, start, events).requests[id];
            upstream(p.req.path, p.req.query) == Answered(200, p.body)
  {
    var i := FetchOrigin(cfg, start, events, id);
  }

  /** And so is what is found under the key of a request. */
  lemma FoundIsFixed(upstream: (string, string) -> Outcome, cfg: Config, start: nat, events: seq<Event>,
                     path: string, query: string)
    requires FixedUpstream(upstream, cfg, start, events) && PathsPlain(events) && '?' !in path
    requires CacheKey(path, query) in After(cfg, start, events).cache.items
    ensures upstream(path, query) == Answered(200, After(cfg, start, events).cache.items[CacheKey(path, query)].value)
  {
    var i := EntryOrigin(cfg, start, events, CacheKey(path, query));
    FixedBefore(upstream, cfg, start, events, i);
    FetchedIsFixed(upstream, cfg, start, events[..i], events[i].id);
    var a := ArriveOrigin(cfg, start, events[..i], events[i].id);
    var req := events[a].req;
    KeyInjective(req.path, req.query, path, query);
  }

  /** A GET is replied to as the upstream answers it, wherever the reply comes from. */
  lemma {:induction false} RepliesAreUpstreams(upstream: (string, string) -> Outcome, cfg: Config, start: nat,
                                               events: seq<Event>, id: nat)
    requires FixedUpstream(upstream, cfg, start, events) && PathsPlain(events)
    requires var s := After(cfg, start, events);
             id in s.requests && s.requests[id].Replied? && s.requests[id].req.verb == "GET"
    ensures var p := After(cfg, start, events).requests[id];
            match upstream(p.req.path, p.req.query)
            case Answered(status, body) => p.reply == Reply(status, body)
            case Unreachable => p.reply.status == 502
            case _ => p.reply.status == 500
    ensures var p := After(cfg, start, events).requests[id]; p.reply == ReplyOf(upstream(p.req.path, p.req.query))
  {
    var n := |events| - 1;
    var s := After(cfg, start, events[..n]);
    FixedBefore(upstream, cfg, start, events, n);
    if id in s.requests && s.requests[id].Replied? {
      RepliesAreUpstreams(upstream, cfg, start, events[..n], id);
    } else {
      var e, req := events[n], s.requests[id].req;
      if e.LookUp? {
        var a := ArriveOrigin(cfg, start, events[..n], id);
        FoundIsFixed(upstream, cfg, start, events[..n], req.path, req.query);
      } else if e.Fetch? {
        assert Happens(cfg, start, events, n);
      } else {
        FetchedIsFixed(upstream, cfg, start, events[..n], id);
      }
    }
  }

  /** Caching is transparent: when GET upstream is a fixed function of path and query, a GET gets the
      same status and body in any two runs, with caching on or off and whatever else is in flight. */
  lemma CachingTransparent(upstream: (string, string) -> Outcome,
                           cfg: Config, start: nat, events: seq<Event>, id: nat,
                           cfg': Config, start': nat, events': seq<Event>, id': nat)
    requires FixedUpstream(upstream, cfg, start, events) && PathsPlain(events)
    requires FixedUpstream(upstream, cfg', start', events') && PathsPlain(events')
    requires id in After(cfg, start, events).requests && id' in After(cfg', start', events').requests
    requires var p, p' := After(cfg, start, events).requests[id], After(cfg', start', events').requests[id'];
             p.Replied? && p'.Replied? && p.req == p'.req && p.req.verb == "GET"
    ensures After(cfg, start, events).requests[id].reply == After(cfg', start', events').requests[id'].reply
  {
    RepliesAreUpstreams(upstream, cfg, start, events, id);
    RepliesAreUpstreams(upstream, cfg', start', events', id');
  }
}
