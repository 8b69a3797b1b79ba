/** The HTTP proxy object: one forwarded request from start to end, as a stretch of a run. */
module HttpProxies {
  import opened CacheSpec
  import CacheRuns
  import opened Caches
  import opened GoStrings
  import opened HttpRequests
  import opened HttpProxyRuns

  class HTTPProxy {
    const enableCache: bool
    const cache: Cache?<string>
    /** The run that the requests so far amount to, and their number. */
    ghost var history: seq<Event>
    ghost var served: nat

    ghost function Cfg(): Config {
      Config(enableCache && cache != null, if cache != null then cache.defaultExpiration else 0)
    }

    ghost function Reached(): State
      reads this
    {
      After(Cfg(), 0, history)
    }

    /** The cache has committed what the run has. Its own sweeps may come at any time: they commit
        nothing. */
    ghost predicate Valid()
      reads this, cache
    {
      && (cache != null ==> cache.Valid() && cache.log == Reached().cache.log)
      && (forall id | id in Reached().requests :: id < served)
    }

    /** No clock reading so far is later. */
    ghost predicate ClockAt(now: int)
      reads this, cache
    {
      Reached().cache.clock <= now && (cache != null ==> cache.latest <= now)
    }

    constructor (enableCache: bool, cache: Cache?<string>)
      requires cache != null ==> cache.Valid() && cache.log == []
      ensures Valid() && history == []
      ensures this.enableCache == enableCache && this.cache == cache
    {
      this.enableCache := enableCache;
      this.cache := cache;
      history := [];
      served := 0;
    }

    /** What a request finds in the cache at `now`. */
    ghost function Cached(req: Request, now: int): Option<string>
      reads cache
    {
      if enableCache && cache != null && req.verb == "GET" then Answer(cache.log, CacheKey(req.path, req.query), now)
      else None
    }

    /** The part of a request that asks the upstream service. */
    method Ask(req: Request, target: Option<Address>, path: string, outcome: Outcome, stampAt: nat)
      returns (reply: Reply, sent: Option<Sent>)
      requires cache != null ==> cache.Valid() && cache.latest <= stampAt
      requires target.None? <==> outcome.BadTarget?
      modifies if cache != null then {cache} else {}
      ensures cache != null ==> cache.Valid() && cache.latest <= stampAt
      ensures reply == ReplyOf(outcome)
      ensures sent == if target.None? || outcome.BadRequest? then None
                      else Some(Sent(req.verb, RequestURL(target.value, path, req.query)))
      ensures cache != null ==>
                cache.log == old(cache.log) +
                  if enableCache && req.verb == "GET" && outcome.Answered? && outcome.status == 200
                  then [Put(CacheKey(req.path, req.query),
                            Item(outcome.body, Stamp(cache.defaultExpiration, 0, stampAt)))]
                  else []
    {
      reply, sent := ReplyOf(outcome), None;
      if target.None? {
        return;
      }
      var requestURL := BuildRequestURL(target.value, path, req.query);
      if outcome.BadRequest? {
        return;
      }
      sent := Some(Sent(req.verb, requestURL));
      if outcome.Unreachable? || outcome.Truncated? {
        return;
      }
      if enableCache && cache != null && req.verb == "GET" && outcome.status == OK {
        cache.Set(CacheKey(req.path, req.query), outcome.body, stampAt);
      }
    }

    /** One request with no other request in between. `upgrade` is the request's header of that name,
        `target` the service's URL if it parses, and `path` what the router forwards. `lookupAt` and
        `stampAt` are the clock readings of the lookup and of the store; `outcome` is what becomes of
        the request if it is not answered from the cache. There is no reply when the request is left
        to the next handler, and `sent` is what goes to the upstream service. Whatever is not left to
        another handler is a stretch of the run, with the reply that the request gets there. */
    method Forward(upgrade: string, req: Request, target: Option<Address>, path: string,
                   lookupAt: nat, outcome: Outcome, stampAt: nat)
      returns (reply: Option<Reply>, sent: Option<Sent>)
      requires Valid() && ClockAt(lookupAt) && lookupAt <= stampAt
      requires target.None? <==> outcome.BadTarget?
      modifies this, if cache != null then {cache} else {}
      ensures Valid() && ClockAt(stampAt)
      ensures if upgrade == "websocket" then
                && reply == None && sent == None && (cache != null ==> cache.log == old(cache.log))
                && history == old(history)
              else
                && history == old(history) + Served(old(served), req, lookupAt, outcome, stampAt)
                && old(served) in Reached().requests
                && reply.Some? && Reached().requests[old(served)] == Replied(req, reply.value)
      ensures upgrade != "websocket" ==>
              match old(Cached(req, lookupAt))
              case Some(body) => reply == Some(Reply(200, body)) && sent == None && cache.log == old(cache.log)
              case None =>
                && reply.Some?
                && (match outcome
                    case Answered(status, body) => reply.value == Reply(status, body)
                    case Unreachable => reply.value.status == 502
                    case _ => reply.value.status == 500)
                && sent == (if target.None? || outcome.BadRequest? then None
                            else Some(Sent(req.verb, RequestURL(target.value, path, req.query))))
                && (cache != null ==>
                      cache.log == old(cache.log) +
                        if enableCache && req.verb == "GET" && outcome.Answered? && outcome.status == 200
                        then [Put(CacheKey(req.path, req.query),
                                  Item(outcome.body, Stamp(cache.defaultExpiration, 0, stampAt)))]
                        else [])
    {
      reply, sent := None, None;
      if upgrade == "websocket" {
        return;
      }
      ServedEffect(Cfg(), history, served, req, lookupAt, outcome, stampAt);
      ReplyStatus(outcome);
      history := history + Served(served, req, lookupAt, outcome, stampAt);
      served := served + 1;
      if enableCache && cache != null && req.verb == "GET" {
        var cached := cache.Get(CacheKey(req.path, req.query), lookupAt);
        if cached.Some? {
          return Some(Reply(OK, cached.value)), None;
        }
      }
      var answer;
      answer, sent := Ask(req, target, path, outcome, stampAt);
      reply := Some(answer);
    }
  }

  // ---------- one request as a stretch of a run ----------

  /** The events of a request that nothing else interrupts. */
  function Served(id: nat, req: Request, lookupAt: nat, outcome: Outcome, stampAt: nat): seq<Event> {
    [Tick(lookupAt), Arrive(id, req), LookUp(id)] + [Fetch(id, outcome), Tick(stampAt), TakeStamp(id), Store(id)]
  }

  function FoundBy(cfg: Config, s: State, req: Request, now: int): Option<string> {
    if Cacheable(cfg, req) then Answer(s.cache.log, Key(req), now) else None
  }

  function PutBy(cfg: Config, req: Request, outcome: Outcome, stampAt: int): seq<Commit<string>> {
    if Cacheable(cfg, req) && outcome.Answered? && outcome.status == OK
    then [Put(Key(req), Item(outcome.body, Stamp(cfg.ttl, 0, stampAt)))]
    else []
  }

  lemma LookedUp(cfg: Config, events: seq<Event>, id: nat, req: Request, now: nat) returns (s: State)
    requires After(cfg, 0, events).cache.clock <= now && id !in After(cfg, 0, events).requests
    ensures s == After(cfg, 0, events + [Tick(now), Arrive(id, req), LookUp(id)])
    ensures var before := After(cfg, 0, events);
            && s.cache.log == before.cache.log && s.cache.clock == now
            && s.requests == before.requests[id :=
                 match FoundBy(cfg, before, req, now)
                 case Some(body) => Replied(req, Reply(OK, body))
                 case None => Fetching(req)]
  {
    var ticked, arrived := events + [Tick(now)], events + [Tick(now)] + [Arrive(id, req)];
    AfterOneMore(cfg, 0, events, Tick(now));
    AfterOneMore(cfg, 0, ticked, Arrive(id, req));
    AfterOneMore(cfg, 0, arrived, LookUp(id));
    assert arrived + [LookUp(id)] == events + [Tick(now), Arrive(id, req), LookUp(id)];
    s := After(cfg, 0, arrived + [LookUp(id)]);
    LookupIsAnswer(cfg, ticked, Key(req));
  }

  lemma LookupIsAnswer(cfg: Config, events: seq<Event>, key: string)
    ensures var s := After(cfg, 0, events);
            Lookup(s.cache.items, key, s.cache.clock) == Answer(s.cache.log, key, s.cache.clock)
  {
    var cacheEvents := CacheSeesRun(cfg, 0, events);
    CacheRuns.GetRefinesLog(cfg.ttl, 0, cacheEvents, key);
  }

  /** A request that is over after the lookup takes no further step. */
  lemma Over(cfg: Config, events: seq<Event>, id: nat, outcome: Outcome, stampAt: nat)
    requires var before := After(cfg, 0, events);
             id in before.requests && before.requests[id].Replied? && before.cache.clock <= stampAt
    ensures var before := After(cfg, 0, events);
            var s := After(cfg, 0, events + [Fetch(id, outcome)] + [Tick(stampAt)] + [TakeStamp(id)] + [Store(id)]);
            s.cache.clock == stampAt && s.cache.log == before.cache.log && s.requests == before.requests
  {
    AfterFour(cfg, events, Fetch(id, outcome), Tick(stampAt), TakeStamp(id), Store(id));
  }

  lemma AfterFour(cfg: Config, events: seq<Event>, a: Event, b: Event, c: Event, d: Event)
    ensures var s := Apply(cfg, Apply(cfg, After(cfg, 0, events), a), b);
            && After(cfg, 0, events + [a] + [b]) == s
            && After(cfg, 0, events + [a] + [b] + [c] + [d]) == Apply(cfg, Apply(cfg, s, c), d)
  {
    AfterOneMore(cfg, 0, events, a);
    AfterOneMore(cfg, 0, events + [a], b);
    AfterOneMore(cfg, 0, events + [a] + [b], c);
    AfterOneMore(cfg, 0, events + [a] + [b] + [c], d);
  }

  /** A request that found nothing goes to the upstream service, and its answer perhaps to the cache. */
  lemma Finished(cfg: Config, events: seq<Event>, id: nat, req: Request, outcome: Outcome, stampAt: nat)
    requires var before := After(cfg, 0, events);
             id in before.requests && before.requests[id] == Fetching(req) && before.cache.clock <= stampAt
    ensures var before := After(cfg, 0, events);
            var s := After(cfg, 0, events + [Fetch(id, outcome)] + [Tick(stampAt)] + [TakeStamp(id)] + [Store(id)]);
            && s.cache.clock == stampAt
            && s.cache.log == before.cache.log + PutBy(cfg, req, outcome, stampAt)
            && s.requests == before.requests[id := Replied(req, ReplyOf(outcome))]
  {
    AfterFour(cfg, events, Fetch(id, outcome), Tick(stampAt), TakeStamp(id), Store(id));
    var ticked := events + [Fetch(id, outcome)] + [Tick(stampAt)];
    RunKeepsInv(cfg, 0, ticked);
    StoredIfFetched(cfg, After(cfg, 0, ticked), id);
  }

  /** The last two steps of a request: they store what was fetched, and do nothing after a reply. */
  lemma StoredIfFetched(cfg: Config, s: State, id: nat)
    requires Inv(cfg, s) && id in s.requests && (s.requests[id].Fetched? || s.requests[id].Replied?)
    ensures var p, t := s.requests[id], Apply(cfg, Apply(cfg, s, TakeStamp(id)), Store(id));
            && t.cache.clock == s.cache.clock
            && if p.Replied? then t.cache.log == s.cache.log && t.requests == s.requests
               else
                 && t.cache.log == s.cache.log + [Put(Key(p.req), Item(p.body, Stamp(cfg.ttl, 0, s.cache.clock)))]
                 && t.requests == s.requests[id := Replied(p.req, Reply(OK, p.body))]
  {
    assert WaitingSound(cfg, s, id);
  }

  lemma ServedRun(cfg: Config, events: seq<Event>, id: nat, req: Request, lookupAt: nat, outcome: Outcome,
                  stampAt: nat)
    requires var before := After(cfg, 0, events); before.cache.clock <= lookupAt && id !in before.requests
    requires lookupAt <= stampAt
    ensures var before, s := After(cfg, 0, events), After(cfg, 0, events + Served(id, req, lookupAt, outcome, stampAt));
            && s.cache.clock == stampAt
            && match FoundBy(cfg, before, req, lookupAt)
               case Some(body) =>
                 && s.cache.log == before.cache.log
                 && s.requests == before.requests[id := Replied(req, Reply(OK, body))]
               case None =>
                 && s.cache.log == before.cache.log + PutBy(cfg, req, outcome, stampAt)
                 && s.requests == before.requests[id := Replied(req, ReplyOf(outcome))]
  {
    var lookup := [Tick(lookupAt), Arrive(id, req), LookUp(id)];
    var middle := LookedUp(cfg, events, id, req, lookupAt);
    if middle.requests[id].Replied? {
      Over(cfg, events + lookup, id, outcome, stampAt);
    } else {
      Finished(cfg, events + lookup, id, req, outcome, stampAt);
    }
    assert events + lookup + [Fetch(id, outcome)] + [Tick(stampAt)] + [TakeStamp(id)] + [Store(id)]
        == events + Served(id, req, lookupAt, outcome, stampAt);
  }

  /** The same, as far as the object needs it. */
  lemma ServedEffect(cfg: Config, events: seq<Event>, id: nat, req: Request, lookupAt: nat, outcome: Outcome,
                     stampAt: nat)
    requires After(cfg, 0, events).cache.clock <= lookupAt <= stampAt
    requires forall other | other in After(cfg, 0, events).requests :: other < id
    ensures var before, s := After(cfg, 0, events), After(cfg, 0, events + Served(id, req, lookupAt, outcome, stampAt));
            var found := FoundBy(cfg, before, req, lookupAt);
            && s.cache.clock == stampAt
            && (forall other | other in s.requests :: other < id + 1)
            && id in s.requests
            && s.requests[id] == Replied(req, if found.Some? then Reply(OK, found.value) else ReplyOf(outcome))
            && s.cache.log == before.cache.log + if found.Some? then [] else PutBy(cfg, req, outcome, stampAt)
  {
    ServedRun(cfg, events, id, req, lookupAt, outcome, stampAt);
  }

  lemma ReplyStatus(outcome: Outcome)
    ensures match outcome
            case Answered(status, body) => ReplyOf(outcome) == Reply(status, body)
            case Unreachable => ReplyOf(outcome).status == 502
            case _ => ReplyOf(outcome).status == 500
  {}

  /** What the object finds in its cache was stored for exactly this path and query by a GET that the
      upstream had answered with 200 and this body, at most the time to live ago. */
  lemma CachedIsFresh(proxy: HTTPProxy, req: Request, now: nat)
    returns (arrived: int, fetched: int, stamped: int, stored: int)
    requires proxy.Valid() && proxy.ClockAt(now) && proxy.Cfg().ttl > 0
    requires PathsPlain(proxy.history) && '?' !in req.path && proxy.Cached(req, now).Some?
    ensures StoredFor(proxy.Cfg(), 0, proxy.history, req.path, req.query, proxy.Cached(req, now).value,
                      arrived, fetched, stamped, stored)
    ensures now <= At(proxy.Cfg(), 0, proxy.history, stamped).cache.clock + proxy.Cfg().ttl
  {
    var cfg, n := proxy.Cfg(), |proxy.history|;
    var ticked := proxy.history + [Tick(now)];
    AfterOneMore(cfg, 0, proxy.history, Tick(now));
    LookupIsAnswer(cfg, ticked, Key(req));
    arrived, fetched, stamped, stored := BoundedStaleness(cfg, 0, ticked, req.path, req.query);
    assert ticked[..n] == proxy.history;
    SamePrefix(cfg, 0, ticked, n, arrived);
    SamePrefix(cfg, 0, ticked, n, fetched);
    SamePrefix(cfg, 0, ticked, n, stamped);
    SamePrefix(cfg, 0, ticked, n, stored);
  }
}
