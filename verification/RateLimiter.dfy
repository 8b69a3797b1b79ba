/** The limiter object itself: a map from addresses to records that are updated in place. */
module RateLimiters {
  import opened RateLimitSpec

  /** The record behind one address. The map holds references to it, and a call within an open
      window increments the count through that reference. */
  class RateLimitData {
    var count: int
    var expiration: int

    constructor (count: int, expiration: int)
      ensures this.count == count && this.expiration == expiration
    {
      this.count := count;
      this.expiration := expiration;
    }
  }

  class RateLimiter {
    var ips: map<string, RateLimitData>
    const max: int
    const window: int
    /** Every critical section so far, in order. */
    ghost var log: seq<Step>

    ghost function Cfg(): Config { Config(max, window) }

    /** The map without the references. */
    ghost function Contents(): (t: Table)
      reads this, ips.Values
      ensures t.Keys == ips.Keys
    {
      map ip | ip in ips :: Entry(ips[ip].count, ips[ip].expiration)
    }

    /** No two addresses share a record. */
    ghost predicate Separate()
      reads this
    {
      forall a, b | a in ips && b in ips && ips[a] == ips[b] :: a == b
    }

    /** No record is shared, the clock readings are in order, and the map is the one that the run
        so far leads to. */
    ghost predicate Valid()
      reads this, ips.Values
    {
      Separate() && Monotone(log) && Contents() == TableAfter(Cfg(), log)
    }

    /** The clock reading is not older than the one before it. */
    ghost predicate ClockAt(now: int)
      reads this
    {
      log != [] ==> log[|log| - 1].at <= now
    }

    constructor (max: int, windowSeconds: int)
      ensures Valid() && fresh(ips.Values)
      ensures this.max == max && window == windowSeconds * 1_000_000_000
      ensures log == [] && ips == map[]
    {
      this.max := max;
      this.window := windowSeconds * 1_000_000_000;
      ips := map[];
      log := [];
    }

    /** `now` is the clock, read while the lock is held. The answer is the one computed from the
        address's own call times. */
    method IsLimited(ip: string, now: int) returns (limited: bool)
      requires Valid() && ClockAt(now)
      modifies this`ips, this`log, ips.Values
      ensures Valid() && fresh(ips.Values - old(ips.Values))
      ensures log == old(log) + [Call(ip, now)]
      ensures limited <==> !LastAdmitted(Cfg(), CallTimes(old(log), ip) + [now])
    {
      LogCall(Cfg(), log, ip, now);
      limited := CountCall(ip, now);
      log := log + [Call(ip, now)];
    }

    /** The map part of `IsLimited`: open a window or count one more call in place. */
    method CountCall(ip: string, now: int) returns (limited: bool)
      requires Separate()
      modifies this`ips, ips.Values
      ensures Separate() && fresh(ips.Values - old(ips.Values))
      ensures Contents() == AfterCall(Cfg(), old(Contents()), ip, now)
      ensures limited <==> Limited(Cfg(), old(Contents()), ip, now)
    {
      if ip !in ips || now > ips[ip].expiration {
        var data := new RateLimitData(1, now + window);
        ips := ips[ip := data];
        assert forall a | a in ips && a != ip :: ips[a] == old(ips)[a];
        return false;
      }
      var data := ips[ip];
      data.count := data.count + 1;
      return data.count > max;
    }

    /** The background sweep, with the clock read while the lock is held. */
    method RemoveExpired(now: int)
      requires Valid() && ClockAt(now)
      modifies this`ips, this`log
      ensures Valid() && ips.Values <= old(ips.Values)
      ensures log == old(log) + [Sweep(now)]
    {
      LogSweep(Cfg(), log, now);
      DropExpired(now);
      log := log + [Sweep(now)];
    }

    /** The map part of the sweep: visits the entries in no particular order, deleting on the way. */
    method DropExpired(now: int)
      requires Separate()
      modifies this`ips
      ensures Separate() && ips.Values <= old(ips.Values)
      ensures Contents() == AfterSweep(old(Contents()), now)
    {
      var todo := ips.Keys;
      while todo != {}
        invariant todo <= ips.Keys <= old(ips.Keys)
        invariant forall ip | ip in ips :: ips[ip] == old(ips)[ip]
        invariant forall ip | ip in old(ips) && ip !in todo :: ip in ips <==> now <= old(ips)[ip].expiration
        decreases todo
      {
        var ip :| ip in todo;
        if now > ips[ip].expiration {
          ips := map other | other in ips && other != ip :: ips[other];
        }
        todo := todo - {ip};
      }
    }
  }

  lemma MonotoneAppend(run: seq<Step>, next: Step)
    requires Monotone(run) && (run != [] ==> run[|run| - 1].at <= next.at)
    ensures Monotone(run + [next])
  {
    forall i, j | 0 <= i < j <= |run| ensures (run + [next])[i].at <= (run + [next])[j].at {
      if j == |run| {
        assert i == |run| - 1 || run[i].at <= run[|run| - 1].at;
      }
    }
  }

  lemma LogCall(cfg: Config, log: seq<Step>, ip: string, now: int)
    requires Monotone(log) && (log != [] ==> log[|log| - 1].at <= now)
    ensures Monotone(log + [Call(ip, now)])
    ensures TableAfter(cfg, log + [Call(ip, now)]) == AfterCall(cfg, TableAfter(cfg, log), ip, now)
    ensures Limited(cfg, TableAfter(cfg, log), ip, now) <==> !LastAdmitted(cfg, CallTimes(log, ip) + [now])
  {
    MonotoneAppend(log, Call(ip, now));
    CallMatchesHistory(cfg, log, ip, now);
    assert (log + [Call(ip, now)])[..|log|] == log;
  }

  lemma LogSweep(cfg: Config, log: seq<Step>, now: int)
    requires Monotone(log) && (log != [] ==> log[|log| - 1].at <= now)
    ensures Monotone(log + [Sweep(now)])
    ensures TableAfter(cfg, log + [Sweep(now)]) == AfterSweep(TableAfter(cfg, log), now)
  {
    MonotoneAppend(log, Sweep(now));
    assert (log + [Sweep(now)])[..|log|] == log;
  }
}
