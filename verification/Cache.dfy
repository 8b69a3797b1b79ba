/** The cache object: its methods keep the map in step with the log of committed operations. */
module Caches {
  import opened CacheSpec

  class Cache<V(!new)> {
    var items: map<string, Item<V>>
    const defaultExpiration: int
    /** Committed operations, in the order in which they held the lock. */
    ghost var log: seq<Commit<V>>
    /** The latest clock reading that any operation used. */
    ghost var latest: int

    ghost predicate Valid()
      reads this
    {
      Agrees(items, log, latest)
    }

    ghost function Latest(now: int): int
      reads this
    {
      if latest < now then now else latest
    }

    constructor (ttl: int)
      ensures Valid() && log == [] && items == map[]
      ensures defaultExpiration == ttl * 1_000_000_000
    {
      items := map[];
      defaultExpiration := ttl * 1_000_000_000;
      log := [];
    }

    method Set(key: string, value: V, stamp: int)
      requires Valid()
      modifies this
      ensures Valid() && latest == old(Latest(stamp))
      ensures log == old(log) + [Put(key, Item(value, Stamp(defaultExpiration, defaultExpiration, stamp)))]
    {
      SetWithExpiration(key, value, defaultExpiration, stamp);
    }

    /** `stamp` is the clock, read before the lock is taken: it may be older than readings that
        other operations have used since. */
    method SetWithExpiration(key: string, value: V, duration: int, stamp: int)
      requires Valid()
      modifies this
      ensures Valid() && latest == old(Latest(stamp))
      ensures log == old(log) + [Put(key, Item(value, Stamp(defaultExpiration, duration, stamp)))]
    {
      var expiration := 0;
      var d := duration;
      if d == 0 {
        d := defaultExpiration;
      }
      if d > 0 {
        expiration := stamp + d;
      }
      AgreesLater(items, log, latest, Latest(stamp));
      AgreesPut(items, log, Latest(stamp), key, Item(value, expiration));
      items := items[key := Item(value, expiration)];
      latest := Latest(stamp);
      log := log + [Put(key, Item(value, expiration))];
    }

    /** The clock is read under the lock. The answer is the one the log promises. */
    method Get(key: string, now: int) returns (r: Option<V>)
      requires Valid() && now >= latest
      modifies this`latest
      ensures Valid() && latest == now
      ensures r == Answer(log, key, now)
    {
      AgreesLater(items, log, latest, now);
      AgreesAnswer(items, log, now, key);
      latest := now;
      if key !in items {
        return None;
      }
      var item := items[key];
      if item.expiration > 0 && now > item.expiration {
        return None;
      }
      return Some(item.value);
    }

    method Delete(key: string)
      requires Valid()
      modifies this`items, this`log
      ensures Valid() && log == old(log) + [Remove(key)]
    {
      AgreesRemove(items, log, latest, key);
      items := items - {key};
      log := log + [Remove(key)];
    }

    method Clear()
      requires Valid()
      modifies this`items, this`log
      ensures Valid() && log == old(log) + [RemoveAll]
    {
      AgreesRemoveAll(log, latest);
      items := map[];
      log := log + [RemoveAll];
    }

    /** Counts entries, the expired ones that no sweep has met included. */
    method Count() returns (n: nat)
      requires Valid()
      ensures n == |items|
      ensures forall now | latest <= now :: |Answerable(log, now)| <= n
      ensures forall now | latest <= now ::
                n == |Answerable(log, now)| <==> forall key | key in items :: !Expired(items[key], now)
      ensures forall now :: |LiveKeys(items, now)| <= n
      ensures forall now :: n == |LiveKeys(items, now)| <==> forall key | key in items :: !Expired(items[key], now)
    {
      n := |items|;
      forall now ensures |LiveKeys(items, now)| <= n
                         && (n == |LiveKeys(items, now)| <==> forall key | key in items :: !Expired(items[key], now)) {
        CountAgainstLive(items, now);
      }
      forall now | latest <= now ensures |Answerable(log, now)| <= n
                                         && (n == |Answerable(log, now)|
                                             <==> forall key | key in items :: !Expired(items[key], now)) {
        AgreesLater(items, log, latest, now);
        CountAgainstLog(items, log, now);
      }
    }

    /** `stamp` is the clock, read before the lock is taken. However late the sweep runs, the log
        and with it every later answer stay as they are. */
    method DeleteExpired(stamp: int)
      requires Valid()
      modifies this`items, this`latest
      ensures Valid() && latest == old(Latest(stamp))
      ensures items == Sweep(old(items), stamp)
    {
      AgreesLater(items, log, latest, Latest(stamp));
      AgreesSweep(items, log, Latest(stamp), stamp);
      var todo := items.Keys;
      while todo != {}
        invariant todo <= items.Keys <= old(items.Keys)
        invariant forall key | key in items :: items[key] == old(items)[key]
        invariant forall key | key in old(items) && key !in todo :: key in items <==> !Expired(old(items)[key], stamp)
        invariant latest == old(latest)
        decreases todo
      {
        var key :| key in todo;
        if items[key].expiration > 0 && stamp > items[key].expiration {
          items := map other | other in items && other != key :: items[other];
        }
        todo := todo - {key};
      }
      assert items == Sweep(old(items), stamp);
      latest := Latest(stamp);
    }
  }
}
