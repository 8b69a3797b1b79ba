/** What the TTL cache promises: answers read off the log of committed operations. */
module CacheSpec {

  datatype Option<+T> = None | Some(value: T)

  /** A stored value with the clock reading after which it is over; zero or less means never. */
  datatype Item<+V> = Item(value: V, expiration: int)

  type Items<V> = map<string, Item<V>>

  /** A committed change of the map: the part of an operation that runs under the write lock. */
  datatype Commit<+V> = Put(key: string, item: Item<V>) | Remove(key: string) | RemoveAll

  /** The expiration that a Set stamps: a zero duration stands for the default, and a duration
      that is not positive then means no expiration. */
  function Stamp(defaultExpiration: int, duration: int, now: int): int {
    var d := if duration == 0 then defaultExpiration else duration;
    if d > 0 then now + d else 0
  }

  predicate Expired<V>(item: Item<V>, now: int) {
    item.expiration > 0 && now > item.expiration
  }

  /** A stamped item is over exactly when its effective duration is positive and has passed: a
      non-positive one never ends. Needs a clock that is not negative, for zero is the mark of no
      expiration. */
  lemma StampMeaning<V>(value: V, defaultExpiration: int, duration: int, stamp: nat, now: int)
    ensures var d := if duration == 0 then defaultExpiration else duration;
            Expired(Item(value, Stamp(defaultExpiration, duration, stamp)), now) <==> d > 0 && now > stamp + d
  {}

  function Lookup<V>(items: Items<V>, key: string, now: int): Option<V> {
    if key in items && !Expired(items[key], now) then Some(items[key].value) else None
  }

  function Sweep<V>(items: Items<V>, now: int): Items<V> {
    map key | key in items && !Expired(items[key], now) :: items[key]
  }

  // ---------- the log specification ----------

  predicate Touches<V>(c: Commit<V>, key: string) {
    c.RemoveAll? || c.key == key
  }

  /** The item of the last Put of a key that no later commit touches. */
  function LastPut<V>(log: seq<Commit<V>>, key: string): Option<Item<V>> {
    if log == [] then None
    else
      var c := log[|log| - 1];
      if !Touches(c, key) then LastPut(log[..|log| - 1], key)
      else if c.Put? then Some(c.item)
      else None
  }

  /** The promise of Get. */
  function Answer<V>(log: seq<Commit<V>>, key: string, now: int): Option<V> {
    match LastPut(log, key)
    case None => None
    case Some(item) => if Expired(item, now) then None else Some(item.value)
  }

  ghost predicate UntouchedAfter<V>(log: seq<Commit<V>>, key: string, i: int) {
    forall j | i < j < |log| && 0 <= j :: !Touches(log[j], key)
  }

  /** The last commit that touches a key decides what `LastPut` finds. */
  lemma {:induction false} LastTouchDecides<V>(log: seq<Commit<V>>, key: string, i: nat)
    requires i < |log| && Touches(log[i], key) && UntouchedAfter(log, key, i)
    ensures LastPut(log, key) == if log[i].Put? then Some(log[i].item) else None
  {
    var n := |log| - 1;
    if i < n {
      assert !Touches(log[n], key);
      forall j | i < j < n ensures !Touches(log[..n][j], key) {
        assert !Touches(log[j], key);
      }
      LastTouchDecides(log[..n], key, i);
    }
  }

  /** And what it finds was put by such a commit. */
  lemma {:induction false} LastPutOrigin<V>(log: seq<Commit<V>>, key: string) returns (i: nat)
    requires LastPut(log, key).Some?
    ensures i < |log| && log[i] == Put(key, LastPut(log, key).value) && UntouchedAfter(log, key, i)
  {
    var n := |log| - 1;
    if Touches(log[n], key) {
      i := n;
    } else {
      i := LastPutOrigin(log[..n], key);
      forall j | i < j < |log| ensures !Touches(log[j], key) {
        if j < n { assert !Touches(log[..n][j], key); }
      }
    }
  }

  // ---------- the map against the log ----------

  ghost predicate KeyAgrees<V>(items: Items<V>, log: seq<Commit<V>>, now: int, key: string) {
    match LastPut(log, key)
    case None => key !in items
    case Some(item) => if key in items then items[key] == item else Expired(item, now)
  }

  /** The map holds what the log says, except that it may lack items already over at `now`. */
  ghost predicate Agrees<V(!new)>(items: Items<V>, log: seq<Commit<V>>, now: int) {
    forall key :: KeyAgrees(items, log, now, key)
  }

  lemma AgreesAnswer<V(!new)>(items: Items<V>, log: seq<Commit<V>>, now: int, key: string)
    requires Agrees(items, log, now)
    ensures Lookup(items, key, now) == Answer(log, key, now)
  {
    assert KeyAgrees(items, log, now, key);
  }

  lemma AgreesLater<V(!new)>(items: Items<V>, log: seq<Commit<V>>, now: int, later: int)
    requires Agrees(items, log, now) && now <= later
    ensures Agrees(items, log, later)
  {
    forall key ensures KeyAgrees(items, log, later, key) {
      assert KeyAgrees(items, log, now, key);
    }
  }

  lemma AgreesPut<V(!new)>(items: Items<V>, log: seq<Commit<V>>, now: int, key: string, item: Item<V>)
    requires Agrees(items, log, now)
    ensures Agrees(items[key := item], log + [Put(key, item)], now)
  {
    var after := items[key := item];
    forall other ensures KeyAgrees(after, log + [Put(key, item)], now, other) {
      assert KeyAgrees(items, log, now, other);
      assert (log + [Put(key, item)])[..|log|] == log;
    }
  }

  lemma AgreesRemove<V(!new)>(items: Items<V>, log: seq<Commit<V>>, now: int, key: string)
    requires Agrees(items, log, now)
    ensures Agrees(items - {key}, log + [Remove(key)], now)
  {
    forall other ensures KeyAgrees(items - {key}, log + [Remove(key)], now, other) {
      assert KeyAgrees(items, log, now, other);
      assert (log + [Remove(key)])[..|log|] == log;
    }
  }

  lemma AgreesRemoveAll<V(!new)>(log: seq<Commit<V>>, now: int)
    ensures Agrees(map[], log + [RemoveAll], now)
  {
    forall other ensures KeyAgrees(map[], log + [RemoveAll], now, other) {}
  }

  /** A sweep whose clock reading is as old as you like drops nothing that is still alive now. */
  lemma AgreesSweep<V(!new)>(items: Items<V>, log: seq<Commit<V>>, now: int, stamp: int)
    requires Agrees(items, log, now) && stamp <= now
    ensures Agrees(Sweep(items, stamp), log, now)
  {
    forall key ensures KeyAgrees(Sweep(items, stamp), log, now, key) {
      assert KeyAgrees(items, log, now, key);
    }
  }

  // ---------- counting ----------

  function LiveKeys<V>(items: Items<V>, now: int): set<string> {
    set key | key in items && !Expired(items[key], now)
  }

  lemma SubsetCount<T>(a: set<T>, b: set<T>)
    requires a <= b
    ensures |a| <= |b| && (|a| == |b| <==> a == b)
  {
    assert b == a + (b - a);
    assert |b| == |a| + |b - a|;
  }

  /** The number of entries is never below the number a Get would find, and equals it exactly when
      no expired entry is left; right after a sweep stamped at the current time none is. */
  lemma CountAgainstLive<V>(items: Items<V>, now: int)
    ensures |LiveKeys(items, now)| <= |items|
    ensures |items| == |LiveKeys(items, now)| <==> forall key | key in items :: !Expired(items[key], now)
    ensures |Sweep(items, now)| == |LiveKeys(items, now)| == |LiveKeys(Sweep(items, now), now)|
    ensures forall key :: key in LiveKeys(items, now) <==> Lookup(items, key, now).Some?
  {
    SubsetCount(LiveKeys(items, now), items.Keys);
    assert Sweep(items, now).Keys == LiveKeys(items, now);
    assert LiveKeys(Sweep(items, now), now) == LiveKeys(items, now);
    if LiveKeys(items, now) == items.Keys {
      forall key | key in items ensures !Expired(items[key], now) {
        assert key in LiveKeys(items, now);
      }
    }
  }

  /** The keys that the log promises an answer for. */
  ghost function Answerable<V>(log: seq<Commit<V>>, now: int): set<string> {
    set i | 0 <= i < |log| && log[i].Put? && Answer(log, log[i].key, now).Some? :: log[i].key
  }

  lemma AnswerableMeaning<V>(log: seq<Commit<V>>, now: int, key: string)
    ensures key in Answerable(log, now) <==> Answer(log, key, now).Some?
  {
    if Answer(log, key, now).Some? {
      var i := LastPutOrigin(log, key);
      assert log[i].Put? && log[i].key == key;
    }
  }

  /** The count of a map that agrees with the log is that of the keys the log promises an answer for,
      and more exactly when an expired entry is left. */
  lemma CountAgainstLog<V(!new)>(items: Items<V>, log: seq<Commit<V>>, now: int)
    requires Agrees(items, log, now)
    ensures |Answerable(log, now)| <= |items|
    ensures |items| == |Answerable(log, now)| <==> forall key | key in items :: !Expired(items[key], now)
  {
    forall key ensures key in Answerable(log, now) <==> key in LiveKeys(items, now) {
      AnswerableMeaning(log, now, key);
      AgreesAnswer(items, log, now, key);
    }
    assert Answerable(log, now) == LiveKeys(items, now);
    CountAgainstLive(items, now);
  }
}
