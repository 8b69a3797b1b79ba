/** Concurrent runs of the cache. Set and the sweep read the clock before they take the lock, so each
    is two events, with any other events in between. */
module CacheRuns {
  import opened CacheSpec

  datatype Event<+V> =
    | Tick(now: int)
    | StampSet(op: nat, key: string, value: V, duration: int)
    | CommitSet(op: nat)
    | StampSweep(op: nat)
    | CommitSweep(op: nat)
    | GetKey(key: string)
    | DeleteKey(key: string)
    | ClearAll

  /** A Set that has its stamp and waits for the lock. */
  datatype Pending<+V> = Pending(key: string, item: Item<V>)

  /** The shared map and clock, the operations that hold a stamp and wait for the lock, and the
      commits so far. */
  datatype State<V> = State(items: Items<V>, clock: int, sets: map<nat, Pending<V>>, sweeps: map<nat, int>,
                            log: seq<Commit<V>>)

  /** One event. An event whose operation is not at that point changes nothing, and so does a tick
      that would turn the clock back: the clock is taken to be non-decreasing. */
  function Apply<V>(defaultExpiration: int, s: State<V>, e: Event<V>): State<V> {
    match e
    case Tick(now) =>
      if s.clock <= now then s.(clock := now) else s
    case StampSet(op, key, value, duration) =>
      if op in s.sets then s
      else s.(sets := s.sets[op := Pending(key, Item(value, Stamp(defaultExpiration, duration, s.clock)))])
    case CommitSet(op) =>
      if op in s.sets then
        var Pending(key, item) := s.sets[op];
        s.(items := s.items[key := item], sets := s.sets - {op}, log := s.log + [Put(key, item)])
      else s
    case StampSweep(op) =>
      if op in s.sweeps then s else s.(sweeps := s.sweeps[op := s.clock])
    case CommitSweep(op) =>
      if op in s.sweeps then s.(items := Sweep(s.items, s.sweeps[op]), sweeps := s.sweeps - {op}) else s
    case GetKey(_) => s
    case DeleteKey(key) => s.(items := s.items - {key}, log := s.log + [Remove(key)])
    case ClearAll => s.(items := map[], log := s.log + [RemoveAll])
  }

  function After<V>(defaultExpiration: int, start: int, events: seq<Event<V>>): State<V> {
    if events == [] then State(map[], start, map[], map[], [])
    else Apply(defaultExpiration, After(defaultExpiration, start, events[..|events| - 1]), events[|events| - 1])
  }

  function AnswerTo<V>(s: State<V>, e: Event<V>): seq<Option<V>> {
    if e.GetKey? then [Lookup(s.items, e.key, s.clock)] else []
  }

  /** The answers of all Gets of a run, in order. */
  function Answers<V>(defaultExpiration: int, start: int, events: seq<Event<V>>): seq<Option<V>> {
    if events == [] then []
    else
      var before := events[..|events| - 1];
      Answers(defaultExpiration, start, before)
      + AnswerTo(After(defaultExpiration, start, before), events[|events| - 1])
  }

  function WithoutSweeps<V>(events: seq<Event<V>>): seq<Event<V>> {
    if events == [] then []
    else
      var before, e := WithoutSweeps(events[..|events| - 1]), events[|events| - 1];
      if e.StampSweep? || e.CommitSweep? then before else before + [e]
  }

  /** In every reachable state the map agrees with the log and no sweep holds a future stamp. */
  ghost predicate Inv<V(!new)>(s: State<V>) {
    && Agrees(s.items, s.log, s.clock)
    && forall op | op in s.sweeps :: s.sweeps[op] <= s.clock
  }

  lemma ApplyKeepsInv<V(!new)>(defaultExpiration: int, s: State<V>, e: Event<V>)
    requires Inv(s)
    ensures Inv(Apply(defaultExpiration, s, e))
  {
    match e
    case Tick(now) => if s.clock <= now { AgreesLater(s.items, s.log, s.clock, now); }
    case CommitSet(op) =>
      if op in s.sets {
        AgreesPut(s.items, s.log, s.clock, s.sets[op].key, s.sets[op].item);
      }
    case CommitSweep(op) => if op in s.sweeps { AgreesSweep(s.items, s.log, s.clock, s.sweeps[op]); }
    case DeleteKey(key) => AgreesRemove(s.items, s.log, s.clock, key);
    case ClearAll => AgreesRemoveAll(s.log, s.clock);
    case _ =>
  }

  lemma {:induction false} RunKeepsInv<V(!new)>(defaultExpiration: int, start: int, events: seq<Event<V>>)
    ensures Inv(After(defaultExpiration, start, events))
  {
    if events != [] {
      RunKeepsInv(defaultExpiration, start, events[..|events| - 1]);
      ApplyKeepsInv(defaultExpiration, After(defaultExpiration, start, events[..|events| - 1]), events[|events| - 1]);
    }
  }

  /** After every run, with sets and sweeps committed as late as you like, a Get answers what the
      log of commits promises: the value of the last Put of its key since the last Delete or Clear,
      unless that has expired. */
  lemma GetRefinesLog<V(!new)>(defaultExpiration: int, start: int, events: seq<Event<V>>, key: string)
    ensures var s := After(defaultExpiration, start, events);
            Lookup(s.items, key, s.clock) == Answer(s.log, key, s.clock)
  {
    RunKeepsInv(defaultExpiration, start, events);
    var s := After(defaultExpiration, start, events);
    AgreesAnswer(s.items, s.log, s.clock, key);
  }

  // ---------- the answers against the events ----------

  /** The state in which the event at `i` finds the run. */
  function At<V>(defaultExpiration: int, start: int, events: seq<Event<V>>, i: int): State<V>
    requires 0 <= i <= |events|
  {
    After(defaultExpiration, start, events[..i])
  }

  lemma SamePrefix<V>(defaultExpiration: int, start: int, events: seq<Event<V>>, n: nat, i: int)
    requires 0 <= i <= n <= |events|
    ensures At(defaultExpiration, start, events[..n], i) == At(defaultExpiration, start, events, i)
  {
    assert events[..n][..i] == events[..i];
  }

  /** The clock is the latest tick, or the start if no tick was later. */
  lemma {:induction false} ClockFromEvents<V>(defaultExpiration: int, start: int, events: seq<Event<V>>)
    ensures var now := After(defaultExpiration, start, events).clock;
            && start <= now
            && (forall i | 0 <= i < |events| && events[i].Tick? :: events[i].now <= now)
            && (now == start || exists i | 0 <= i < |events| :: events[i] == Tick(now))
  {
    if events != [] {
      var n := |events| - 1;
      ClockFromEvents(defaultExpiration, start, events[..n]);
      var now := After(defaultExpiration, start, events[..n]).clock;
      assert forall i | 0 <= i < n :: events[i] == events[..n][i];
      if now != start {
        var i :| 0 <= i < n && events[..n][i] == Tick(now);
        assert events[i] == Tick(now);
      }
      assert events[n] == events[|events| - 1];
    }
  }

  /** A Set that waits for the lock has the key, value and duration it was called with, and the clock
      at which it took its stamp. */
  lemma {:induction false} StampOrigin<V>(defaultExpiration: int, start: int, events: seq<Event<V>>, op: nat)
    returns (i: int)
    requires op in After(defaultExpiration, start, events).sets
    ensures 0 <= i < |events| && events[i].StampSet? && events[i].op == op
    ensures After(defaultExpiration, start, events).sets[op]
         == Pending(events[i].key, Item(events[i].value, Stamp(defaultExpiration, events[i].duration,
                                                               At(defaultExpiration, start, events, i).clock)))
  {
    var n := |events| - 1;
    if op !in After(defaultExpiration, start, events[..n]).sets {
      i := n;
    } else {
      i := StampOrigin(defaultExpiration, start, events[..n], op);
      SamePrefix(defaultExpiration, start, events, n, i);
    }
  }

  /** The event commits a Set of this key, deletes it, or clears the cache. */
  predicate TouchesKey<V>(s: State<V>, e: Event<V>, key: string) {
    match e
    case CommitSet(op) => op in s.sets && s.sets[op].key == key
    case DeleteKey(k) => k == key
    case ClearAll => true
    case _ => false
  }

  ghost predicate LastTouch<V>(defaultExpiration: int, start: int, events: seq<Event<V>>, key: string, i: int) {
    && 0 <= i < |events| && TouchesKey(At(defaultExpiration, start, events, i), events[i], key)
    && forall j | i < j < |events| :: !TouchesKey(At(defaultExpiration, start, events, j), events[j], key)
  }

  lemma LastPutStep<V>(defaultExpiration: int, s: State<V>, e: Event<V>, key: string)
    ensures LastPut(Apply(defaultExpiration, s, e).log, key)
         == if !TouchesKey(s, e, key) then LastPut(s.log, key)
            else if e.CommitSet? then Some(s.sets[e.op].item)
            else None
  {
    var log := Apply(defaultExpiration, s, e).log;
    assert log != s.log ==> log[..|log| - 1] == s.log;
  }

  lemma {:induction false} LastPutFromEvents<V>(defaultExpiration: int, start: int, events: seq<Event<V>>, key: string,
                                                i: int)
    requires LastTouch(defaultExpiration, start, events, key, i)
    ensures LastPut(After(defaultExpiration, start, events).log, key)
         == if events[i].CommitSet? then Some(At(defaultExpiration, start, events, i).sets[events[i].op].item) else None
  {
    var n := |events| - 1;
    LastPutStep(defaultExpiration, After(defaultExpiration, start, events[..n]), events[n], key);
    if i < n {
      forall j | i <= j < n
        ensures At(defaultExpiration, start, events[..n], j) == At(defaultExpiration, start, events, j)
      {
        SamePrefix(defaultExpiration, start, events, n, j);
      }
      assert !TouchesKey(At(defaultExpiration, start, events, n), events[n], key);
      LastPutFromEvents(defaultExpiration, start, events[..n], key, i);
    }
  }

  /** What a Get finds, read off the events alone: the value of the last committed Set of its key, as
      long as its duration has not passed since it took its stamp; and nothing if a Delete or a Clear
      came last. */
  lemma GetFromEvents<V(!new)>(defaultExpiration: int, start: nat, events: seq<Event<V>>, key: string, i: int)
    returns (stamped: int)
    requires LastTouch(defaultExpiration, start, events, key, i)
    ensures var s := After(defaultExpiration, start, events);
            var found := Lookup(s.items, key, s.clock);
            if !events[i].CommitSet? then found == None
            else
              && 0 <= stamped < i && events[stamped].StampSet?
              && events[stamped].op == events[i].op && events[stamped].key == key
              && var d := if events[stamped].duration == 0 then defaultExpiration else events[stamped].duration;
                 found == if d > 0 && s.clock > At(defaultExpiration, start, events, stamped).clock + d then None
                          else Some(events[stamped].value)
  {
    stamped := -1;
    GetRefinesLog(defaultExpiration, start, events, key);
    LastPutFromEvents(defaultExpiration, start, events, key, i);
    if events[i].CommitSet? {
      stamped := StampOrigin(defaultExpiration, start, events[..i], events[i].op);
      SamePrefix(defaultExpiration, start, events, i, stamped);
      ClockFromEvents(defaultExpiration, start, events[..stamped]);
    }
  }

  lemma {:induction false} NeverPut<V>(defaultExpiration: int, start: int, events: seq<Event<V>>, key: string)
    requires forall i | 0 <= i < |events| :: !TouchesKey(At(defaultExpiration, start, events, i), events[i], key)
    ensures LastPut(After(defaultExpiration, start, events).log, key) == None
  {
    if events != [] {
      var n := |events| - 1;
      forall i | 0 <= i < n
        ensures At(defaultExpiration, start, events[..n], i) == At(defaultExpiration, start, events, i)
      {
        SamePrefix(defaultExpiration, start, events, n, i);
      }
      NeverPut(defaultExpiration, start, events[..n], key);
      LastPutStep(defaultExpiration, After(defaultExpiration, start, events[..n]), events[n], key);
      assert !TouchesKey(At(defaultExpiration, start, events, n), events[n], key);
    }
  }

  /** A key that nothing touched is not found. */
  lemma GetUntouched<V(!new)>(defaultExpiration: int, start: int, events: seq<Event<V>>, key: string)
    requires forall i | 0 <= i < |events| :: !TouchesKey(At(defaultExpiration, start, events, i), events[i], key)
    ensures var s := After(defaultExpiration, start, events); Lookup(s.items, key, s.clock) == None
  {
    GetRefinesLog(defaultExpiration, start, events, key);
    NeverPut(defaultExpiration, start, events, key);
  }

  // ---------- counting and sweeping ----------

  /** In every run the count is at least the number of keys that a Get would find now, and equals it
      exactly when no stored entry has expired. */
  lemma CountRefinesLog<V(!new)>(defaultExpiration: int, start: int, events: seq<Event<V>>)
    ensures var s := After(defaultExpiration, start, events);
            && (forall key :: key in Answerable(s.log, s.clock) <==> Answer(s.log, key, s.clock).Some?)
            && |Answerable(s.log, s.clock)| <= |s.items|
            && (|s.items| == |Answerable(s.log, s.clock)|
                <==> forall key | key in s.items :: !Expired(s.items[key], s.clock))
  {
    RunKeepsInv(defaultExpiration, start, events);
    var s := After(defaultExpiration, start, events);
    CountAgainstLog(s.items, s.log, s.clock);
    forall key ensures key in Answerable(s.log, s.clock) <==> Answer(s.log, key, s.clock).Some? {
      AnswerableMeaning(s.log, s.clock, key);
    }
  }

  /** Right after an undelayed sweep the count is exact. */
  lemma CountAfterSweep<V(!new)>(defaultExpiration: int, start: int, events: seq<Event<V>>, op: nat)
    requires op !in After(defaultExpiration, start, events).sweeps
    ensures var s := After(defaultExpiration, start, events + [StampSweep(op)] + [CommitSweep(op)]);
            |s.items| == |Answerable(s.log, s.clock)|
  {
    var stamped := events + [StampSweep(op)];
    assert stamped[..|events|] == events;
    assert (stamped + [CommitSweep(op)])[..|stamped|] == stamped;
    CountRefinesLog(defaultExpiration, start, stamped + [CommitSweep(op)]);
  }

  /** A sweep that commits late, at whatever stamp it took, removes nothing that a Get at the commit
      or at any later time would have returned. */
  lemma LateSweepHarmless<V(!new)>(defaultExpiration: int, start: int, events: seq<Event<V>>, op: nat, key: string,
                                   later: int)
    requires op in After(defaultExpiration, start, events).sweeps
    requires later >= After(defaultExpiration, start, events).clock
    ensures var s := After(defaultExpiration, start, events);
            var s' := After(defaultExpiration, start, events + [CommitSweep(op)]);
            Lookup(s'.items, key, later) == Lookup(s.items, key, later)
  {
    RunKeepsInv(defaultExpiration, start, events);
    assert (events + [CommitSweep(op)])[..|events|] == events;
  }

  ghost predicate SameCommits<V>(s: State<V>, t: State<V>) {
    s.clock == t.clock && s.sets == t.sets && s.log == t.log
  }

  lemma ApplySameCommits<V>(defaultExpiration: int, s: State<V>, t: State<V>, e: Event<V>)
    requires SameCommits(s, t)
    ensures SameCommits(Apply(defaultExpiration, s, e), Apply(defaultExpiration, t, e))
  {}

  lemma {:induction false} SweepsLeaveLog<V(!new)>(defaultExpiration: int, start: int, events: seq<Event<V>>)
    ensures SameCommits(After(defaultExpiration, start, events), After(defaultExpiration, start, WithoutSweeps(events)))
  {
    if events != [] {
      var before, e := events[..|events| - 1], events[|events| - 1];
      SweepsLeaveLog(defaultExpiration, start, before);
      var s, bare := After(defaultExpiration, start, before), WithoutSweeps(before);
      if e.StampSweep? || e.CommitSweep? {
        assert SameCommits(Apply(defaultExpiration, s, e), s);
      } else {
        ApplySameCommits(defaultExpiration, s, After(defaultExpiration, start, bare), e);
        assert (bare + [e])[..|bare|] == bare;
      }
    }
  }

  lemma AnswersAppend<V>(defaultExpiration: int, start: int, events: seq<Event<V>>, e: Event<V>)
    ensures Answers(defaultExpiration, start, events + [e])
         == Answers(defaultExpiration, start, events) + AnswerTo(After(defaultExpiration, start, events), e)
  {
    assert (events + [e])[..|events|] == events;
  }

  /** A Get answers alike with and without the sweeps before it. */
  lemma SameAnswer<V(!new)>(defaultExpiration: int, start: int, events: seq<Event<V>>, e: Event<V>)
    ensures AnswerTo(After(defaultExpiration, start, events), e)
         == AnswerTo(After(defaultExpiration, start, WithoutSweeps(events)), e)
  {
    SweepsLeaveLog(defaultExpiration, start, events);
    if e.GetKey? {
      GetRefinesLog(defaultExpiration, start, events, e.key);
      GetRefinesLog(defaultExpiration, start, WithoutSweeps(events), e.key);
    }
  }

  /** Sweeps are unobservable: every Get of every run answers as in the run without them. */
  lemma {:induction false} SweepsUnobservable<V(!new)>(defaultExpiration: int, start: int, events: seq<Event<V>>)
    ensures Answers(defaultExpiration, start, events) == Answers(defaultExpiration, start, WithoutSweeps(events))
  {
    if events != [] {
      var before, e := events[..|events| - 1], events[|events| - 1];
      SweepsUnobservable(defaultExpiration, start, before);
      SameAnswer(defaultExpiration, start, before, e);
      assert before + [e] == events;
      AnswersAppend(defaultExpiration, start, before, e);
      if !e.StampSweep? && !e.CommitSweep? {
        AnswersAppend(defaultExpiration, start, WithoutSweeps(before), e);
      }
    }
  }
}
