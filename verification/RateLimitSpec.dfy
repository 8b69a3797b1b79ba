/** The fixed-window limiter as a function on tables, its runs, and a specification
    of its decisions that knows only the call times of one address. */
module RateLimitSpec {

  /** One entry of the limiter's map. Times are integers (nanoseconds). */
  datatype Entry = Entry(count: int, expiration: int)

  type Table = map<string, Entry>

  /** The two settings that never change: quota and window length. */
  datatype Config = Config(max: int, window: int)

  /** One critical section of the limiter's mutex, with the clock reading taken inside it. */
  datatype Step = Call(ip: string, at: int) | Sweep(at: int)

  // ---------- one step ----------

  predicate Opens(t: Table, ip: string, now: int) {
    ip !in t || now > t[ip].expiration
  }

  function AfterCall(cfg: Config, t: Table, ip: string, now: int): Table {
    if Opens(t, ip, now)
    then t[ip := Entry(1, now + cfg.window)]
    else t[ip := Entry(t[ip].count + 1, t[ip].expiration)]
  }

  predicate Limited(cfg: Config, t: Table, ip: string, now: int) {
    !Opens(t, ip, now) && t[ip].count + 1 > cfg.max
  }

  function AfterSweep(t: Table, now: int): Table {
    map ip | ip in t && now <= t[ip].expiration :: t[ip]
  }

  // ---------- runs ----------

  function TableAfter(cfg: Config, run: seq<Step>): Table {
    if run == [] then map[]
    else
      var t := TableAfter(cfg, run[..|run| - 1]);
      match run[|run| - 1]
      case Call(ip, now) => AfterCall(cfg, t, ip, now)
      case Sweep(now) => AfterSweep(t, now)
  }

  /** What the calls of a run answer, in order: true means rate limited. */
  function Decisions(cfg: Config, run: seq<Step>): seq<bool> {
    if run == [] then []
    else
      var before := run[..|run| - 1];
      match run[|run| - 1]
      case Call(ip, now) => Decisions(cfg, before) + [Limited(cfg, TableAfter(cfg, before), ip, now)]
      case Sweep(_) => Decisions(cfg, before)
  }

  /** The clock never goes back between two critical sections. */
  ghost predicate Monotone(run: seq<Step>) {
    forall i, j | 0 <= i < j < |run| :: run[i].at <= run[j].at
  }

  function CallsOnly(run: seq<Step>): seq<Step> {
    if run == [] then []
    else
      var before := CallsOnly(run[..|run| - 1]);
      if run[|run| - 1].Call? then before + [run[|run| - 1]] else before
  }

  /** The times at which one address called. */
  function CallTimes(run: seq<Step>, ip: string): seq<int> {
    if run == [] then []
    else
      var before := CallTimes(run[..|run| - 1], ip);
      match run[|run| - 1]
      case Call(who, now) => if who == ip then before + [now] else before
      case Sweep(_) => before
  }

  /** How many calls of one address were admitted at a time in [lo, hi]. */
  function AdmittedCount(cfg: Config, run: seq<Step>, ip: string, lo: int, hi: int): nat {
    if run == [] then 0
    else
      var before := run[..|run| - 1];
      var n := AdmittedCount(cfg, before, ip, lo, hi);
      match run[|run| - 1]
      case Call(who, now) =>
        if who == ip && lo <= now <= hi && !Limited(cfg, TableAfter(cfg, before), ip, now) then n + 1 else n
      case Sweep(_) => n
  }

  // ---------- the history specification ----------

  /** The first call of a window is always admitted, so a quota below one acts as one. */
  function Quota(cfg: Config): int {
    if cfg.max < 1 then 1 else cfg.max
  }

  /** No call is earlier than the one before it. */
  predicate Sorted(times: seq<int>) {
    var n := |times| - 1;
    n < 1 || (times[n - 1] <= times[n] && Sorted(times[..n]))
  }

  /** Index of the call that opened the window the last call falls in. */
  function LastStart(window: int, times: seq<int>): (s: nat)
    requires times != []
    ensures s < |times|
  {
    var n := |times| - 1;
    if n == 0 then 0
    else
      var s := LastStart(window, times[..n]);
      if times[n] > times[s] + window then n else s
  }

  /** Index of the call that opened the window of call `i`. */
  function WindowOf(window: int, times: seq<int>, i: nat): (s: nat)
    requires i < |times|
    ensures s <= i
  {
    LastStart(window, times[..i + 1])
  }

  predicate LastAdmitted(cfg: Config, times: seq<int>)
    requires times != []
  {
    |times| - 1 - LastStart(cfg.window, times) < Quota(cfg)
  }

  /** Decisions computed from the call list alone: no table, no sweeps, one address at a time. */
  function HistoryDecisions(cfg: Config, calls: seq<Step>): seq<bool>
    requires forall c | c in calls :: c.Call?
  {
    if calls == [] then []
    else
      var last := calls[|calls| - 1];
      LastCallIsOwn(calls);
      HistoryDecisions(cfg, calls[..|calls| - 1]) + [!LastAdmitted(cfg, CallTimes(calls, last.ip))]
  }

  lemma LastCallIsOwn(calls: seq<Step>)
    requires calls != [] && calls[|calls| - 1].Call?
    ensures CallTimes(calls, calls[|calls| - 1].ip)
         == CallTimes(calls[..|calls| - 1], calls[|calls| - 1].ip) + [calls[|calls| - 1].at]
  {}

  // ---------- the table refines the history ----------

  lemma MonotonePrefix(run: seq<Step>, next: Step)
    requires Monotone(run + [next])
    ensures Monotone(run)
    ensures run != [] ==> run[|run| - 1].at <= next.at
  {
    var all := run + [next];
    assert forall i | 0 <= i < |run| :: all[i] == run[i];
    assert all[|run|] == next;
  }

  lemma {:induction false} CallTimesOrdered(run: seq<Step>, ip: string)
    requires Monotone(run)
    ensures Sorted(CallTimes(run, ip))
    ensures var times := CallTimes(run, ip);
            times != [] ==> run != [] && times[|times| - 1] <= run[|run| - 1].at
  {
    if run != [] {
      var times := CallTimes(run[..|run| - 1], ip);
      CallTimesOrdered(run[..|run| - 1], ip);
      assert (times + [run[|run| - 1].at])[..|times|] == times;
    }
  }

  /** What the table stores for an address after a run, in terms of that address's calls alone:
      the count is the number of calls in the current window, rejected ones included. An entry
      is missing only if the address never called or its window is over. */
  ghost predicate EntryMatches(cfg: Config, run: seq<Step>, ip: string) {
    var t, times := TableAfter(cfg, run), CallTimes(run, ip);
    if times == [] then ip !in t
    else
      var s := LastStart(cfg.window, times);
      if ip in t then t[ip] == Entry(|times| - s, times[s] + cfg.window)
      else run[|run| - 1].at > times[s] + cfg.window
  }

  lemma {:induction false} TableMatchesHistory(cfg: Config, run: seq<Step>, ip: string)
    requires Monotone(run)
    ensures run != [] || CallTimes(run, ip) == []
    ensures EntryMatches(cfg, run, ip)
  {
    if run != [] {
      var n := |run| - 1;
      var before := run[..n];
      TableMatchesHistory(cfg, before, ip);
      if run[n].Call? && run[n].ip == ip {
        var times, now := CallTimes(before, ip), run[n].at;
        assert (times + [now])[..|times|] == times;
        if times != [] {
          assert before[|before| - 1].at <= now;
        }
      }
    }
  }

  /** Right after a sweep the table holds exactly the addresses whose current window is not over. */
  lemma SweepFrees(cfg: Config, run: seq<Step>, now: int, ip: string)
    requires Monotone(run + [Sweep(now)])
    ensures var times := CallTimes(run, ip);
            ip in TableAfter(cfg, run + [Sweep(now)])
            <==> times != [] && now <= times[LastStart(cfg.window, times)] + cfg.window
  {
    MonotonePrefix(run, Sweep(now));
    TableMatchesHistory(cfg, run, ip);
    assert (run + [Sweep(now)])[..|run|] == run;
  }

  /** A call is limited exactly when its own history says so. */
  lemma CallMatchesHistory(cfg: Config, run: seq<Step>, ip: string, now: int)
    requires Monotone(run + [Call(ip, now)])
    ensures Limited(cfg, TableAfter(cfg, run), ip, now)
        <==> !LastAdmitted(cfg, CallTimes(run, ip) + [now])
  {
    MonotonePrefix(run, Call(ip, now));
    TableMatchesHistory(cfg, run, ip);
    var times := CallTimes(run, ip);
    assert (times + [now])[..|times|] == times;
  }

  lemma {:induction false} CallsOnlyIsCalls(run: seq<Step>)
    ensures forall c | c in CallsOnly(run) :: c.Call?
  {
    if run != [] {
      CallsOnlyIsCalls(run[..|run| - 1]);
    }
  }

  lemma {:induction false} CallTimesOfCallsOnly(run: seq<Step>, ip: string)
    ensures CallTimes(CallsOnly(run), ip) == CallTimes(run, ip)
  {
    if run != [] {
      var before := run[..|run| - 1];
      CallTimesOfCallsOnly(before, ip);
      if run[|run| - 1].Call? {
        assert CallsOnly(run)[..|CallsOnly(run)| - 1] == CallsOnly(before);
      }
    }
  }

  /** Every decision of every run is the one of the history specification: it depends on the
      own call times of the address and on nothing else. */
  lemma {:induction false} RunRefinesHistory(cfg: Config, run: seq<Step>)
    requires Monotone(run)
    ensures forall c | c in CallsOnly(run) :: c.Call?
    ensures Decisions(cfg, run) == HistoryDecisions(cfg, CallsOnly(run))
  {
    CallsOnlyIsCalls(run);
    if run != [] {
      var n := |run| - 1;
      var before := run[..n];
      RunRefinesHistory(cfg, before);
      if run[n].Call? {
        var calls := CallsOnly(run);
        assert calls[..|calls| - 1] == CallsOnly(before);
        assert before + [Call(run[n].ip, run[n].at)] == run;
        CallMatchesHistory(cfg, before, run[n].ip, run[n].at);
        CallTimesOfCallsOnly(run, run[n].ip);
      }
    }
  }

  /** The background sweep is unobservable: two runs with the same calls answer alike, however
      many sweeps either of them contains and wherever they stand. */
  lemma SweepsUnobservable(cfg: Config, run: seq<Step>, other: seq<Step>)
    requires Monotone(run) && Monotone(other)
    requires CallsOnly(run) == CallsOnly(other)
    ensures Decisions(cfg, run) == Decisions(cfg, other)
  {
    RunRefinesHistory(cfg, run);
    RunRefinesHistory(cfg, other);
  }

  /** Addresses do not influence each other: the answer to a call is the same in any two runs
      in which its own address called at the same times. */
  lemma AddressesIndependent(cfg: Config, run: seq<Step>, other: seq<Step>, ip: string, now: int)
    requires Monotone(run + [Call(ip, now)]) && Monotone(other + [Call(ip, now)])
    requires CallTimes(run, ip) == CallTimes(other, ip)
    ensures Limited(cfg, TableAfter(cfg, run), ip, now) == Limited(cfg, TableAfter(cfg, other), ip, now)
  {
    CallMatchesHistory(cfg, run, ip, now);
    CallMatchesHistory(cfg, other, ip, now);
  }

  lemma {:induction false} SortedSteps(times: seq<int>, k: nat)
    requires Sorted(times) && 0 < k < |times|
    ensures times[k - 1] <= times[k]
  {
    if k < |times| - 1 { SortedSteps(times[..|times| - 1], k); }
  }

  /** A window is never opened after its last call; with a negative length it never lasts. */
  lemma {:induction false} StartInOrder(window: int, times: seq<int>)
    requires Sorted(times) && times != []
    ensures times[LastStart(window, times)] <= times[|times| - 1]
    ensures window < 0 ==> LastStart(window, times) == |times| - 1
  {
    if |times| > 1 { StartInOrder(window, times[..|times| - 1]); }
  }

  /** A window is exactly the stretch of calls from its opener up to and including window length
      later, and the first Quota of them, no others, are admitted. */
  lemma {:induction false} WindowExact(cfg: Config, times: seq<int>, s: nat, k: nat)
    requires cfg.window >= 0 && Sorted(times)
    requires s <= k < |times| && WindowOf(cfg.window, times, s) == s
    ensures WindowOf(cfg.window, times, k) == s <==> times[k] <= times[s] + cfg.window
    ensures times[k] <= times[s] + cfg.window ==>
              (LastAdmitted(cfg, times[..k + 1]) <==> k - s < if cfg.max < 1 then 1 else cfg.max)
  {
    if s < k {
      WindowExact(cfg, times, s, k - 1);
      assert times[..k + 1][..k] == times[..k];
      SortedSteps(times, k);
      WindowReaches(cfg.window, times, k);
    }
  }

  /** No call is counted to a window that is over. */
  lemma WindowReaches(window: int, times: seq<int>, k: nat)
    requires window >= 0 && k < |times|
    ensures times[k] <= times[WindowOf(window, times, k)] + window
  {
    if k > 0 {
      assert times[..k + 1][..k] == times[..k];
    }
  }

  /** With a negative window every call opens a new one, so nothing is ever limited. */
  lemma NegativeWindowNeverLimits(cfg: Config, run: seq<Step>, ip: string, now: int)
    requires cfg.window < 0
    requires Monotone(run + [Call(ip, now)])
    ensures !Limited(cfg, TableAfter(cfg, run), ip, now)
  {
    CallMatchesHistory(cfg, run, ip, now);
    var times := CallTimes(run, ip);
    if times != [] {
      MonotonePrefix(run, Call(ip, now));
      CallTimesOrdered(run, ip);
      assert (times + [now])[..|times|] == times;
      StartInOrder(cfg.window, times + [now]);
    }
  }
}
