/** How many calls of one address the limiter can admit in an interval: an exact maximum. */
module RateLimitBounds {
  import opened RateLimitSpec

  /** The most calls of one address admitted in any closed interval of the given length. */
  function ExactBound(cfg: Config, length: nat): int
    requires cfg.window >= 0
  {
    var windows := length / (cfg.window + 1);
    if length % (cfg.window + 1) == 0
    then Quota(cfg) * (1 + windows)
    else Quota(cfg) * (2 + windows) - 1
  }

  function AdmittedIn(cfg: Config, times: seq<int>, lo: int, hi: int): nat {
    if times == [] then 0
    else
      var n := |times| - 1;
      AdmittedIn(cfg, times[..n], lo, hi) + if lo <= times[n] <= hi && LastAdmitted(cfg, times) then 1 else 0
  }

  /** Counting over a run with any mixture of addresses and sweeps is counting over the address's
      own call times. */
  lemma {:induction false} CountIsOwnHistory(cfg: Config, run: seq<Step>, ip: string, lo: int, hi: int)
    requires Monotone(run)
    ensures AdmittedCount(cfg, run, ip, lo, hi) == AdmittedIn(cfg, CallTimes(run, ip), lo, hi)
  {
    if run != [] {
      var n := |run| - 1;
      var before := run[..n];
      CountIsOwnHistory(cfg, before, ip, lo, hi);
      if run[n].Call? && run[n].ip == ip {
        assert before + [Call(ip, run[n].at)] == run;
        CallMatchesHistory(cfg, before, ip, run[n].at);
        var times := CallTimes(run, ip);
        assert times[..|times| - 1] == CallTimes(before, ip);
      }
    }
  }

  // ---------- the upper bound ----------

  /** Number of windows opened at or after `lo`. */
  function Openers(window: int, times: seq<int>, lo: int): nat {
    if times == [] then 0
    else
      var n := |times| - 1;
      Openers(window, times[..n], lo) + if LastStart(window, times) == n && times[n] >= lo then 1 else 0
  }

  /** Calls of the current window that were admitted, wherever they lie. */
  function Used(cfg: Config, times: seq<int>): int
    requires times != []
  {
    var n := |times| - LastStart(cfg.window, times);
    if n < Quota(cfg) then n else Quota(cfg)
  }

  /** Multiplication as repeated addition, which keeps the step-by-step proofs linear. */
  function Times(k: nat, x: int): int {
    if k == 0 then 0 else Times(k - 1, x) + x
  }

  lemma {:induction false} TimesIsProduct(k: nat, x: int)
    ensures Times(k, x) == k * x
  {
    if k > 0 {
      TimesIsProduct(k - 1, x);
      assert k * x == (k - 1) * x + x;
    }
  }

  lemma {:induction false} TimesNonNegative(k: nat, x: nat)
    ensures Times(k, x) >= 0
  {
    if k > 0 { TimesNonNegative(k - 1, x); }
  }

  /** The exact bound in terms of `m` whole windows. */
  lemma BoundInWindows(cfg: Config, length: nat) returns (m: nat, whole: bool)
    requires cfg.window >= 0
    ensures whole ==> ExactBound(cfg, length) == Times(1 + m, Quota(cfg)) && Times(m, cfg.window + 1) == length
    ensures !whole ==> cfg.window >= 1 && ExactBound(cfg, length) == Quota(cfg) - 1 + Times(1 + m, Quota(cfg))
                       && Times(m, cfg.window + 1) < length
  {
    var q, d := Quota(cfg), cfg.window + 1;
    m, whole := length / d, length % d == 0;
    assert length == m * d + length % d;
    TimesIsProduct(m, d);
    TimesIsProduct(1 + m, q);
    assert q * (2 + m) == q + (1 + m) * q;
  }

  /** The account kept while calls arrive: `n` admitted in the interval from `lo` on, `k` windows
      opened there, the current window opened at `start` with `used` admissions. Either the current
      window was opened before the interval, and then its opener does not count, or the `k` windows
      are spaced by more than a window length, the first one later by one tick if an earlier
      window reached into the interval. */
  ghost predicate Account(q: int, w: int, lo: int, n: int, k: int, start: int, used: int) {
    if start < lo then
      k == 0 && 0 <= n <= used - 1 && (n > 0 ==> start >= lo - w)
    else
      && k >= 1
      && (|| (n <= Times(k - 1, q) + used && start >= lo + Times(k - 1, w + 1))
          || (n <= q - 1 + Times(k - 1, q) + used && start >= lo + 1 + Times(k - 1, w + 1)))
  }

  lemma AccountOpens(q: int, w: int, lo: int, n: int, k: int, start: int, used: int, t: int)
    requires Account(q, w, lo, n, k, start, used) && used <= q && w >= 0
    requires t > start + w && lo <= t
    ensures Account(q, w, lo, n + 1, k + 1, t, 1)
  {}

  lemma AccountContinues(q: int, w: int, lo: int, n: int, k: int, start: int, used: int, more: int, t: int)
    requires Account(q, w, lo, n, k, start, used) && 0 <= more <= 1
    requires lo <= t <= start + w
    ensures Account(q, w, lo, n + more, k, start, used + more)
  {}

  ghost predicate AccountOf(cfg: Config, times: seq<int>, lo: int, hi: int)
    requires times != []
  {
    Account(Quota(cfg), cfg.window, lo, AdmittedIn(cfg, times, lo, hi), Openers(cfg.window, times, lo),
            times[LastStart(cfg.window, times)], Used(cfg, times))
  }

  lemma {:induction false} NoneBefore(cfg: Config, times: seq<int>, lo: int, hi: int)
    requires Sorted(times) && times != [] && times[|times| - 1] < lo
    ensures AdmittedIn(cfg, times, lo, hi) == 0 && Openers(cfg.window, times, lo) == 0
  {
    if |times| > 1 {
      assert times[|times| - 2] <= times[|times| - 1];
      NoneBefore(cfg, times[..|times| - 1], lo, hi);
    }
  }

  lemma {:induction false} AccountHolds(cfg: Config, times: seq<int>, lo: int, hi: int)
    requires cfg.window >= 0 && Sorted(times) && times != [] && times[|times| - 1] <= hi
    ensures AccountOf(cfg, times, lo, hi)
  {
    var q, w, n := Quota(cfg), cfg.window, |times| - 1;
    var before := times[..n];
    if times[n] < lo {
      NoneBefore(cfg, times, lo, hi);
      StartInOrder(w, times);
    } else if n == 0 {
      assert before == [];
    } else {
      assert before[n - 1] == times[n - 1] <= times[n];
      AccountHolds(cfg, before, lo, hi);
      var s := LastStart(w, before);
      var a, k, used := AdmittedIn(cfg, before, lo, hi), Openers(w, before, lo), Used(cfg, before);
      if times[n] > times[s] + w {
        AccountOpens(q, w, lo, a, k, times[s], used, times[n]);
      } else {
        var more := if LastAdmitted(cfg, times) then 1 else 0;
        AccountContinues(q, w, lo, a, k, times[s], used, more, times[n]);
        assert Used(cfg, times) == used + more;
      }
    }
  }

  lemma QuotientBound(a: int, b: int, c: int)
    requires b > 0 && a * b <= c
    ensures a <= c / b
  {
    var m := c / b;
    assert c == m * b + c % b;
    if a >= m + 1 {
      Scale(b, m + 1, a);
      assert false;
    }
  }

  lemma Scale(q: int, a: int, b: int)
    requires q >= 0 && a <= b
    ensures q * a <= q * b && a * q <= b * q
  {}

  lemma QuotientExact(a: nat, b: int, r: nat)
    requires r < b
    ensures (a * b + r) / b == a
  {
    var c := a * b + r;
    QuotientBound(a, b, c);
    assert c == c / b * b + c % b && (a + 1) * b == a * b + b;
    if c / b >= a + 1 {
      Scale(b, a + 1, c / b);
      assert false;
    }
  }

  /** The two cases of `Account` at the end of the interval fit the exact bound. */
  lemma AccountFits(cfg: Config, length: nat, k: nat, n: nat)
    requires cfg.window >= 0 && k >= 1
    requires || (n <= k * Quota(cfg) && (k - 1) * (cfg.window + 1) <= length)
             || (n <= Quota(cfg) - 1 + k * Quota(cfg) && 1 + (k - 1) * (cfg.window + 1) <= length)
    ensures n <= ExactBound(cfg, length)
  {
    var q, d := Quota(cfg), cfg.window + 1;
    var m := length / d;
    QuotientBound(k - 1, d, length);
    assert q * (2 + m) == q * (1 + m) + q;
    if n <= k * q {
      Scale(q, k, 1 + m);
    } else if length % d == 0 {
      assert length == m * d;
      Scale(q, k + 1, 1 + m);
      assert q * (k + 1) == k * q + q;
    } else {
      Scale(q, k + 1, 2 + m);
      assert q * (k + 1) == k * q + q;
    }
  }

  lemma QuotaFits(cfg: Config, length: nat)
    requires cfg.window >= 0
    ensures Quota(cfg) - 1 <= ExactBound(cfg, length)
  {
    var m := length / (cfg.window + 1);
    Scale(Quota(cfg), 1, 1 + m);
    assert Quota(cfg) * (2 + m) == Quota(cfg) * (1 + m) + Quota(cfg);
  }

  lemma {:induction false} HistoryBound(cfg: Config, times: seq<int>, lo: int, length: nat)
    requires cfg.window >= 0 && Sorted(times)
    ensures AdmittedIn(cfg, times, lo, lo + length) <= ExactBound(cfg, length)
  {
    var q, w := Quota(cfg), cfg.window;
    QuotaFits(cfg, length);
    if times != [] {
      var n := |times| - 1;
      if times[n] > lo + length {
        HistoryBound(cfg, times[..n], lo, length);
      } else {
        AccountHolds(cfg, times, lo, lo + length);
        var k := Openers(w, times, lo);
        StartInOrder(w, times);
        if times[LastStart(w, times)] >= lo {
          TimesIsProduct(k - 1, q);
          TimesIsProduct(k - 1, w + 1);
          assert (k - 1) * q + q == k * q;
          AccountFits(cfg, length, k, AdmittedIn(cfg, times, lo, lo + length));
        }
      }
    }
  }

  /** In every run, with any other addresses and sweeps in between, no closed interval sees more
      admitted calls of one address than the exact bound. */
  lemma IntervalBound(cfg: Config, run: seq<Step>, ip: string, lo: int, length: nat)
    requires cfg.window >= 0 && Monotone(run)
    ensures AdmittedCount(cfg, run, ip, lo, lo + length) <= ExactBound(cfg, length)
  {
    CallTimesOrdered(run, ip);
    CountIsOwnHistory(cfg, run, ip, lo, lo + length);
    HistoryBound(cfg, CallTimes(run, ip), lo, length);
  }

  /** The exact bound is never above the quota times one plus the number of windows that the
      interval can touch, and equals it exactly for multiples of the window length plus one. */
  lemma SimpleBound(cfg: Config, length: nat)
    requires cfg.window >= 0
    ensures ExactBound(cfg, length) <= Quota(cfg) * (1 + (length + cfg.window) / (cfg.window + 1))
    ensures ExactBound(cfg, length) == Quota(cfg) * (1 + (length + cfg.window) / (cfg.window + 1))
       <==> length % (cfg.window + 1) == 0
  {
    var d := cfg.window + 1;
    assert length == length / d * d + length % d;
    if length % d == 0 {
      QuotientExact(length / d, d, cfg.window);
    } else {
      assert (length / d + 1) * d == length / d * d + d;
      QuotientBound(length / d + 1, d, length + cfg.window);
      Scale(Quota(cfg), 2 + length / d, 1 + (length + cfg.window) / d);
    }
  }

  // ---------- the bound is reached ----------

  lemma SortedAppend(times: seq<int>, t: int)
    requires Sorted(times) && (times != [] ==> times[|times| - 1] <= t)
    ensures Sorted(times + [t])
  {}

  /** `n` more calls at `t`, all still within the quota of the window open there. */
  lemma {:induction false} BurstInWindow(cfg: Config, times: seq<int>, t: int, n: nat, lo: int, hi: int)
    returns (all: seq<int>)
    requires cfg.window >= 0 && Sorted(times) && times != [] && lo <= t <= hi
    requires times[|times| - 1] <= t <= times[LastStart(cfg.window, times)] + cfg.window
    requires |times| + n - LastStart(cfg.window, times) <= Quota(cfg)
    ensures |all| == |times| + n && Sorted(all) && all[|all| - 1] <= t
    ensures LastStart(cfg.window, all) == LastStart(cfg.window, times)
    ensures all[LastStart(cfg.window, times)] == times[LastStart(cfg.window, times)]
    ensures AdmittedIn(cfg, all, lo, hi) == AdmittedIn(cfg, times, lo, hi) + n
  {
    if n == 0 {
      all := times;
    } else {
      var before := BurstInWindow(cfg, times, t, n - 1, lo, hi);
      SortedAppend(before, t);
      all := before + [t];
      assert all[..|before|] == before;
    }
  }

  /** The current window of these calls is over at `t`. */
  predicate OverAt(window: int, times: seq<int>, t: int) {
    times != [] ==> times[|times| - 1] <= t && t > times[LastStart(window, times)] + window
  }

  /** A full burst at `t` after the current window is over: all Quota calls are admitted. */
  lemma FreshBurst(cfg: Config, times: seq<int>, t: int, lo: int, hi: int) returns (all: seq<int>)
    requires cfg.window >= 0 && Sorted(times) && lo <= t <= hi && OverAt(cfg.window, times, t)
    ensures Sorted(all) && OverAt(cfg.window, all, t + cfg.window + 1)
    ensures AdmittedIn(cfg, all, lo, hi) == AdmittedIn(cfg, times, lo, hi) + Quota(cfg)
  {
    var first := times + [t];
    assert first[..|times|] == times;
    SortedAppend(times, t);
    assert LastStart(cfg.window, first) == |times|;
    all := BurstInWindow(cfg, first, t, Quota(cfg) - 1, lo, hi);
  }

  /** `n` full bursts from `t` on, each one tick after the window before it is over. */
  lemma {:induction false} Bursts(cfg: Config, times: seq<int>, t: int, n: nat, lo: int, hi: int)
    returns (all: seq<int>)
    requires cfg.window >= 0 && Sorted(times) && lo <= t && OverAt(cfg.window, times, t)
    requires n > 0 ==> t + Times(n - 1, cfg.window + 1) <= hi
    ensures Sorted(all) && OverAt(cfg.window, all, t + Times(n, cfg.window + 1))
    ensures AdmittedIn(cfg, all, lo, hi) == AdmittedIn(cfg, times, lo, hi) + Times(n, Quota(cfg))
  {
    if n == 0 {
      all := times;
    } else {
      TimesNonNegative(n - 1, cfg.window + 1);
      var before := Bursts(cfg, times, t, n - 1, lo, hi);
      all := FreshBurst(cfg, before, t + Times(n - 1, cfg.window + 1), lo, hi);
    }
  }

  /** One call at 0, the rest of its window's quota at the end of the window, then full bursts. */
  lemma HeadThenBursts(cfg: Config, length: nat, n: nat) returns (times: seq<int>)
    requires cfg.window >= 1 && n >= 1 && Times(n - 1, cfg.window + 1) < length
    ensures Sorted(times)
    ensures AdmittedIn(cfg, times, cfg.window, cfg.window + length) == Quota(cfg) - 1 + Times(n, Quota(cfg))
  {
    var lo, hi := cfg.window, cfg.window + length;
    var first := [0];
    assert first[..0] == [] && LastStart(cfg.window, first) == 0;
    var head := BurstInWindow(cfg, first, lo, Quota(cfg) - 1, lo, hi);
    times := Bursts(cfg, head, lo + 1, n, lo, hi);
  }

  /** The call times that reach the bound, and where the interval starts. */
  lemma HistoryTight(cfg: Config, length: nat) returns (times: seq<int>, lo: int)
    requires cfg.window >= 0
    ensures Sorted(times)
    ensures AdmittedIn(cfg, times, lo, lo + length) == ExactBound(cfg, length)
  {
    var m, whole := BoundInWindows(cfg, length);
    if whole {
      lo := 0;
      times := Bursts(cfg, [], 0, 1 + m, lo, length);
    } else {
      lo := cfg.window;
      times := HeadThenBursts(cfg, length, 1 + m);
    }
  }

  function CallsAt(ip: string, times: seq<int>): (run: seq<Step>)
    ensures |run| == |times| && forall i | 0 <= i < |run| :: run[i] == Call(ip, times[i])
  {
    seq(|times|, i requires 0 <= i < |times| => Call(ip, times[i]))
  }

  lemma {:induction false} CallsAtTimes(ip: string, times: seq<int>)
    ensures CallTimes(CallsAt(ip, times), ip) == times
  {
    if times != [] {
      var n := |times| - 1;
      CallsAtTimes(ip, times[..n]);
      assert CallsAt(ip, times)[..n] == CallsAt(ip, times[..n]);
    }
  }

  lemma {:induction false} SortedPairs(times: seq<int>, i: nat, j: nat)
    requires Sorted(times) && i <= j < |times|
    ensures times[i] <= times[j]
  {
    if i < j {
      SortedPairs(times, i, j - 1);
      SortedSteps(times, j);
    }
  }

  lemma CallsAtMonotone(ip: string, times: seq<int>)
    requires Sorted(times)
    ensures Monotone(CallsAt(ip, times))
  {
    forall i, j | 0 <= i < j < |times| ensures times[i] <= times[j] {
      SortedPairs(times, i, j);
    }
  }

  /** Every ordered list of call times is that of some run. */
  lemma RunWithTimes(cfg: Config, ip: string, times: seq<int>, lo: int, hi: int) returns (run: seq<Step>)
    requires Sorted(times)
    ensures Monotone(run) && AdmittedCount(cfg, run, ip, lo, hi) == AdmittedIn(cfg, times, lo, hi)
  {
    run := CallsAt(ip, times);
    CallsAtTimes(ip, times);
    CallsAtMonotone(ip, times);
    CountIsOwnHistory(cfg, run, ip, lo, hi);
  }

  /** The bound is exact: for every quota, window and length some run reaches it. */
  lemma IntervalBoundTight(cfg: Config, ip: string, length: nat) returns (run: seq<Step>, lo: int)
    requires cfg.window >= 0
    ensures Monotone(run)
    ensures AdmittedCount(cfg, run, ip, lo, lo + length) == ExactBound(cfg, length)
  {
    var times;
    times, lo := HistoryTight(cfg, length);
    run := RunWithTimes(cfg, ip, times, lo, lo + length);
  }

  lemma WindowLengthBound(cfg: Config)
    requires cfg.window >= 1
    ensures ExactBound(cfg, cfg.window) == 2 * Quota(cfg) - 1
  {
    assert cfg.window / (cfg.window + 1) == 0;
    assert cfg.window % (cfg.window + 1) == cfg.window;
  }

  /** Over an interval as long as the window two quotas never fit, and one call less does. */
  lemma TwoQuotasNeverFit(cfg: Config, run: seq<Step>, ip: string, lo: int) returns (worst: seq<Step>, from: int)
    requires cfg.window >= 1 && Monotone(run)
    ensures AdmittedCount(cfg, run, ip, lo, lo + cfg.window) <= 2 * Quota(cfg) - 1
    ensures Monotone(worst) && AdmittedCount(cfg, worst, ip, from, from + cfg.window) == 2 * Quota(cfg) - 1
  {
    WindowLengthBound(cfg);
    IntervalBound(cfg, run, ip, lo, cfg.window);
    worst, from := IntervalBoundTight(cfg, ip, cfg.window);
  }
}
