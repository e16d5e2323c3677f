/** When the trading loop resets the circuit breaker's daily and hourly tracking.

Both resets follow one rule with a period `p` and a width `w`: a reset happens at a tick that falls
within the first `w` of a period, if the previous reset is at least `p` old. Times are microseconds.
*/
module BreakerResets {
  import opened Options

  const SECOND := 1_000_000
  const MINUTE := 60 * SECOND
  const HOUR := 60 * MINUTE
  const DAY := 24 * HOUR
  const WIDTH := 5 * MINUTE

  function Mark(last: Option<int>, now: int, p: int, w: int): Option<int>
    requires 0 < w < p
  {
    if (last.None? || now - last.value >= p) && now % p < w then Some(now) else last
  }

  /** The last reset once the loop has ticked `n` times, none having happened before. */
  function LastReset(ticks: seq<int>, n: nat, p: int, w: int): Option<int>
    requires 0 < w < p && n <= |ticks|
  {
    if n == 0 then None else Mark(LastReset(ticks, n - 1, p, w), ticks[n - 1], p, w)
  }

  predicate ResetAt(ticks: seq<int>, n: nat, p: int, w: int)
    requires 0 < w < p && n < |ticks|
  {
    var last := LastReset(ticks, n, p, w);
    (last.None? || ticks[n] - last.value >= p) && ticks[n] % p < w
  }

  predicate Sorted(ticks: seq<int>) { forall i, j :: 0 <= i < j < |ticks| ==> ticks[i] <= ticks[j] }

  /** Some tick falls into the window at the start of period `k`. */
  ghost predicate Seen(ticks: seq<int>, k: int, p: int, w: int) {
    exists i :: 0 <= i < |ticks| && k * p <= ticks[i] < k * p + w
  }

  /** Some tick falls into every window that the ticks span. */
  ghost predicate Covered(ticks: seq<int>, p: int, w: int) {
    forall k :: |ticks| > 0 && ticks[0] <= k * p && k * p + w <= ticks[|ticks| - 1] ==> Seen(ticks, k, p, w)
  }

  lemma {:induction false} LastResetGrows(ticks: seq<int>, m: nat, n: nat, p: int, w: int)
    requires 0 < w < p && m <= n <= |ticks|
    requires LastReset(ticks, m, p, w).Some?
    ensures LastReset(ticks, n, p, w).Some?
    ensures LastReset(ticks, m, p, w).value <= LastReset(ticks, n, p, w).value
    decreases n - m
  {
    if m < n { LastResetGrows(ticks, m, n - 1, p, w); }
  }

  lemma {:induction false} LastResetIsATick(ticks: seq<int>, n: nat, p: int, w: int)
    requires 0 < w < p && n <= |ticks|
    requires LastReset(ticks, n, p, w).Some?
    ensures LastReset(ticks, n, p, w).value in ticks[..n]
    ensures LastReset(ticks, n, p, w).value % p < w
  {
    if !ResetAt(ticks, n - 1, p, w) { LastResetIsATick(ticks, n - 1, p, w); }
  }

  lemma WindowStart(t: int, p: int, w: int) returns (k: int)
    requires 0 < w < p && t % p < w
    ensures k == t / p && k * p <= t < k * p + w
  {
    k := t / p;
  }

  lemma PeriodsApart(k: int, p: int)
    ensures (k + 1) * p == k * p + p && (k + 2) * p == k * p + 2 * p
  {
  }

  /** At no tick is the last reset as old as two periods and a width. */
  lemma ResetNeverOverdue(ticks: seq<int>, n: nat, p: int, w: int)
    requires 0 < w < p && n < |ticks| && Sorted(ticks) && Covered(ticks, p, w)
    requires LastReset(ticks, n, p, w).Some?
    ensures ticks[n] - LastReset(ticks, n, p, w).value < 2 * p + w
  {
    var r := LastReset(ticks, n, p, w).value;
    LastResetIsATick(ticks, n, p, w);
    var k := WindowStart(r, p, w);
    PeriodsApart(k, p);
    if ticks[n] - r >= 2 * p + w {
      var start := (k + 2) * p;
      assert ticks[0] <= r < start && start + w <= ticks[n] <= ticks[|ticks| - 1];
      assert Seen(ticks, k + 2, p, w);
      var m :| 0 <= m < |ticks| && start <= ticks[m] < start + w;
      assert m < n;
      InFirstWindow(ticks[m], k + 2, p, w);
      if LastReset(ticks, m, p, w).Some? { LastResetGrows(ticks, m, n, p, w); }
      assert LastReset(ticks, m + 1, p, w) == Some(ticks[m]);
      LastResetGrows(ticks, m + 1, n, p, w);
      assert false;
    }
  }

  lemma InFirstWindow(t: int, k: int, p: int, w: int)
    requires 0 < w < p && k * p <= t < k * p + w
    ensures t / p == k && t % p < w
  {
    var q, r := t / p, t % p;
    assert t == q * p + r;
    if q < k { MultiplyOrder(q + 1, k, p); }
    if q > k { MultiplyOrder(k + 1, q, p); }
  }

  lemma MultiplyOrder(a: int, b: int, p: int)
    requires a <= b && 0 < p
    ensures a * p <= b * p
  {
  }

  lemma WindowsApart(k: int, l: int, a: int, b: int, p: int, w: int)
    requires 0 < 2 * w <= p
    requires k * p <= a < k * p + w && l * p <= b < l * p + w
    requires p <= b - a < 2 * p + w
    ensures k < l <= k + 2
  {
    if l <= k { MultiplyOrder(l, k, p); }
    if l > k + 2 {
      MultiplyOrder(k + 3, l, p);
      PeriodsApart(k + 1, p);
      PeriodsApart(k, p);
    }
  }

  /** Consecutive resets lie at least one period and less than two periods and a width apart, in different
  periods, and never skip two periods running. */
  lemma ResetSpacing(ticks: seq<int>, n: nat, p: int, w: int)
    requires 0 < 2 * w <= p && n < |ticks| && Sorted(ticks) && Covered(ticks, p, w)
    requires ResetAt(ticks, n, p, w) && LastReset(ticks, n, p, w).Some?
    ensures var previous := LastReset(ticks, n, p, w).value;
      && p <= ticks[n] - previous < 2 * p + w
      && previous / p < ticks[n] / p <= previous / p + 2
  {
    var previous := LastReset(ticks, n, p, w).value;
    ResetNeverOverdue(ticks, n, p, w);
    LastResetIsATick(ticks, n, p, w);
    var k := WindowStart(previous, p, w);
    var l := WindowStart(ticks[n], p, w);
    WindowsApart(k, l, previous, ticks[n], p, w);
  }

  /** With a tick in every five minutes after midnight, daily resets are 24 hours to 48 hours and 5 minutes
  apart. */
  lemma DailyResetSpacing(ticks: seq<int>, n: nat)
    requires n < |ticks| && Sorted(ticks) && Covered(ticks, DAY, WIDTH)
    requires ResetAt(ticks, n, DAY, WIDTH) && LastReset(ticks, n, DAY, WIDTH).Some?
    ensures 24 * HOUR <= ticks[n] - LastReset(ticks, n, DAY, WIDTH).value < 48 * HOUR + 5 * MINUTE
  {
    ResetSpacing(ticks, n, DAY, WIDTH);
  }

  /** With a tick in the first five minutes of every hour, hourly resets are 1 hour to 2 hours and 5 minutes
  apart. */
  lemma HourlyResetSpacing(ticks: seq<int>, n: nat)
    requires n < |ticks| && Sorted(ticks) && Covered(ticks, HOUR, WIDTH)
    requires ResetAt(ticks, n, HOUR, WIDTH) && LastReset(ticks, n, HOUR, WIDTH).Some?
    ensures HOUR <= ticks[n] - LastReset(ticks, n, HOUR, WIDTH).value < 2 * HOUR + 5 * MINUTE
  {
    ResetSpacing(ticks, n, HOUR, WIDTH);
  }

  /** A reset may skip one period: when every tick of the next window comes earlier in its period than the
  last reset did, nothing happens in that window. */
  lemma WindowSkippedWhenEarly(last: int, now: int, p: int, w: int)
    requires 0 < w < p && last % p < w && now % p < w && now / p == last / p + 1
    ensures Mark(Some(last), now, p, w) == Some(now) <==> last % p <= now % p
  {
    PeriodsApart(last / p, p);
    assert last == last / p * p + last % p && now == now / p * p + now % p;
  }

  /** Before any reset no tick has fallen into a window, and the first one that does resets. */
  lemma {:induction false} FirstTickInWindowResets(ticks: seq<int>, n: nat, p: int, w: int)
    requires 0 < w < p && n <= |ticks|
    ensures LastReset(ticks, n, p, w).None? <==> forall i :: 0 <= i < n ==> ticks[i] % p >= w
    ensures n < |ticks| && LastReset(ticks, n, p, w).None? && ticks[n] % p < w ==>
              LastReset(ticks, n + 1, p, w) == Some(ticks[n])
  {
    if n > 0 { FirstTickInWindowResets(ticks, n - 1, p, w); }
  }
}
