/** The plugin host's rate limiter: a counter over fixed one-second windows. */
module RateLimit {

  /** Time in nanoseconds of a clock that never goes back. */
  const SECOND: nat := 1_000_000_000

  datatype Limiter = Limiter(limit: nat, count: nat, windowStart: nat) {
    /** The limiter once a call at `now` has opened a new window if one is due. */
    function Rolled(now: nat): Limiter {
      if now >= windowStart + SECOND then Limiter(limit, 0, now) else this
    }

    predicate Admits(now: nat) { Rolled(now).count < limit }

    function After(now: nat): Limiter {
      if Admits(now) then Rolled(now).(count := Rolled(now).count + 1) else Rolled(now)
    }
  }

  class RateLimitState {
    const limit: nat
    var count: nat
    var windowStart: nat

    ghost function View(): Limiter
      reads this
    {
      Limiter(limit, count, windowStart)
    }

    constructor (limit: nat, now: nat)
      ensures View() == Limiter(limit, 0, now)
    {
      this.limit := limit;
      count, windowStart := 0, now;
    }

    method CheckAndIncrement(now: nat) returns (ok: bool)
      modifies this
      ensures ok == old(View()).Admits(now)
      ensures View() == old(View()).After(now)
    {
      if now >= windowStart + SECOND {
        count, windowStart := 0, now;
      }
      if count >= limit {
        return false;
      }
      count := count + 1;
      ok := true;
    }
  }

  // ---------------------------------------------------------- runs of calls

  /** The calls come at times that never go back, none before the limiter was made. */
  predicate Timeline(l: Limiter, times: seq<nat>) {
    && (forall i | 0 <= i < |times| :: l.windowStart <= times[i])
    && (forall i, j | 0 <= i < j < |times| :: times[i] <= times[j])
  }

  function Run(l: Limiter, times: seq<nat>): Limiter {
    if times == [] then l else Run(l, times[..|times| - 1]).After(times[|times| - 1])
  }

  /** The times of the admitted calls, in order. */
  function Admitted(l: Limiter, times: seq<nat>): seq<nat> {
    if times == [] then [] else
    var before := times[..|times| - 1];
    var now := times[|times| - 1];
    if Run(l, before).Admits(now) then Admitted(l, before) + [now] else Admitted(l, before)
  }

  /** How many of the times lie in the half-open interval `[lo, hi)`. */
  function Between(ts: seq<nat>, lo: nat, hi: nat): nat {
    if ts == [] then 0
    else Between(ts[..|ts| - 1], lo, hi) + if lo <= ts[|ts| - 1] < hi then 1 else 0
  }

  lemma {:induction false} BetweenNone(ts: seq<nat>, lo: nat, hi: nat)
    requires forall i | 0 <= i < |ts| :: ts[i] < lo || hi <= ts[i]
    ensures Between(ts, lo, hi) == 0
  {
    if ts != [] {
      BetweenNone(ts[..|ts| - 1], lo, hi);
    }
  }

  lemma {:induction false} BetweenSplit(ts: seq<nat>, lo: nat, mid: nat, hi: nat)
    requires lo <= mid <= hi
    ensures Between(ts, lo, hi) == Between(ts, lo, mid) + Between(ts, mid, hi)
  {
    if ts != [] {
      BetweenSplit(ts[..|ts| - 1], lo, mid, hi);
    }
  }

  lemma {:induction false} BetweenMonotone(ts: seq<nat>, lo: nat, hi: nat, lo': nat, hi': nat)
    requires lo' <= lo && hi <= hi'
    ensures Between(ts, lo, hi) <= Between(ts, lo', hi')
  {
    if ts != [] {
      BetweenMonotone(ts[..|ts| - 1], lo, hi, lo', hi');
    }
  }

  lemma {:induction false} AdmittedBounds(l: Limiter, times: seq<nat>)
    requires Timeline(l, times)
    ensures forall i | 0 <= i < |Admitted(l, times)| :: l.windowStart <= Admitted(l, times)[i]
    ensures times != [] ==> forall i | 0 <= i < |Admitted(l, times)| :: Admitted(l, times)[i] <= times[|times| - 1]
    ensures times != [] ==> Run(l, times).windowStart <= times[|times| - 1]
    ensures l.windowStart <= Run(l, times).windowStart
    ensures Run(l, times).limit == l.limit
  {
    if times != [] {
      AdmittedBounds(l, times[..|times| - 1]);
    }
  }

  /** The counter is the number of calls admitted since the window began, all of
      them within its one second, and within the limit. */
  ghost predicate Counts(now: Limiter, ts: seq<nat>) {
    && now.count == Between(ts, now.windowStart, now.windowStart + SECOND) <= now.limit
    && forall i | 0 <= i < |ts| :: ts[i] < now.windowStart + SECOND
  }

  lemma {:induction false} BetweenSnoc(ts: seq<nat>, t: nat, lo: nat, hi: nat)
    ensures Between(ts + [t], lo, hi) == Between(ts, lo, hi) + if lo <= t < hi then 1 else 0
  {
    assert (ts + [t])[..|ts|] == ts;
  }

  lemma {:induction false} CountsStep(mid: Limiter, ts: seq<nat>, t: nat)
    requires Counts(mid, ts) && mid.windowStart <= t
    ensures Counts(mid.After(t), if mid.Admits(t) then ts + [t] else ts)
  {
    var rolled := mid.Rolled(t);
    assert Counts(rolled, ts) by {
      if t >= mid.windowStart + SECOND {
        BetweenNone(ts, t, t + SECOND);
      }
    }
    BetweenSnoc(ts, t, rolled.windowStart, rolled.windowStart + SECOND);
  }

  lemma {:induction false} CountIsWindow(l: Limiter, times: seq<nat>)
    requires Timeline(l, times) && l.count == 0
    ensures Counts(Run(l, times), Admitted(l, times))
  {
    if times != [] {
      var before, t := times[..|times| - 1], times[|times| - 1];
      CountIsWindow(l, before);
      AdmittedBounds(l, before);
      StartsBy(l, before, t);
      CountsStep(Run(l, before), Admitted(l, before), t);
    }
  }

  lemma {:induction false} StartsBy(l: Limiter, times: seq<nat>, now: nat)
    requires Timeline(l, times) && l.windowStart <= now
    requires times != [] ==> times[|times| - 1] <= now
    ensures Run(l, times).windowStart <= now
  {
    AdmittedBounds(l, times);
  }

  /** The calls admitted from `from` to the start of the current window: no more
      than the limit for each second, full or not, that lies between the two. */
  ghost predicate PriorBounded(now: Limiter, ts: seq<nat>, from: nat) {
    forall m: nat :: now.windowStart <= from + m * SECOND ==> Between(ts, from, now.windowStart) <= m * now.limit
  }

  /** The current window alone. */
  lemma {:induction false} OneWindow(now: Limiter, ts: seq<nat>, lo: nat, hi: nat)
    requires Counts(now, ts) && now.windowStart <= lo
    ensures Between(ts, lo, hi) <= now.limit
  {
    var w := now.windowStart;
    BetweenMonotone(ts, lo, hi, w, w + SECOND + hi);
    BetweenSplit(ts, w, w + SECOND, w + SECOND + hi);
    BetweenNone(ts, w + SECOND, w + SECOND + hi);
  }

  /** A call that opens a new window at `t` within `m` seconds of `from`. */
  lemma {:induction false} NewWindow(mid: Limiter, ts: seq<nat>, t: nat, from: nat, m: nat)
    requires Counts(mid, ts) && PriorBounded(mid, ts, from)
    requires mid.windowStart + SECOND <= t <= from + m * SECOND
    ensures Between(ts, from, t) <= m * mid.limit
  {
    var w := mid.windowStart;
    if t <= from {
      BetweenNone(ts, from, t);
    } else {
      assert m >= 1 && m * mid.limit == (m - 1) * mid.limit + mid.limit;
      if w <= from {
        OneWindow(mid, ts, from, t);
      } else {
        assert w <= from + (m - 1) * SECOND;
        BetweenSplit(ts, from, w, t);
        OneWindow(mid, ts, w, t);
      }
    }
  }

  lemma {:induction false} PriorStep(mid: Limiter, ts: seq<nat>, t: nat, from: nat)
    requires Counts(mid, ts) && mid.windowStart <= t && PriorBounded(mid, ts, from)
    ensures PriorBounded(mid.After(t), if mid.Admits(t) then ts + [t] else ts, from)
  {
    var w := mid.Rolled(t).windowStart;
    BetweenSnoc(ts, t, from, w);
    if t >= mid.windowStart + SECOND {
      forall m: nat | t <= from + m * SECOND ensures Between(ts, from, t) <= m * mid.limit {
        NewWindow(mid, ts, t, from, m);
      }
    }
  }

  /** An interval that the current window reaches into. */
  lemma {:induction false} UpToCurrent(now: Limiter, ts: seq<nat>, from: nat, k: nat)
    requires Counts(now, ts) && PriorBounded(now, ts, from) && now.windowStart < from + k * SECOND
    ensures Between(ts, from, from + k * SECOND) <= (k + 1) * now.limit
  {
    var w := now.windowStart;
    assert (k + 1) * now.limit == k * now.limit + now.limit;
    if w <= from {
      OneWindow(now, ts, from, from + k * SECOND);
    } else {
      BetweenSplit(ts, from, w, from + k * SECOND);
      OneWindow(now, ts, w, from + k * SECOND);
    }
  }

  /** For every sequence of calls, any interval of `k` seconds holds at most
      `k + 1` times the limit of admitted calls. */
  lemma {:induction false} AtMostOneMore(l: Limiter, times: seq<nat>, from: nat, k: nat)
    requires Timeline(l, times) && l.count == 0
    ensures PriorBounded(Run(l, times), Admitted(l, times), from)
    ensures Between(Admitted(l, times), from, from + k * SECOND) <= (k + 1) * l.limit
  {
    if times != [] {
      var before, t := times[..|times| - 1], times[|times| - 1];
      AtMostOneMore(l, before, from, k);
      CountIsWindow(l, before);
      CountIsWindow(l, times);
      AdmittedBounds(l, before);
      AdmittedBounds(l, times);
      StartsBy(l, before, t);
      PriorStep(Run(l, before), Admitted(l, before), t, from);
      if Run(l, times).windowStart < from + k * SECOND {
        UpToCurrent(Run(l, times), Admitted(l, times), from, k);
      } else {
        BetweenSnoc(Admitted(l, before), t, from, from + k * SECOND);
      }
    }
  }

  /** Any one-second interval holds at most twice the limit of admitted calls. */
  lemma {:induction false} AtMostTwiceLimit(l: Limiter, times: seq<nat>, from: nat)
    requires Timeline(l, times) && l.count == 0
    ensures Between(Admitted(l, times), from, from + 1_000_000_000) <= 2 * l.limit
  {
    AtMostOneMore(l, times, from, 1);
  }

  /** A call is refused exactly when it comes within a second of the start of the
      current window and the limit has been admitted since then (a limit of zero
      refuses everything). */
  lemma {:induction false} RefusedIff(l: Limiter, times: seq<nat>, now: nat)
    requires Timeline(l, times) && l.count == 0 && l.windowStart <= now
    requires times != [] ==> times[|times| - 1] <= now
    ensures
      var s := Run(l, times);
      !s.Admits(now) <==>
        l.limit == 0 ||
        (now < s.windowStart + 1_000_000_000 && Between(Admitted(l, times), s.windowStart, now + 1) == l.limit)
  {
    CountIsWindow(l, times);
    AdmittedBounds(l, times);
    StartsBy(l, times, now);
    var s, ts := Run(l, times), Admitted(l, times);
    if now < s.windowStart + SECOND {
      BetweenSplit(ts, s.windowStart, now + 1, s.windowStart + SECOND);
      BetweenNone(ts, now + 1, s.windowStart + SECOND);
    }
  }

  // ------------------------------------------------------- the bound is attained

  function Repeat(t: nat, n: nat): seq<nat> { seq(n, _ => t) }

  lemma {:induction false} OneMoreCall(l: Limiter, times: seq<nat>, t: nat)
    ensures Run(l, times + [t]) == Run(l, times).After(t)
    ensures Admitted(l, times + [t]) == if Run(l, times).Admits(t) then Admitted(l, times) + [t] else Admitted(l, times)
  {
    assert (times + [t])[..|times|] == times;
  }

  /** `n` calls at one moment, all within what the window still allows. */
  lemma {:induction false} BurstAdmitted(l: Limiter, times: seq<nat>, t: nat, n: nat)
    requires
      var s := Run(l, times).Rolled(t);
      s.count + n <= s.limit && t < s.windowStart + SECOND
    ensures Admitted(l, times + Repeat(t, n)) == Admitted(l, times) + Repeat(t, n)
    ensures n > 0 ==> Run(l, times + Repeat(t, n)) == Run(l, times).Rolled(t).(count := Run(l, times).Rolled(t).count + n)
  {
    if n == 0 {
      assert times + Repeat(t, n) == times;
      assert Admitted(l, times) + Repeat(t, n) == Admitted(l, times);
    } else {
      BurstAdmitted(l, times, t, n - 1);
      var before := times + Repeat(t, n - 1);
      assert times + Repeat(t, n) == before + [t];
      assert n == 1 ==> before == times;
      OneMoreCall(l, before, t);
      assert Admitted(l, times) + Repeat(t, n) == Admitted(l, times) + Repeat(t, n - 1) + [t];
    }
  }

  lemma {:induction false} BetweenRepeat(ts: seq<nat>, t: nat, n: nat, lo: nat, hi: nat)
    requires lo <= t < hi
    ensures Between(ts + Repeat(t, n), lo, hi) == Between(ts, lo, hi) + n
  {
    if n == 0 {
      assert ts + Repeat(t, n) == ts;
    } else {
      BetweenRepeat(ts, t, n - 1, lo, hi);
      BetweenSnoc(ts + Repeat(t, n - 1), t, lo, hi);
      assert ts + Repeat(t, n) == ts + Repeat(t, n - 1) + [t];
    }
  }

  /** A burst of `limit` calls at the end of the first window, and one at the start
      of each of the `k` seconds after it. */
  function Bursts(limit: nat, k: nat): seq<nat> {
    if k == 0 then Repeat(SECOND - 1, limit) else Bursts(limit, k - 1) + Repeat(k * SECOND, limit)
  }

  lemma {:induction false} BurstsAdmitted(limit: nat, k: nat)
    ensures Admitted(Limiter(limit, 0, 0), Bursts(limit, k)) == Bursts(limit, k)
    ensures limit > 0 ==> Run(Limiter(limit, 0, 0), Bursts(limit, k)) == Limiter(limit, limit, k * SECOND)
  {
    var l := Limiter(limit, 0, 0);
    if limit == 0 {
      NoBursts(k);
    } else if k == 0 {
      BurstAdmitted(l, [], SECOND - 1, limit);
      assert [] + Repeat(SECOND - 1, limit) == Repeat(SECOND - 1, limit);
    } else {
      BurstsAdmitted(limit, k - 1);
      assert k * SECOND == (k - 1) * SECOND + SECOND;
      BurstAdmitted(l, Bursts(limit, k - 1), k * SECOND, limit);
    }
  }

  lemma {:induction false} NoBursts(k: nat)
    ensures Bursts(0, k) == []
  {
    if k > 0 {
      NoBursts(k - 1);
    }
  }

  lemma {:induction false} BurstsInOrder(limit: nat, k: nat)
    ensures forall i | 0 <= i < |Bursts(limit, k)| :: Bursts(limit, k)[i] <= if k == 0 then SECOND - 1 else k * SECOND
    ensures forall i, j | 0 <= i < j < |Bursts(limit, k)| :: Bursts(limit, k)[i] <= Bursts(limit, k)[j]
  {
    if k > 0 {
      BurstsInOrder(limit, k - 1);
      assert k * SECOND == (k - 1) * SECOND + SECOND;
    }
  }

  lemma {:induction false} BurstsCount(limit: nat, k: nat, hi: nat)
    requires SECOND - 1 < hi && k * SECOND < hi
    ensures Between(Bursts(limit, k), SECOND - 1, hi) == (k + 1) * limit
  {
    if k == 0 {
      BetweenRepeat([], SECOND - 1, limit, SECOND - 1, hi);
      assert [] + Repeat(SECOND - 1, limit) == Repeat(SECOND - 1, limit);
    } else {
      assert k * SECOND == (k - 1) * SECOND + SECOND;
      BurstsCount(limit, k - 1, hi);
      BetweenRepeat(Bursts(limit, k - 1), k * SECOND, limit, SECOND - 1, hi);
      assert (k + 1) * limit == k * limit + limit;
    }
  }

  /** The bursts really do put `k + 1` times the limit into `k` seconds: the bound
      cannot be improved for any positive number of seconds. */
  lemma {:induction false} BoundIsAttained(limit: nat, k: nat)
    requires k > 0
    ensures Timeline(Limiter(limit, 0, 0), Bursts(limit, k))
    ensures Between(Admitted(Limiter(limit, 0, 0), Bursts(limit, k)), SECOND - 1, SECOND - 1 + k * SECOND) == (k + 1) * limit
  {
    BurstsAdmitted(limit, k);
    BurstsInOrder(limit, k);
    BurstsCount(limit, k, SECOND - 1 + k * SECOND);
  }
}
