/** The two request limiters: the webhook channel's fixed 60-second window, and a named endpoint's
    one-second window. Times are whole seconds of a clock that never runs backwards. */
module RateLimit {

  datatype Limiter = Limiter(window: int, count: nat)

  const IDLE: Limiter := Limiter(0, 0)

  // ---- The 60-second window --------------------------------------------------------------------

  /** The limiter after one request at `now`, and whether the request passes. */
  function Check(l: Limiter, limit: nat, now: int): (Limiter, bool) {
    if limit == 0 then (l, true)
    else
      var m := if l.window == 0 || now - l.window >= 60 then Limiter(now, 0) else l;
      if m.count >= limit then (m, false) else (m.(count := m.count + 1), true)
  }

  function After(limit: nat, times: seq<int>): Limiter
    decreases |times|
  {
    if times == [] then IDLE else Check(After(limit, times[..|times| - 1]), limit, times[|times| - 1]).0
  }

  /** Requests that pass with `from <= time < to`. */
  function Passes(limit: nat, times: seq<int>, from: int, to: int): nat
    decreases |times|
  {
    if times == [] then 0
    else
      var init := times[..|times| - 1];
      var now := times[|times| - 1];
      Passes(limit, init, from, to)
      + (if Check(After(limit, init), limit, now).1 && from <= now < to then 1 else 0)
  }

  ghost predicate Clock(times: seq<int>) {
    && (forall i :: 0 <= i < |times| ==> times[i] > 0)
    && forall i, j :: 0 <= i < j < |times| ==> times[i] <= times[j]
  }

  /** The state of a run, seen from a 60-second span starting at `from`. */
  ghost predicate Bounded(limit: nat, l: Limiter, passes: nat, from: int) {
    && l.count <= limit
    && (l.window == 0 ==> passes == 0)
    && (0 < l.window < from ==> passes < l.count)
    && (0 < l.window && from <= l.window < from + 60 ==> passes + 1 <= limit + l.count)
    && (from + 60 <= l.window ==> passes + 1 <= 2 * limit)
    && (0 < l.window ==> 0 < l.count)
  }

  lemma {:induction false} RunBounded(limit: nat, times: seq<int>, from: int)
    requires limit > 0 && Clock(times)
    ensures Bounded(limit, After(limit, times), Passes(limit, times, from, from + 60), from)
    ensures times == [] ==> After(limit, times).window == 0
    ensures times != [] ==> 0 < After(limit, times).window <= times[|times| - 1]
    ensures times != [] && times[|times| - 1] < from ==> Passes(limit, times, from, from + 60) == 0
    decreases |times|
  {
    if times != [] {
      RunBounded(limit, times[..|times| - 1], from);
    }
  }

  /** Any 60 consecutive seconds see fewer than twice the limit pass. */
  lemma MinuteLimit(limit: nat, times: seq<int>, from: int)
    requires limit > 0 && Clock(times)
    ensures Passes(limit, times, from, from + 60) <= 2 * limit - 1
  {
    RunBounded(limit, times, from);
  }

  /** Without a limit every request passes. */
  lemma {:induction false} NoLimit(times: seq<int>, from: int, to: int)
    requires forall i :: 0 <= i < |times| ==> from <= times[i] < to
    ensures Passes(0, times, from, to) == |times|
    decreases |times|
  {
    if times != [] {
      NoLimit(times[..|times| - 1], from, to);
    }
  }

  lemma {:induction false} NoPasses(limit: nat, times: seq<int>, from: int, to: int)
    requires forall i :: 0 <= i < |times| ==> times[i] < from
    ensures Passes(limit, times, from, to) == 0
    decreases |times|
  {
    hide Check;
    if times != [] {
      NoPasses(limit, times[..|times| - 1], from, to);
    }
  }

  /** The count is that of the passes since the window was opened, less than 60 seconds ago. */
  lemma {:induction false} CountsPasses(limit: nat, times: seq<int>, to: int)
    requires limit > 0 && Clock(times) && forall i :: 0 <= i < |times| ==> times[i] < to
    ensures var l := After(limit, times);
            times != [] ==> 0 < l.window <= times[|times| - 1] < l.window + 60
                            && l.count == Passes(limit, times, l.window, to)
    ensures times == [] ==> After(limit, times) == IDLE
    decreases |times|
  {
    if times != [] {
      var n := |times| - 1;
      CountsPasses(limit, times[..n], to);
      var l := After(limit, times[..n]);
      if l.window == 0 || times[n] - l.window >= 60 {
        NoPasses(limit, times[..n], times[n], to);
      }
    }
  }

  /** A request is refused only when the whole limit has passed within the last 60 seconds. */
  lemma RefusedOnlyWhenUsed(limit: nat, times: seq<int>, now: int) returns (from: int)
    requires limit > 0 && Clock(times + [now]) && !Check(After(limit, times), limit, now).1
    ensures now - 60 < from <= now && Passes(limit, times, from, now + 1) >= limit
  {
    var all := times + [now];
    assert forall i :: 0 <= i < |times| ==> times[i] == all[i] <= all[|times|] == now;
    CountsPasses(limit, times, now + 1);
    from := After(limit, times).window;
  }

  function Repeat(t: int, n: nat): (r: seq<int>)
    ensures |r| == n && forall i :: 0 <= i < n ==> r[i] == t
  {
    seq(n, i => t)
  }

  /** The bound is reached: one request opens a window, the rest of its quota comes in its last
      second, and the next window's quota in the second after. */
  lemma MinuteLimitIsTight(limit: nat) returns (times: seq<int>)
    requires limit > 0
    ensures Clock(times) && Passes(limit, times, 2, 62) == 2 * limit - 1
  {
    hide After, Passes;
    StartsIdle(limit, 2, 62);
    var opening := [1];
    Opens(limit, [], 1, 2, 62);
    assert opening == [] + [1];
    var first := opening + Repeat(60, limit - 1);
    Burst(limit, opening, 60, limit - 1, 2, 62);
    var one := first + [61];
    Opens(limit, first, 61, 2, 62);
    times := one + Repeat(61, limit - 1);
    Burst(limit, one, 61, limit - 1, 2, 62);
  }

  /** No more than the limit pass in the 60 seconds from `from`. */
  predicate WithinLimit(limit: nat, times: seq<int>, from: int) {
    Passes(limit, times, from, from + 60) <= limit
  }

  /** The limit bounds every 60-second span of every run only when it is one. */
  lemma LimitIsExact(limit: nat)
    requires limit > 0
    ensures (forall times, from :: Clock(times) ==> WithinLimit(limit, times, from)) <==> limit == 1
  {
    if limit == 1 {
      forall times, from | Clock(times)
        ensures WithinLimit(limit, times, from)
      {
        MinuteLimit(limit, times, from);
      }
    } else {
      var times := MinuteLimitIsTight(limit);
      assert !WithinLimit(limit, times, 2);
    }
  }

  lemma StartsIdle(limit: nat, from: int, to: int)
    ensures After(limit, []) == IDLE && Passes(limit, [], from, to) == 0
  {
  }

  lemma Opens(limit: nat, times: seq<int>, t: int, from: int, to: int)
    requires limit > 0
    requires After(limit, times).window == 0 || t - After(limit, times).window >= 60
    ensures After(limit, times + [t]) == Limiter(t, 1)
    ensures Passes(limit, times + [t], from, to) == Passes(limit, times, from, to) + (if from <= t < to then 1 else 0)
  {
    assert (times + [t])[..|times|] == times;
  }

  /** Requests of one second inside an open window all pass while the quota lasts. */
  lemma {:induction false} Burst(limit: nat, times: seq<int>, t: int, n: nat, from: int, to: int)
    requires limit > 0 && from <= t < to
    requires var l := After(limit, times); l.window != 0 && t - l.window < 60 && l.count + n <= limit
    ensures var l := After(limit, times);
            && After(limit, times + Repeat(t, n)) == l.(count := l.count + n)
            && Passes(limit, times + Repeat(t, n), from, to) == Passes(limit, times, from, to) + n
  {
    var all := times + Repeat(t, n);
    if n == 0 {
      assert all == times;
    } else {
      Burst(limit, times, t, n - 1, from, to);
      assert all[..|all| - 1] == times + Repeat(t, n - 1);
    }
  }

  class MinuteLimiter {
    var window: int
    var count: nat
    const limit: nat

    constructor (limit: nat)
      ensures this.limit == limit && Limiter(window, count) == IDLE
    {
      this.limit := limit;
      window, count := 0, 0;
    }

    method Request(now: int) returns (pass: bool)
      modifies this
      ensures (Limiter(window, count), pass) == Check(Limiter(old(window), old(count)), limit, now)
    {
      if limit == 0 {
        return true;
      }
      if window == 0 || now - window >= 60 {
        window := now;
        count := 0;
      }
      if count >= limit {
        return false;
      }
      count := count + 1;
      return true;
    }
  }

  // ---- The one-second window -------------------------------------------------------------------

  const DEFAULT_PER_SECOND: nat := 10

  function CheckSecond(l: Limiter, limit: nat, now: int): (Limiter, bool) {
    var m := if l.window != now then Limiter(now, 0) else l;
    if m.count >= limit then (m, false) else (m.(count := m.count + 1), true)
  }

  function AfterSeconds(limit: nat, times: seq<int>): Limiter
    decreases |times|
  {
    if times == [] then IDLE
    else CheckSecond(AfterSeconds(limit, times[..|times| - 1]), limit, times[|times| - 1]).0
  }

  function PassesAt(limit: nat, times: seq<int>, second: int): nat
    decreases |times|
  {
    if times == [] then 0
    else
      var init := times[..|times| - 1];
      var now := times[|times| - 1];
      PassesAt(limit, init, second)
      + (if CheckSecond(AfterSeconds(limit, init), limit, now).1 && now == second then 1 else 0)
  }

  function RequestsAt(times: seq<int>, second: int): nat
    decreases |times|
  {
    if times == [] then 0
    else RequestsAt(times[..|times| - 1], second) + (if times[|times| - 1] == second then 1 else 0)
  }

  /** Each second passes its requests up to the limit, and no more. */
  lemma {:induction false} SecondLimit(limit: nat, times: seq<int>, second: int)
    requires Clock(times)
    ensures PassesAt(limit, times, second)
            == if RequestsAt(times, second) < limit then RequestsAt(times, second) else limit
    ensures times != [] ==> AfterSeconds(limit, times).window == times[|times| - 1]
    ensures AfterSeconds(limit, times).window == second && times != [] ==>
              AfterSeconds(limit, times).count == PassesAt(limit, times, second)
    ensures (forall i :: 0 <= i < |times| ==> times[i] < second) ==> RequestsAt(times, second) == 0
    decreases |times|
  {
    if times != [] {
      SecondLimit(limit, times[..|times| - 1], second);
    }
  }

  class EndpointLimiter {
    var window: int
    var count: nat
    const perSecond: nat

    /** A configured limit of zero stands for the default. */
    constructor (configured: nat)
      ensures perSecond == (if configured == 0 then DEFAULT_PER_SECOND else configured) && perSecond > 0
      ensures Limiter(window, count) == IDLE
    {
      perSecond := if configured == 0 then DEFAULT_PER_SECOND else configured;
      window, count := 0, 0;
    }

    method Request(now: int) returns (pass: bool)
      modifies this
      ensures (Limiter(window, count), pass) == CheckSecond(Limiter(old(window), old(count)), perSecond, now)
    {
      if window != now {
        window := now;
        count := 0;
      }
      if count >= perSecond {
        return false;
      }
      count := count + 1;
      return true;
    }
  }
}
