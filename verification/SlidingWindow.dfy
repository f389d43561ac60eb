/**
 The sliding-window request counter of internal/circuit/pattern.go.  Times and durations are
 nanoseconds; clock readings never go backwards, as Go's monotonic clock guarantees.
 */
module SlidingWindow {

  /** The recorded requests a window ending now still contains, in order. */
  ghost function InWindow(history: seq<int>, cutoff: int): seq<int> {
    if history == [] then []
    else
      var last := history[|history| - 1];
      InWindow(history[..|history| - 1], cutoff) + if last >= cutoff then [last] else []
  }

  ghost predicate NonDecreasing(times: seq<int>) {
    forall i, j | 0 <= i < j < |times| :: times[i] <= times[j]
  }

  /** For sorted times the window is a suffix: everything before it is too old. */
  lemma {:induction false} WindowIsSuffix(times: seq<int>, cutoff: int, i: nat)
    requires i <= |times|
    requires forall k | 0 <= k < i :: times[k] < cutoff
    requires forall k | i <= k < |times| :: times[k] >= cutoff
    ensures InWindow(times, cutoff) == times[i..]
  {
    if times != [] {
      var n := |times| - 1;
      if i <= n {
        WindowIsSuffix(times[..n], cutoff, i);
        assert times[i..] == times[..n][i..] + [times[n]];
      } else {
        WindowIsSuffix(times[..n], cutoff, n);
      }
    }
  }

  /** Pruning at an earlier cutoff loses nothing that a later cutoff would keep. */
  lemma {:induction false} PruneTwice(history: seq<int>, early: int, late: int)
    requires early <= late
    ensures InWindow(InWindow(history, early), late) == InWindow(history, late)
  {
    if history != [] {
      var n := |history| - 1;
      var kept := InWindow(history[..n], early);
      PruneTwice(history[..n], early, late);
      if history[n] >= early {
        assert (kept + [history[n]])[..|kept|] == kept;
      } else {
        assert InWindow(history, early) == kept;
      }
    }
  }

  lemma AppendNonDecreasing(times: seq<int>, t: int)
    requires NonDecreasing(times) && forall x | x in times :: x <= t
    ensures NonDecreasing(times + [t])
  {
    forall i, j | 0 <= i < j < |times| + 1 ensures (times + [t])[i] <= (times + [t])[j] {
      assert times[i] in times;
    }
  }

  lemma {:induction false} WindowNonDecreasing(history: seq<int>, cutoff: int)
    requires NonDecreasing(history)
    ensures NonDecreasing(InWindow(history, cutoff))
    ensures forall x | x in InWindow(history, cutoff) :: x in history && x >= cutoff
  {
    if history != [] {
      var front := history[..|history| - 1];
      WindowNonDecreasing(front, cutoff);
      forall x | x in InWindow(front, cutoff) ensures x <= history[|history| - 1] {
        var i :| 0 <= i < |front| && front[i] == x;
        assert history[i] == x;
      }
      AppendNonDecreasing(InWindow(front, cutoff), history[|history| - 1]);
    }
  }

  lemma WindowSnoc(times: seq<int>, t: int, cutoff: int)
    ensures InWindow(times + [t], cutoff) == InWindow(times, cutoff) + if t >= cutoff then [t] else []
  {
    assert (times + [t])[..|times|] == times;
  }

  const SECOND := 1000000000

  /** Requests per second since the oldest one in the window, or their number when no time has passed. */
  ghost function Rate(window: seq<int>, later: int): real {
    if window == [] then 0.0
    else if later <= window[0] then |window| as real
    else |window| as real * SECOND as real / (later - window[0]) as real
  }

  /** What the rate is: rate times elapsed time is the number of requests. */
  lemma RateExactly(window: seq<int>, later: int)
    ensures var rate := Rate(window, later);
      if window == [] then rate == 0.0
      else if later <= window[0] then rate == |window| as real
      else rate * (later - window[0]) as real == |window| as real * 1_000_000_000.0
  {
    if window != [] && later > window[0] {
      var a, b := |window| as real * SECOND as real, (later - window[0]) as real;
      assert a / b * b == a;
    }
  }

  lemma QuotientAbove(a: real, b: real, c: real)
    requires b > 0.0
    ensures a / b > c <==> a > c * b
  {
    assert a == a / b * b;
  }

  /** Above 0.1 means: more requests than ten-second spans since the oldest one. */
  lemma RateAboveTenth(window: seq<int>, later: int)
    ensures Rate(window, later) > 0.1 <==> window != [] && |window| * 10_000_000_000 > later - window[0]
  {
    if window != [] && later > window[0] {
      var elapsed := (later - window[0]) as real;
      QuotientAbove(|window| as real * SECOND as real, elapsed, 0.1);
    }
  }

  class TrafficPattern {
    var requestTimes: seq<int>
    const windowSize: int
    const burstThreshold: int
    ghost var history: seq<int>  // every request ever recorded
    ghost var clock: int         // the latest clock reading

    /** However often it was pruned, the queue is a filter of the whole history. */
    ghost predicate Valid()
      reads this
    {
      && NonDecreasing(history)
      && (forall t | t in history :: t <= clock)
      && requestTimes == InWindow(history, clock - windowSize)
    }

    constructor (windowSize: int, burstThreshold: int, ghost now: int)
      ensures Valid() && history == [] && clock == now
      ensures this.windowSize == windowSize && this.burstThreshold == burstThreshold
    {
      this.windowSize, this.burstThreshold := windowSize, burstThreshold;
      requestTimes, history, clock := [], [], now;
    }

    /** Drops the leading times before the window, which is all of them that are too old. */
    method PruneLocked(now: int)
      requires NonDecreasing(requestTimes)
      modifies this`requestTimes
      ensures requestTimes == InWindow(old(requestTimes), now - windowSize)
    {
      var cutoff := now - windowSize;
      var i := 0;
      while i < |requestTimes| && requestTimes[i] < cutoff
        invariant 0 <= i <= |requestTimes| && requestTimes == old(requestTimes)
        invariant forall k | 0 <= k < i :: requestTimes[k] < cutoff
      {
        i := i + 1;
      }
      assert forall k | i < k < |requestTimes| :: requestTimes[i] <= requestTimes[k];
      WindowIsSuffix(requestTimes, cutoff, i);
      requestTimes := requestTimes[i..];
    }

    method RecordRequest(now: int)
      requires Valid() && clock <= now
      modifies this
      ensures Valid() && history == old(history) + [now] && clock == now
    {
      WindowNonDecreasing(history, clock - windowSize);
      PruneTwice(history, clock - windowSize, now - windowSize);
      AppendNonDecreasing(history, now);
      AppendNonDecreasing(requestTimes, now);
      WindowSnoc(history, now, now - windowSize);
      WindowSnoc(requestTimes, now, now - windowSize);
      requestTimes := requestTimes + [now];
      PruneLocked(now);
      history, clock := history + [now], now;
    }

    /** True exactly when at least burstThreshold recorded requests are in the window. */
    method IsBurst(now: int) returns (burst: bool)
      requires Valid() && clock <= now
      modifies this
      ensures Valid() && history == old(history) && clock == now
      ensures burst <==> |InWindow(history, now - windowSize)| >= burstThreshold
    {
      WindowNonDecreasing(history, clock - windowSize);
      PruneTwice(history, clock - windowSize, now - windowSize);
      PruneLocked(now);
      clock := now;
      burst := |requestTimes| >= burstThreshold;
    }

    /** `later` is the second clock reading, taken after the prune. */
    method RequestRate(now: int, later: int) returns (rate: real)
      requires Valid() && clock <= now <= later
      modifies this
      ensures Valid() && history == old(history) && clock == now
      ensures rate == Rate(InWindow(history, now - windowSize), later)
    {
      WindowNonDecreasing(history, clock - windowSize);
      PruneTwice(history, clock - windowSize, now - windowSize);
      PruneLocked(now);
      clock := now;
      if |requestTimes| == 0 {
        return 0.0;
      }
      var elapsed := later - requestTimes[0];
      if elapsed <= 0 {
        return |requestTimes| as real;
      }
      rate := |requestTimes| as real * SECOND as real / elapsed as real;
    }
  }
}
