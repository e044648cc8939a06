/** The fixed-window limit of one key: a counter with a time to live for each aligned window. */
module FixedWindow {
  import opened SlidingWindow

  datatype Counter = Counter(count: nat, expires: int)

  type Counters = map<int, Counter>

  function Count(counters: Counters, w: int, now: int): nat {
    if w in counters && now < counters[w].expires then counters[w].count else 0
  }

  function Hit(counters: Counters, now: int, window: int): Counters
    requires 0 < window
  {
    counters[now / window := Counter(Count(counters, now / window, now) + 1, now + TimeToLive(window))]
  }

  function RunHits(times: seq<int>, window: int): Counters
    requires 0 < window
  {
    if times == [] then map[]
    else Hit(RunHits(times[..|times| - 1], window), times[|times| - 1], window)
  }

  /** The answer to the check number `i` of a run. */
  predicate Passes(times: seq<int>, i: nat, window: int, max: nat)
    requires i < |times| && 0 < window
  {
    Count(RunHits(times[..i], window), times[i] / window, times[i]) + 1 <= max
  }

  /** Checks inside aligned window number `w`. */
  function HitsIn(times: seq<int>, w: int, window: int): nat
    requires 0 < window
  {
    if times == [] then 0
    else HitsIn(times[..|times| - 1], w, window) + if times[|times| - 1] / window == w then 1 else 0
  }

  ghost predicate NonDecreasing(times: seq<int>) {
    forall i, j :: 0 <= i < j < |times| ==> times[i] <= times[j]
  }

  lemma StillAlive(hit: int, now: int, window: int)
    requires 0 < window && hit / window == now / window
    ensures now < hit + TimeToLive(window)
  {
    assert hit == window * (hit / window) + hit % window && now == window * (now / window) + now % window;
    LivesLonger(window);
  }

  /** While a window lasts its counter knows exactly the checks inside it: expiry comes too late to matter. */
  lemma {:induction false} CountIsExact(times: seq<int>, now: int, window: int)
    requires 0 < window
    ensures Count(RunHits(times, window), now / window, now) == HitsIn(times, now / window, window)
  {
    if times != [] {
      var n := |times| - 1;
      CountIsExact(times[..n], now, window);
      CountIsExact(times[..n], times[n], window);
      if times[n] / window == now / window {
        StillAlive(times[n], now, window);
      }
    }
  }

  /** Allowed checks inside aligned window number `w`. */
  function PassedIn(times: seq<int>, w: int, window: int, max: nat): nat
    requires 0 < window
  {
    if times == [] then 0
    else
      var n := |times| - 1;
      PassedIn(times[..n], w, window, max) + if times[n] / window == w && Passes(times, n, window, max) then 1 else 0
  }

  /** Of the checks inside an aligned window exactly the first `max` are allowed. */
  lemma {:induction false} FirstMaxPass(times: seq<int>, w: int, window: int, max: nat)
    requires 0 < window
    ensures PassedIn(times, w, window, max) ==
            if HitsIn(times, w, window) <= max then HitsIn(times, w, window) else max
  {
    if times != [] {
      var n := |times| - 1;
      FirstMaxPass(times[..n], w, window, max);
      CountIsExact(times[..n], times[n], window);
    }
  }

  /** Allowed checks at times from `lo` up to, but not including, `lo + window`. */
  function PassedBetween(times: seq<int>, lo: int, window: int, max: nat): nat
    requires 0 < window
  {
    if times == [] then 0
    else
      var n := |times| - 1;
      PassedBetween(times[..n], lo, window, max)
      + if lo <= times[n] < lo + window && Passes(times, n, window, max) then 1 else 0
  }

  lemma TwoWindows(t: int, lo: int, window: int)
    requires 0 < window && lo <= t < lo + window
    ensures t / window == lo / window || t / window == lo / window + 1
  {
    var a, b := lo / window, t / window;
    assert lo == window * a + lo % window && t == window * b + t % window;
    assert window * (b - a) == t - lo + lo % window - t % window;
    Between0And1(window, b - a);
  }

  lemma Between0And1(k: int, d: int)
    requires 0 < k && -k < k * d < 2 * k
    ensures d == 0 || d == 1
  {
  }

  lemma {:induction false} CoveredByTwo(times: seq<int>, lo: int, window: int, max: nat)
    requires 0 < window
    ensures PassedBetween(times, lo, window, max) <=
            PassedIn(times, lo / window, window, max) + PassedIn(times, lo / window + 1, window, max)
  {
    if times != [] {
      var n := |times| - 1;
      CoveredByTwo(times[..n], lo, window, max);
      if lo <= times[n] < lo + window {
        TwoWindows(times[n], lo, window);
      }
    }
  }

  /** Any window holds at most twice `max` allowed checks. */
  lemma AtMostTwiceMax(times: seq<int>, lo: int, window: int, max: nat)
    requires 0 < window
    ensures PassedBetween(times, lo, window, max) <= 2 * max
  {
    CoveredByTwo(times, lo, window, max);
    FirstMaxPass(times, lo / window, window, max);
    FirstMaxPass(times, lo / window + 1, window, max);
  }

  // ---------------------------------------------------------------- the bound is reached

  /** `a` checks in the last instant of window 0, then `b` in the first instant of window 1. */
  function Burst(a: nat, b: nat, window: int): (times: seq<int>)
    ensures |times| == a + b
  {
    if b > 0 then Burst(a, b - 1, window) + [window]
    else if a > 0 then Burst(a - 1, 0, window) + [window - 1]
    else []
  }

  lemma {:induction false} BurstHits(a: nat, b: nat, window: int)
    requires 1 < window
    ensures HitsIn(Burst(a, b, window), 0, window) == a && HitsIn(Burst(a, b, window), 1, window) == b
  {
    Edges(window);
    var times := Burst(a, b, window);
    if b > 0 {
      BurstHits(a, b - 1, window);
      assert times[..|times| - 1] == Burst(a, b - 1, window);
    } else if a > 0 {
      BurstHits(a - 1, 0, window);
      assert times[..|times| - 1] == Burst(a - 1, 0, window);
    }
  }

  lemma {:induction false} BurstTimes(a: nat, b: nat, window: int, i: nat)
    requires i < a + b
    ensures Burst(a, b, window)[i] == if i < a then window - 1 else window
  {
    if b > 0 {
      if i < a + b - 1 { BurstTimes(a, b - 1, window, i); }
    } else if i < a - 1 {
      BurstTimes(a - 1, 0, window, i);
    }
  }

  lemma BurstIsOrdered(a: nat, b: nat, window: int)
    ensures NonDecreasing(Burst(a, b, window))
  {
    forall i, j | 0 <= i < j < a + b ensures Burst(a, b, window)[i] <= Burst(a, b, window)[j] {
      BurstTimes(a, b, window, i);
      BurstTimes(a, b, window, j);
    }
  }

  lemma Edges(window: int)
    requires 1 < window
    ensures (window - 1) / window == 0 && window / window == 1
  {
  }

  lemma {:induction false} BurstPasses(a: nat, b: nat, window: int, max: nat)
    requires 1 < window
    ensures PassedBetween(Burst(a, b, window), window - 1, window, max) ==
            PassedIn(Burst(a, b, window), 0, window, max) + PassedIn(Burst(a, b, window), 1, window, max)
  {
    hide Passes;
    Edges(window);
    var times := Burst(a, b, window);
    if b > 0 {
      BurstPasses(a, b - 1, window, max);
      assert times[..|times| - 1] == Burst(a, b - 1, window);
    } else if a > 0 {
      BurstPasses(a - 1, 0, window, max);
      assert times[..|times| - 1] == Burst(a - 1, 0, window);
    }
  }

  /** Twice the limit is reached across the boundary between two aligned windows. */
  lemma TwiceMaxIsReached(window: int, max: nat)
    requires 1 < window
    ensures NonDecreasing(Burst(max, max, window))
    ensures PassedBetween(Burst(max, max, window), window - 1, window, max) == 2 * max
  {
    BurstIsOrdered(max, max, window);
    BurstHits(max, max, window);
    BurstPasses(max, max, window, max);
    FirstMaxPass(Burst(max, max, window), 0, window, max);
    FirstMaxPass(Burst(max, max, window), 1, window, max);
  }
}
