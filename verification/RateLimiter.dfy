/** The rate limiter over its store: the sorted sets of the sliding strategy, the counters of the fixed one. */
module RateLimiter {
  import opened Options
  import opened SlidingWindow
  import opened FixedWindow

  datatype Verdict = Verdict(allowed: bool, limit: nat, remaining: nat, resetSeconds: int, retryAfterSeconds: int)

  datatype UsageReport = UsageReport(used: nat, limit: nat, remaining: nat, resetSeconds: int)

  function CeilSeconds(ms: int): int {
    (ms + 999) / 1000
  }

  function AtLeastZero(n: int): nat {
    if n < 0 then 0 else n
  }

  /** How a verdict shows the seconds until the reset. */
  predicate Reset(r: Verdict, seconds: int) {
    r.resetSeconds == (if 0 <= seconds then seconds else 0) && r.retryAfterSeconds == if r.allowed then 0 else seconds
  }

  /** The smallest score of a sorted set. */
  method Oldest(members: set<Member>) returns (at: int)
    requires members != {}
    ensures (exists m :: m in members && m.at == at) && forall m :: m in members ==> at <= m.at
  {
    var first :| first in members;
    at := first.at;
    var rest := members - {first};
    while rest != {}
      invariant rest <= members
      invariant exists m :: m in members && m.at == at
      invariant forall m :: m in members - rest ==> at <= m.at
    {
      var m :| m in rest;
      if m.at < at {
        at := m.at;
      }
      rest := rest - {m};
    }
  }

  class RateLimitService {
    var sets: map<string, Slot>
    var counters: map<string, Counters>

    constructor ()
      ensures sets == map[] && counters == map[]
    {
      sets := map[];
      counters := map[];
    }

    function SlotOf(key: string): Option<Slot>
      reads this
    {
      if key in sets then Some(sets[key]) else None
    }

    function CountersOf(key: string): Counters
      reads this
    {
      if key in counters then counters[key] else map[]
    }

    /** The pipeline of a sliding check: remove what has left the window, add the request, count. */
    method CountRequest(key: string, now: int, salt: nat, window: int) returns (count: nat)
      modifies this
      ensures SlotOf(key) == After(old(SlotOf(key)), Check(now, salt), window)
      ensures sets - {key} == old(sets) - {key} && counters == old(counters)
      ensures count == |SlotOf(key).value.members|
    {
      var members := Live(SlotOf(key), now);
      members := Recent(members, now, window);
      members := members + {Member(now, salt)};
      sets := sets[key := Slot(members, now + (CeilSeconds(window) + 1) * 1000)];
      count := |members|;
    }

    /**
     The rest of a sliding check. The oldest entry is read by a command of its own at time `later`:
     whatever other clients have done to the set by then shows in the reset, but not in the verdict.
     */
    method AnswerFrom(key: string, now: int, later: int, window: int, max: nat, count: nat) returns (r: Verdict)
      ensures r.allowed <==> count <= max
      ensures r.limit == max && r.remaining == if count <= max then max - count else 0
      ensures var live := Live(SlotOf(key), later);
              if live == {} then Reset(r, CeilSeconds(window))
              else exists m :: m in live && (forall o :: o in live ==> m.at <= o.at)
                               && Reset(r, CeilSeconds(m.at + window - now))
    {
      var live := Live(SlotOf(key), later);
      var resetSeconds := CeilSeconds(window);
      if live != {} {
        var oldest := Oldest(live);
        resetSeconds := CeilSeconds(oldest + window - now);
      }
      var allowed := count <= max;
      r := Verdict(allowed, max, AtLeastZero(max - count), AtLeastZero(resetSeconds),
                   if allowed then 0 else resetSeconds);
    }

    /** slidingWindowCheck with nobody in between. */
    method SlidingWindowCheck(key: string, now: int, salt: nat, window: int, max: nat) returns (r: Verdict)
      requires 0 < window
      modifies this
      ensures SlotOf(key) == After(old(SlotOf(key)), Check(now, salt), window)
      ensures sets - {key} == old(sets) - {key} && counters == old(counters)
      ensures r.allowed <==> |SlotOf(key).value.members| <= max
      ensures var count := |SlotOf(key).value.members|;
              r.limit == max && r.remaining == if count <= max then max - count else 0
      ensures r.retryAfterSeconds == if r.allowed then 0 else r.resetSeconds
      // When the reset comes some entry has left the window, and one second earlier none had.
      ensures exists m :: m in SlotOf(key).value.members && m.at <= now + 1000 * r.resetSeconds - window
      ensures forall m :: m in SlotOf(key).value.members ==> now + 1000 * (r.resetSeconds - 1) - window < m.at
    {
      var currentCount := CountRequest(key, now, salt, window);
      assert Member(now, salt) in Live(SlotOf(key), now);
      r := AnswerFrom(key, now, now, window, max, currentCount);
    }

    /** fixedWindowCheck; the key of a counter is the key of the request with the start of the window. */
    method FixedWindowCheck(key: string, now: int, window: int, max: nat) returns (r: Verdict)
      requires 0 < window
      modifies this
      ensures CountersOf(key) == Hit(old(CountersOf(key)), now, window)
      ensures counters - {key} == old(counters) - {key} && sets == old(sets)
      ensures r.allowed <==> Count(old(CountersOf(key)), now / window, now) + 1 <= max
      ensures var count := Count(old(CountersOf(key)), now / window, now) + 1;
              r.limit == max && r.remaining == if count <= max then max - count else 0
      ensures r.retryAfterSeconds == if r.allowed then 0 else r.resetSeconds
      // When the reset comes the next aligned window has begun, and one second earlier it had not.
      ensures now + 1000 * (r.resetSeconds - 1) < (now / window + 1) * window <= now + 1000 * r.resetSeconds
    {
      var windowStart := now / window * window;
      var windows := CountersOf(key);
      var currentCount := Count(windows, now / window, now) + 1;
      windows := windows[now / window := Counter(currentCount, now + (CeilSeconds(window) + 1) * 1000)];
      counters := counters[key := windows];
      var allowed := currentCount <= max;
      StartOfWindow(now, window);
      var resetSeconds := CeilSeconds(windowStart + window - now);
      r := Verdict(allowed, max, AtLeastZero(max - currentCount), AtLeastZero(resetSeconds),
                   if allowed then 0 else resetSeconds);
    }

    /** getUsage: it reads, but it also removes what has left the window. */
    method GetUsage(key: string, now: int, window: int, max: nat) returns (r: UsageReport)
      modifies this
      ensures SlotOf(key) == After(old(SlotOf(key)), Usage(now), window)
      ensures sets - {key} == old(sets) - {key} && counters == old(counters)
      ensures r.used == |Recent(old(Live(SlotOf(key), now)), now, window)|
      ensures r.remaining == if r.used <= max then max - r.used else 0
      ensures r.limit == max && r.resetSeconds == window / 1000
    {
      var members := Recent(Live(SlotOf(key), now), now, window);
      if members == {} {
        sets := sets - {key};
      } else {
        sets := sets[key := sets[key].(members := members)];
      }
      r := UsageReport(|members|, max, AtLeastZero(max - |members|), window / 1000);
    }

    /** clearKey: it forgets the sorted set of the key, but no counter of the fixed strategy. */
    method ClearKey(key: string)
      modifies this
      ensures SlotOf(key) == None
      ensures sets - {key} == old(sets) - {key} && counters == old(counters)
    {
      sets := sets - {key};
    }
  }

  lemma StartOfWindow(now: int, window: int)
    requires 0 < window
    ensures now / window * window <= now < now / window * window + window
    ensures (now / window + 1) * window == now / window * window + window
  {
  }
}
