/**
 The sliding-window limit of one key: a sorted set of request times with a time to live. Times
 are milliseconds; a member carries its time and a random salt.
 */
module SlidingWindow {
  import opened Options

  datatype Member = Member(at: int, salt: nat)

  datatype Slot = Slot(members: set<Member>, expires: int)

  datatype Event = Check(now: int, salt: nat) | Usage(now: int) | Clear(now: int)

  /** What the store still holds of a key at a time. */
  function Live(slot: Option<Slot>, now: int): set<Member> {
    if slot.Some? && now < slot.value.expires then slot.value.members else {}
  }

  /** What is left after removing the scores up to `now - window`. */
  function Recent(members: set<Member>, now: int, window: int): set<Member> {
    set m | m in members && now - window < m.at
  }

  /** Time to live in milliseconds: the window in whole seconds, rounded up, and one second more. */
  function TimeToLive(window: int): int {
    ((window + 999) / 1000 + 1) * 1000
  }

  function Checked(slot: Option<Slot>, now: int, salt: nat, window: int): Slot {
    Slot(Recent(Live(slot, now), now, window) + {Member(now, salt)}, now + TimeToLive(window))
  }

  /** A set that becomes empty is removed together with its time to live. */
  function Used(slot: Option<Slot>, now: int, window: int): Option<Slot> {
    var left := Recent(Live(slot, now), now, window);
    if left == {} then None else Some(Slot(left, slot.value.expires))
  }

  function After(slot: Option<Slot>, e: Event, window: int): Option<Slot> {
    match e
    case Check(now, salt) => Some(Checked(slot, now, salt, window))
    case Usage(now) => Used(slot, now, window)
    case Clear(_) => None
  }

  function Run(events: seq<Event>, window: int): Option<Slot> {
    if events == [] then None
    else After(Run(events[..|events| - 1], window), events[|events| - 1], window)
  }

  /** The answer to event number `i` of a run. */
  predicate Allowed(events: seq<Event>, i: nat, window: int, max: nat)
    requires i < |events| && events[i].Check?
  {
    |Checked(Run(events[..i], window), events[i].now, events[i].salt, window).members| <= max
  }

  // ---------------------------------------------------------------- what the store knows

  /** All requests since the key was last cleared, allowed or not. */
  function Requests(events: seq<Event>): set<Member> {
    if events == [] then {}
    else
      var before, e := Requests(events[..|events| - 1]), events[|events| - 1];
      match e
      case Check(now, salt) => before + {Member(now, salt)}
      case Usage(_) => before
      case Clear(_) => {}
  }

  /** Times do not run backwards, and none is later than `now`. */
  ghost predicate Ordered(events: seq<Event>, now: int) {
    && (forall i, j :: 0 <= i < j < |events| ==> events[i].now <= events[j].now)
    && (forall i :: 0 <= i < |events| ==> events[i].now <= now)
  }

  lemma OrderedPrefix(events: seq<Event>, now: int)
    requires Ordered(events, now) && events != []
    ensures Ordered(events[..|events| - 1], events[|events| - 1].now) && events[|events| - 1].now <= now
    ensures Ordered(events[..|events| - 1], now)
  {
    var front, last := events[..|events| - 1], |events| - 1;
    assert forall i :: 0 <= i < |front| ==> front[i] == events[i] && events[i].now <= events[last].now;
  }

  lemma {:induction false} RequestsArePast(events: seq<Event>, now: int)
    requires Ordered(events, now)
    ensures forall m :: m in Requests(events) ==> m.at <= now
  {
    if events != [] {
      OrderedPrefix(events, now);
      RequestsArePast(events[..|events| - 1], events[|events| - 1].now);
    }
  }

  lemma LivesLonger(window: int)
    ensures window < TimeToLive(window)
  {
  }

  /**
   At any later time the store knows exactly the requests inside the window: neither usage
   reads nor the expiry of the key ever change an answer.
   */
  lemma {:induction false} StoreIsExact(events: seq<Event>, now: int, window: int)
    requires Ordered(events, now)
    ensures Recent(Live(Run(events, window), now), now, window) == Recent(Requests(events), now, window)
    decreases |events|
  {
    if events != [] {
      var front, e := events[..|events| - 1], events[|events| - 1];
      OrderedPrefix(events, now);
      StoreIsExact(front, e.now, window);
      StoreIsExact(front, now, window);
      RequestsArePast(front, e.now);
      LivesLonger(window);
    }
  }

  /** A check is allowed exactly when the window up to it holds at most `max` requests, itself included. */
  lemma AllowedIff(events: seq<Event>, i: nat, window: int, max: nat)
    requires i < |events| && events[i].Check? && Ordered(events, events[|events| - 1].now)
    ensures var e := events[i];
            Allowed(events, i, window, max) <==>
            |Recent(Requests(events[..i]), e.now, window) + {Member(e.now, e.salt)}| <= max
  {
    OrderedUpTo(events, i);
    StoreIsExact(events[..i], events[i].now, window);
  }

  lemma OrderedUpTo(events: seq<Event>, i: nat)
    requires i < |events| && Ordered(events, events[|events| - 1].now)
    ensures Ordered(events[..i], events[i].now)
  {
    assert forall j :: 0 <= j < i ==> events[..i][j] == events[j];
  }

  // ---------------------------------------------------------------- safety

  /** No two checks draw the same member. */
  ghost predicate Distinct(events: seq<Event>) {
    forall i, j :: 0 <= i < j < |events| && events[i].Check? && events[j].Check? ==> events[i] != events[j]
  }

  ghost predicate NeverCleared(events: seq<Event>) {
    forall i :: 0 <= i < |events| ==> !events[i].Clear?
  }

  /** Allowed checks at times from `lo` up to, but not including, `lo + window`. */
  function AllowedIn(events: seq<Event>, lo: int, window: int, max: nat): nat {
    if events == [] then 0
    else
      var n := |events| - 1;
      AllowedIn(events[..n], lo, window, max)
      + if events[n].Check? && lo <= events[n].now < lo + window && Allowed(events, n, window, max) then 1 else 0
  }

  function Between(members: set<Member>, lo: int, window: int): set<Member> {
    set m | m in members && lo <= m.at < lo + window
  }

  lemma {:induction false} NotRequested(events: seq<Event>, m: Member)
    requires forall i :: 0 <= i < |events| ==> events[i] != Check(m.at, m.salt)
    ensures m !in Requests(events)
  {
    if events != [] {
      NotRequested(events[..|events| - 1], m);
    }
  }

  lemma NewMember(events: seq<Event>, n: nat)
    requires n < |events| && Distinct(events) && events[n].Check?
    ensures Member(events[n].now, events[n].salt) !in Requests(events[..n])
  {
    assert forall i :: 0 <= i < n ==> events[..n][i] == events[i] != events[n];
    NotRequested(events[..n], Member(events[n].now, events[n].salt));
  }

  /** Checks later than `now - window`. */
  function ChecksSince(events: seq<Event>, now: int, window: int): nat {
    if events == [] then 0
    else
      var n := |events| - 1;
      ChecksSince(events[..n], now, window) + if events[n].Check? && now - window < events[n].now then 1 else 0
  }

  lemma {:induction false} RequestsAreChecks(events: seq<Event>, now: int, window: int)
    requires Distinct(events) && NeverCleared(events)
    ensures |Recent(Requests(events), now, window)| == ChecksSince(events, now, window)
  {
    if events != [] {
      var n := |events| - 1;
      RequestsAreChecks(events[..n], now, window);
      var before := Recent(Requests(events[..n]), now, window);
      if events[n].Check? {
        var m := Member(events[n].now, events[n].salt);
        NewMember(events, n);
        assert Recent(Requests(events), now, window) == if now - window < m.at then before + {m} else before;
      }
    }
  }

  /** A check is allowed exactly when fewer than `max` checks came before it in its window. */
  lemma AllowedIffFewChecks(events: seq<Event>, i: nat, window: int, max: nat)
    requires i < |events| && events[i].Check? && Ordered(events, events[|events| - 1].now)
    requires Distinct(events) && NeverCleared(events)
    ensures Allowed(events, i, window, max) <==> ChecksSince(events[..i], events[i].now, window) < max
  {
    AllowedIff(events, i, window, max);
    NewMember(events, i);
    assert Distinct(events[..i]) && NeverCleared(events[..i]) by {
      assert forall j :: 0 <= j < i ==> events[..i][j] == events[j];
    }
    RequestsAreChecks(events[..i], events[i].now, window);
  }

  lemma {:induction false} AllowedAreRequests(events: seq<Event>, lo: int, window: int, max: nat)
    requires Distinct(events) && NeverCleared(events)
    ensures AllowedIn(events, lo, window, max) <= |Between(Requests(events), lo, window)|
  {
    if events != [] {
      var n := |events| - 1;
      AllowedAreRequests(events[..n], lo, window, max);
      var before := Between(Requests(events[..n]), lo, window);
      if events[n].Check? {
        var m := Member(events[n].now, events[n].salt);
        NewMember(events, n);
        if lo <= m.at < lo + window {
          assert Between(Requests(events), lo, window) == before + {m};
        } else {
          assert Between(Requests(events), lo, window) == before;
        }
      }
    }
  }

  lemma SubsetSize<T>(a: set<T>, b: set<T>)
    requires a <= b
    ensures |a| <= |b|
  {
    assert b == a + (b - a);
  }

  /** Any window holds at most `max` allowed checks. */
  lemma {:induction false} AtMostMax(events: seq<Event>, now: int, lo: int, window: int, max: nat)
    requires Ordered(events, now) && Distinct(events) && NeverCleared(events)
    ensures AllowedIn(events, lo, window, max) <= max
    decreases |events|
  {
    if events != [] {
      var n := |events| - 1;
      var e := events[n];
      OrderedPrefix(events, now);
      if e.Check? && lo <= e.now < lo + window && Allowed(events, n, window, max) {
        LastAllowed(events, lo, window, max);
      } else {
        AtMostMax(events[..n], e.now, lo, window, max);
      }
    }
  }

  /** When the last check is allowed, the store it has seen holds all that were allowed in the window. */
  lemma LastAllowed(events: seq<Event>, lo: int, window: int, max: nat)
    requires events != [] && events[|events| - 1].Check? && Ordered(events[..|events| - 1], events[|events| - 1].now)
    requires Ordered(events, events[|events| - 1].now) && Distinct(events) && NeverCleared(events)
    requires var n := |events| - 1; lo <= events[n].now < lo + window && Allowed(events, n, window, max)
    ensures AllowedIn(events, lo, window, max) <= max
  {
    hide AllowedIn, Ordered, Distinct, NeverCleared, Run;
    var n := |events| - 1;
    var e := events[n];
    AllowedAreRequests(events, lo, window, max);
    StoreIsExact(events[..n], e.now, window);
    RequestsArePast(events[..n], e.now);
    SubsetSize(Between(Requests(events), lo, window), Checked(Run(events[..n], window), e.now, e.salt, window).members);
  }
}
