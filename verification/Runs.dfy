/**
 Whole runs of the trading engine, restarts included: what every run of sound steps keeps, and when
 time priority is kept as well.
 */
module Runs {
  import opened Options
  import opened OrderBook
  import opened Trading
  import opened BookInvariant
  import opened Placement
  import opened Restart
  import StableSort

  // ---------------------------------------------------------------- on any input

  /** Every step on any input leaves each stored order in at most one place. */
  lemma StepKeepsPlaced(s: State, step: Step)
    requires Placed(s) && TrueStep(s, step)
    ensures Placed(Next(s, step))
  {
    hide Place, CloseSet, Close, Rebuild, ListsOpen;
    match step
    case Create(draft, now) => PlaceKeepsPlaced(s, draft);
    case Cancel(id, user) =>
      if RefuseCancel(s, id, user).None? {
        CloseIsCloseSet(s, id, Cancelled);
        CloseSetKeepsPlaced(s, {id}, Cancelled);
      }
    case Cleanup(now) => CloseSetKeepsPlaced(s, ExpiredIds(s.orders, now), Expired);
    case Reopen(found) => ReopenPlaces(s, found);
  }

  lemma {:induction false} RunKeepsPlaced(steps: seq<Step>)
    requires TrueRun(steps)
    ensures Placed(Run(steps))
  {
    hide Next, TrueStep;
    if steps == [] {
      assert Placed(Start);
    } else {
      var n := |steps| - 1;
      forall m | 0 <= m < n ensures TrueStep(Run(steps[..n][..m]), steps[..n][m]) {
        assert steps[..n][..m] == steps[..m];
      }
      RunKeepsPlaced(steps[..n]);
      assert TrueStep(Run(steps[..n]), steps[n]);
      StepKeepsPlaced(Run(steps[..n]), steps[n]);
    }
  }

  // ---------------------------------------------------------------- sound runs

  lemma StepKeepsInv(s: State, step: Step)
    requires Inv(s) && SoundStep(s, step)
    ensures Inv(Next(s, step))
  {
    hide Place, CloseSet, Close, Rebuild, ListsOpen, Sound, Inv;
    match step
    case Create(draft, now) =>
      if Validate(draft, now).None? {
        PlaceKeepsInv(s, draft, now);
      }
    case Cancel(id, user) =>
      if RefuseCancel(s, id, user).None? {
        InvIsPlaced(s);
        CloseIsCloseSet(s, id, Cancelled);
        CloseSetKeepsInv(s, {id}, Cancelled);
      }
    case Cleanup(now) => CloseSetKeepsInv(s, ExpiredIds(s.orders, now), Expired);
    case Reopen(found) => ReopenKeepsInv(s, found);
  }

  lemma PrefixIsSound(steps: seq<Step>, n: nat)
    requires SoundRun(steps) && n <= |steps|
    ensures SoundRun(steps[..n])
  {
    forall m | 0 <= m < n ensures SoundStep(Run(steps[..n][..m]), steps[..n][m]) {
      assert steps[..n][..m] == steps[..m];
    }
  }

  /** Every run of sound steps from the empty engine, restarts included, keeps the invariant. */
  lemma {:induction false} RunKeepsInv(steps: seq<Step>)
    requires SoundRun(steps)
    ensures Inv(Run(steps))
  {
    hide Next, SoundStep;
    if steps == [] {
      StartIsOk();
    } else {
      var n := |steps| - 1;
      PrefixIsSound(steps, n);
      RunKeepsInv(steps[..n]);
      assert SoundStep(Run(steps[..n]), steps[n]);
      StepKeepsInv(Run(steps[..n]), steps[n]);
    }
  }

  /** The book holds exactly the stored open orders. */
  lemma BooksHoldTheOpenOrders(steps: seq<Step>, r: Row)
    requires SoundRun(steps)
    ensures var s := Run(steps);
            r in s.Resting(r.asset.Key(), r.side) <==> r.id in s.orders && s.orders[r.id] == r && r.IsOpen()
  {
    var s := Run(steps);
    hide Run;
    RunKeepsInv(steps);
    if r in s.Resting(r.asset.Key(), r.side) {
      var i :| 0 <= i < |s.Resting(r.asset.Key(), r.side)| && s.Resting(r.asset.Key(), r.side)[i] == r;
      assert SideOk(s, r.asset.Key(), r.side);
      assert Stored(s, r.asset.Key(), r.side, s.Resting(r.asset.Key(), r.side)[i]);
    }
  }

  /** However the database lists the open orders, a restart yields the same orders and price ladder. */
  lemma RestartRebuilds(steps: seq<Step>, found: seq<Row>, key: string, side: Side)
    requires SoundRun(steps + [Reopen(found)])
    ensures var live, rebuilt := Run(steps).Resting(key, side), Run(steps + [Reopen(found)]).Resting(key, side);
            multiset(rebuilt) == multiset(live) && Prices(rebuilt) == Prices(live)
  {
    hide Run, SoundRun, Inv, ListsOpen, Prices, Rebuild, BookOf;
    LastReopen(steps, found, key, side);
    RunKeepsInv(steps);
    SameLadder(Run(steps), found, key, side);
  }

  lemma LastReopen(steps: seq<Step>, found: seq<Row>, key: string, side: Side)
    requires SoundRun(steps + [Reopen(found)])
    ensures SoundRun(steps) && ListsOpen(Run(steps), found)
    ensures Run(steps + [Reopen(found)]).Resting(key, side) == BookOf(Rebuild(found), key, side)
  {
    hide Run, SoundRun, ListsOpen, Rebuild;
    LastStep(steps, Reopen(found));
  }

  lemma LastStep(steps: seq<Step>, step: Step)
    requires SoundRun(steps + [step])
    ensures SoundRun(steps) && SoundStep(Run(steps), step) && Run(steps + [step]) == Next(Run(steps), step)
  {
    hide Next, SoundStep;
    var all := steps + [step];
    PrefixIsSound(all, |steps|);
    assert all[..|steps|] == steps && all[|steps|] == step;
    assert SoundStep(Run(all[..|steps|]), all[|steps|]);
  }

  // ---------------------------------------------------------------- time priority

  /** Every restart of a run lists the orders of each price in order of arrival. */
  ghost predicate ListedInOrder(steps: seq<Step>) {
    forall n :: 0 <= n < |steps| && steps[n].Reopen? ==> ListedByArrival(steps[n].found)
  }

  lemma StepKeepsArrival(s: State, step: Step)
    requires Inv(s) && Arrived(s) && SoundStep(s, step)
    requires step.Reopen? ==> ListedByArrival(step.found)
    ensures Arrived(Next(s, step))
  {
    hide Place, CloseSet, Close, Rebuild, ListsOpen, Inv, ListedByArrival, Arrived;
    match step
    case Create(draft, now) =>
      if Validate(draft, now).None? {
        PlaceKeepsArrival(s, draft);
      }
    case Cancel(id, user) =>
      if RefuseCancel(s, id, user).None? {
        InvIsPlaced(s);
        CloseIsCloseSet(s, id, Cancelled);
        CloseSetKeepsArrival(s, {id}, Cancelled);
      }
    case Cleanup(now) => CloseSetKeepsArrival(s, ExpiredIds(s.orders, now), Expired);
    case Reopen(found) => ReopenArrivesIff(s, found);
  }

  /** Sound runs keep equal prices in order of arrival as long as restarts list them so. */
  lemma {:induction false} RunKeepsArrival(steps: seq<Step>)
    requires SoundRun(steps) && ListedInOrder(steps)
    ensures Arrived(Run(steps))
  {
    hide Next, SoundStep, ListedByArrival;
    if steps == [] {
      StartArrives();
    } else {
      var n := |steps| - 1;
      PrefixIsSound(steps, n);
      RunKeepsInv(steps[..n]);
      RunKeepsArrival(steps[..n]);
      assert SoundStep(Run(steps[..n]), steps[n]);
      StepKeepsArrival(Run(steps[..n]), steps[n]);
    }
  }

  lemma StartArrives()
    ensures Arrived(Start)
  {
  }

  /**
   After a run that has kept time priority, a restart leaves a book exactly as it was exactly when,
   at every price, the database lists the orders in their order of arrival.
   */
  lemma RestartKeepsTimePriorityIff(steps: seq<Step>, found: seq<Row>, key: string, side: Side)
    requires SoundRun(steps + [Reopen(found)]) && ListedInOrder(steps)
    ensures Run(steps + [Reopen(found)]).Resting(key, side) == Run(steps).Resting(key, side) <==>
            ArrivalOrder(Select(found, key, side))
  {
    hide Run, SoundRun, Inv, ListsOpen, Select, ArrivalOrder, Arrived, ListedInOrder, BookOf, Rebuild;
    LastReopen(steps, found, key, side);
    RunKeepsInv(steps);
    RunKeepsArrival(steps);
    SameBookIff(Run(steps), found, key, side);
  }

  // ---------------------------------------------------------------- a listing that loses it

  /** Two sellers at the same price, the second one later. */
  function TwoSellers(asset: Asset): seq<Step> {
    [Create(Draft(1, asset, Sell, Limit, 5, 10, Never), 0), Create(Draft(2, asset, Sell, Limit, 5, 10, Never), 0)]
  }

  lemma BothRest(asset: Asset)
    ensures var steps := TwoSellers(asset);
            var first, second := NewOrder(0, steps[0].draft), NewOrder(1, steps[1].draft);
            && SoundRun(steps) && Run(steps).orders == map[0 := first, 1 := second]
  {
    hide Place;
    var steps := TwoSellers(asset);
    var first, second := NewOrder(0, steps[0].draft), NewOrder(1, steps[1].draft);
    assert steps[..1] == [steps[0]] && steps[..2] == steps && [steps[0]][..0] == [];
    RestsUnmatched(Start, steps[0].draft, first);
    var s1 := Place(Start, steps[0].draft);
    assert Run(steps[..1]) == s1;
    RestsUnmatched(s1, steps[1].draft, second);
    assert Run(steps) == Place(s1, steps[1].draft);
  }

  /** A listing of the two in reverse swaps them on the rebuilt book, and arrival order is lost. */
  lemma ReverseListingLosesPriority(asset: Asset)
    ensures var s := Run(TwoSellers(asset));
            && s.orders.Keys == {0, 1}
            && var reverse := Reopen([s.orders[1], s.orders[0]]);
            SoundRun(TwoSellers(asset) + [reverse]) && !Arrived(Run(TwoSellers(asset) + [reverse]))
            && Run(TwoSellers(asset) + [reverse]).Resting(asset.Key(), Sell) != s.Resting(asset.Key(), Sell)
  {
    hide Run, SoundRun, Rebuild, Select, Arrived;
    var steps := TwoSellers(asset);
    var s := Run(steps);
    BothRest(asset);
    var found := [s.orders[1], s.orders[0]];
    ReverseIsListed(asset, found[0], found[1]);
    assert found[0].price == found[1].price && found[0].id > found[1].id;
    assert DistinctIds(found) && ListsOpen(s, found);
    OneMoreStep(steps, Reopen(found));
    LastStep(steps, Reopen(found));
    RestartKeepsTimePriorityIff(steps, found, asset.Key(), Sell);
    ReopenArrivesIff(s, found);
  }

  lemma OneMoreStep(steps: seq<Step>, step: Step)
    requires SoundRun(steps) && SoundStep(Run(steps), step)
    ensures SoundRun(steps + [step])
  {
    hide Run, SoundStep;
    var all := steps + [step];
    forall n | 0 <= n < |all| ensures SoundStep(Run(all[..n]), all[n]) {
      assert all[..n] == steps[..n];
      assert n == |steps| ==> steps[..n] == steps;
    }
  }

  lemma ReverseIsListed(asset: Asset, second: Row, first: Row)
    requires second.asset == first.asset == asset && second.side == first.side == Sell
    ensures Select([second, first], asset.Key(), Sell) == [second, first]
  {
    assert [second, first][..1] == [second] && [second][..0] == [];
    assert Select([second], asset.Key(), Sell) == [second];
  }
}
