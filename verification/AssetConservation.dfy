/**
 Conservation per asset. Books are kept per key, and two assets can share one: a code with a dash
 reads like a code and an issuer. Fills balance per asset, and trades name the asset of both their
 orders, exactly when the keys of the assets in use tell them apart.
 */
module AssetConservation {
  import opened OrderBook
  import opened Trading
  import opened BookInvariant
  import opened Placement
  import opened Runs
  import opened Conservation
  import StableSort

  /** Sum of the filled quantities of the orders of one side and asset with an id below `n`. */
  function AssetFilled(s: State, asset: Asset, side: Side, n: nat): int {
    if n == 0 then 0
    else
      AssetFilled(s, asset, side, n - 1)
      + (if n - 1 in s.orders && s.orders[n - 1].side == side && s.orders[n - 1].asset == asset
         then s.orders[n - 1].filled else 0)
  }

  ghost predicate BalancedIn(s: State, asset: Asset) {
    AssetFilled(s, asset, Buy, s.nextId) == AssetFilled(s, asset, Sell, s.nextId)
  }

  /** Both orders of a trade are for the asset it names. */
  ghost predicate NamesItsAsset(s: State, t: Trade) {
    && t.makerOrder in s.orders && s.orders[t.makerOrder].asset == t.asset
    && t.takerOrder in s.orders && s.orders[t.takerOrder].asset == t.asset
  }

  ghost predicate FairPerAsset(s: State) {
    && (forall asset :: BalancedIn(s, asset))
    && (forall i :: 0 <= i < |s.trades| ==> NamesItsAsset(s, s.trades[i]))
  }

  /** All orders of a run are for assets of a set. */
  ghost predicate Over(steps: seq<Step>, assets: iset<Asset>) {
    forall i :: 0 <= i < |steps| && steps[i].Create? ==> steps[i].draft.asset in assets
  }

  ghost predicate KeysTellApart(assets: iset<Asset>) {
    forall a, b :: a in assets && b in assets && a.Key() == b.Key() ==> a == b
  }

  // ---------------------------------------------------------------- keys that tell apart are enough

  ghost predicate Within(s: State, assets: iset<Asset>) {
    && (forall id :: id in s.orders ==> s.orders[id].asset in assets)
    && (forall i :: 0 <= i < |s.trades| ==> s.trades[i].asset in assets)
  }

  lemma PlaceStaysWithin(s: State, draft: Draft, assets: iset<Asset>)
    requires Inv(s) && 0 < draft.quantity && Within(s, assets) && draft.asset in assets
    ensures Within(Place(s, draft), assets)
  {
    var order := NewOrder(s.nextId, draft);
    InvIsPlaced(s);
    PlaceKeepsIdentity(s, draft);
    MatchKeepsTerms(order, Makers(s, draft), ToFill(order));
    NewTradesNameTheAsset(s, draft);
    hide Inv, Match, SaveAll, Placed;
  }

  lemma NewTradesNameTheAsset(s: State, draft: Draft)
    requires Inv(s) && 0 < draft.quantity
    ensures forall i :: 0 <= i < |Matched(s, draft).trades| ==> Matched(s, draft).trades[i].asset == draft.asset
  {
    MatchedIsOk(s, draft);
    hide Inv, Match;
    forall i | 0 <= i < |Matched(s, draft).trades| ensures Matched(s, draft).trades[i].asset == draft.asset {
      assert Matched(s, draft).trades[i]
          == MakeTrade(NewOrder(s.nextId, draft), Makers(s, draft)[i], Matched(s, draft).trades[i].quantity);
    }
  }

  lemma {:induction false} RunStaysWithin(steps: seq<Step>, assets: iset<Asset>)
    requires SoundRun(steps) && Over(steps, assets)
    ensures Within(Run(steps), assets)
  {
    hide Within, SoundStep, Next;
    if steps == [] {
      NobodyYet(assets);
    } else {
      var n := |steps| - 1;
      PrefixIsSound(steps, n);
      assert Over(steps[..n], assets);
      RunStaysWithin(steps[..n], assets);
      RunKeepsInv(steps[..n]);
      assert SoundStep(Run(steps[..n]), steps[n]);
      StepStaysWithin(Run(steps[..n]), steps[n], assets);
    }
  }

  lemma NobodyYet(assets: iset<Asset>)
    ensures Within(Start, assets)
  {
  }

  lemma StepStaysWithin(s: State, step: Step, assets: iset<Asset>)
    requires Inv(s) && SoundStep(s, step) && Within(s, assets)
    requires step.Create? ==> step.draft.asset in assets
    ensures Within(Next(s, step), assets)
  {
    if step.Create? && Validate(step.draft, step.now).None? {
      PlaceStaysWithin(s, step.draft, assets);
    }
  }

  /** Among assets whose keys differ, the orders of a key are the orders of an asset. */
  lemma {:induction false} AssetIsKey(s: State, asset: Asset, assets: iset<Asset>, side: Side, n: nat)
    requires Within(s, assets) && KeysTellApart(assets) && asset in assets
    ensures AssetFilled(s, asset, side, n) == TotalFilled(s, asset.Key(), side, n)
  {
    if n > 0 {
      AssetIsKey(s, asset, assets, side, n - 1);
    }
  }

  lemma {:induction false} NothingFilled(s: State, asset: Asset, assets: iset<Asset>, side: Side, n: nat)
    requires Within(s, assets) && asset !in assets
    ensures AssetFilled(s, asset, side, n) == 0
  {
    if n > 0 {
      NothingFilled(s, asset, assets, side, n - 1);
    }
  }

  lemma RunIsFair(steps: seq<Step>, assets: iset<Asset>)
    requires SoundRun(steps) && Over(steps, assets) && KeysTellApart(assets)
    ensures FairPerAsset(Run(steps))
  {
    var s := Run(steps);
    RunStaysWithin(steps, assets);
    RunKeepsInv(steps);
    forall asset ensures BalancedIn(s, asset) {
      if asset in assets {
        BuysEqualSells(steps, asset.Key());
        AssetIsKey(s, asset, assets, Buy, s.nextId);
        AssetIsKey(s, asset, assets, Sell, s.nextId);
      } else {
        NothingFilled(s, asset, assets, Buy, s.nextId);
        NothingFilled(s, asset, assets, Sell, s.nextId);
      }
    }
    forall i | 0 <= i < |s.trades| ensures NamesItsAsset(s, s.trades[i]) {
      assert TradeOk(s.orders, s.trades[i]);
    }
  }

  // ---------------------------------------------------------------- and they are needed

  /** A seller of `a` and a buyer of `b`. */
  function Mixed(a: Asset, b: Asset): seq<Step> {
    [Create(Draft(1, a, Sell, Limit, 5, 10, Never), 0), Create(Draft(2, b, Buy, Limit, 5, 10, Never), 0)]
  }

  lemma SortOne(side: Side, row: Row)
    ensures StableSort.Sort(ByRank(side), [row]) == [row]
  {
    assert [row][..0] == [];
    assert StableSort.Sort(ByRank(side), []) == [];
  }

  /** The first order finds an empty engine and rests. */
  lemma SellerRests(draft: Draft, row: Row)
    requires draft.side == Sell && draft.kind == Limit && row == NewOrder(0, draft)
    ensures var s := Place(Start, draft);
            && s.orders == map[0 := row] && s.trades == [] && s.nextId == 1
            && s.Resting(draft.asset.Key(), Sell) == [row]
  {
    RestsUnmatched(Start, draft, row);
    SortOne(Sell, row);
    assert [] + [row] == [row];
  }

  /** The buyer takes all that rests. */
  lemma BuyerTakesIt(taker: Row, maker: Row)
    requires taker.side == Buy && taker.kind == Limit && taker.price == maker.price == 10
    requires taker.filled == maker.filled == 0 && taker.quantity == maker.quantity == 5
    ensures Match(taker, [maker], 5) ==
            Outcome(FillTaker(taker, 5), [], [FillMaker(maker, 5)], [MakeTrade(taker, maker, 5)])
  {
    assert [maker][1..] == [];
    assert Match(FillTaker(taker, 5), [], 0) == Outcome(FillTaker(taker, 5), [], [], []);
  }

  lemma BuyerFills(s: State, draft: Draft, maker: Row, taker: Row)
    requires s.orders == map[0 := maker] && s.trades == [] && s.nextId == 1 && taker == NewOrder(1, draft)
    requires s.Resting(draft.asset.Key(), Sell) == [maker] && maker.id == 0
    requires draft.side == Buy && draft.kind == Limit && draft.price == maker.price == 10
    requires maker.filled == 0 && draft.quantity == maker.quantity == 5
    ensures var s' := Place(s, draft);
            && s'.orders == map[0 := FillMaker(maker, 5), 1 := FillTaker(taker, 5)]
            && s'.trades == [MakeTrade(taker, maker, 5)] && s'.nextId == 2
  {
    hide Match, SaveAll, AddToBook;
    BuyerTakesIt(taker, maker);
    SavesOne(s.orders[1 := FillTaker(taker, 5)], FillMaker(maker, 5));
  }

  lemma SavesOne(orders: map<nat, Row>, row: Row)
    ensures SaveAll(orders, [row]) == orders[row.id := row]
  {
    assert [row][..0] == [];
    NothingToSave(orders);
  }

  lemma MixedEnds(a: Asset, b: Asset)
    requires a.Key() == b.Key()
    ensures SoundRun(Mixed(a, b))
    ensures var s := Run(Mixed(a, b));
            && s.orders.Keys == {0, 1} && s.nextId == 2 && |s.trades| == 1
            && s.orders[0].asset == a && s.orders[0].side == Sell && s.orders[0].filled == 5
            && s.orders[1].asset == b && s.orders[1].side == Buy && s.orders[1].filled == 5
            && s.trades[0].asset == b && s.trades[0].makerOrder == 0
  {
    hide Place;
    var steps := Mixed(a, b);
    var seller, buyer := steps[0].draft, steps[1].draft;
    assert steps[..1] == [steps[0]] && steps[..2] == steps && [steps[0]][..0] == [];
    SellerRests(seller, NewOrder(0, seller));
    BuyerFills(Place(Start, seller), buyer, NewOrder(0, seller), NewOrder(1, buyer));
    assert Run(steps[..1]) == Place(Start, seller);
    assert Run(steps) == Place(Place(Start, seller), buyer);
  }

  /**
   Two assets with the same key: buys of one are filled by sells of the other, so neither
   balances, and the trade names an asset its seller never offered.
   */
  lemma SharedKeyMixes(a: Asset, b: Asset)
    requires a != b && a.Key() == b.Key()
    ensures SoundRun(Mixed(a, b))
    ensures var s := Run(Mixed(a, b));
            && AssetFilled(s, b, Buy, s.nextId) == 5 && AssetFilled(s, b, Sell, s.nextId) == 0
            && |s.trades| == 1 && !NamesItsAsset(s, s.trades[0])
  {
    MixedEnds(a, b);
    var s := Run(Mixed(a, b));
    assert AssetFilled(s, b, Buy, 2) == AssetFilled(s, b, Buy, 1) + 5 && AssetFilled(s, b, Buy, 0) == 0;
    assert AssetFilled(s, b, Sell, 2) == AssetFilled(s, b, Sell, 1) && AssetFilled(s, b, Sell, 0) == 0;
  }

  /** Such a pair: the code X-Y without an issuer, and the code X issued by Y. */
  lemma SharedKey()
    ensures var a, b := Asset("X-Y", ""), Asset("X", "Y"); a != b && a.Key() == b.Key()
  {
    assert |"X-Y"| == 3;
    assert "X" + "-" + "Y" == "X-Y";
  }

  /**
   For a set of assets, every sound run over it balances each asset and gives each trade the asset
   of both its orders exactly when the keys of the set tell its assets apart.
   */
  lemma FairPerAssetIff(assets: iset<Asset>)
    ensures (forall steps :: SoundRun(steps) && Over(steps, assets) ==> FairPerAsset(Run(steps))) <==>
            KeysTellApart(assets)
  {
    if KeysTellApart(assets) {
      forall steps | SoundRun(steps) && Over(steps, assets) ensures FairPerAsset(Run(steps)) {
        RunIsFair(steps, assets);
      }
    } else {
      var a, b :| a in assets && b in assets && a.Key() == b.Key() && a != b;
      var steps := Mixed(a, b);
      SharedKeyMixes(a, b);
      assert Over(steps, assets) && !BalancedIn(Run(steps), b);
    }
  }

  /** Codes without a dash are enough: the key then shows where the issuer begins. */
  lemma NoDashTellsApart(assets: iset<Asset>)
    requires forall a :: a in assets ==> '-' !in a.code
    ensures KeysTellApart(assets)
  {
    forall a, b | a in assets && b in assets && a.Key() == b.Key() ensures a == b {
      SameKeySameAsset(a, b);
    }
  }

  lemma SameKeySameAsset(a: Asset, b: Asset)
    requires '-' !in a.code && '-' !in b.code && a.Key() == b.Key()
    ensures a == b
  {
    CodeLength(a, b);
    CodeLength(b, a);
    var n := |a.code|;
    assert a.Key()[..n] == a.code && b.Key()[..n] == b.code;
    assert a.issuer != "" ==> a.Key()[n + 1..] == a.issuer && |a.Key()| > n;
    assert b.issuer != "" ==> b.Key()[n + 1..] == b.issuer && |b.Key()| > n;
  }

  lemma CodeLength(a: Asset, b: Asset)
    requires '-' !in b.code && a.Key() == b.Key()
    ensures |b.code| <= |a.code|
  {
    assert a.issuer != "" ==> a.Key()[|a.code|] == '-';
    assert forall i :: 0 <= i < |b.code| ==> b.Key()[i] == b.code[i] != '-';
  }
}
