/**
 Conservation over whole runs: an order's fill is what its trades say, and per book, that is per
 asset key, the buy orders have filled exactly what the sell orders have filled, which is what was
 traded. Conservation per asset is the subject of `AssetConservation`.
 */
module Conservation {
  import opened OrderBook
  import opened Trading
  import opened BookInvariant
  import opened Runs

  /** Sum of `FilledBy` over the orders of one side and asset key with an id below `n`. */
  ghost function RecordedFills(s: State, trades: seq<Trade>, key: string, side: Side, n: nat): int {
    if n == 0 then 0
    else
      RecordedFills(s, trades, key, side, n - 1)
      + (if n - 1 in s.orders && s.orders[n - 1].side == side && s.orders[n - 1].asset.Key() == key
         then FilledBy(trades, n - 1, side) else 0)
  }

  /** Sum of the stored filled quantities of the orders of one side and asset key with an id below `n`. */
  function TotalFilled(s: State, key: string, side: Side, n: nat): int {
    if n == 0 then 0
    else
      TotalFilled(s, key, side, n - 1)
      + (if n - 1 in s.orders && s.orders[n - 1].side == side && s.orders[n - 1].asset.Key() == key
         then s.orders[n - 1].filled else 0)
  }

  function TradedIn(trades: seq<Trade>, key: string): int {
    if trades == [] then 0
    else (if trades[0].asset.Key() == key then trades[0].quantity else 0) + TradedIn(trades[1..], key)
  }

  lemma {:induction false} FillsAreRecorded(s: State, key: string, side: Side, n: nat)
    requires LedgerOk(s)
    ensures TotalFilled(s, key, side, n) == RecordedFills(s, s.trades, key, side, n)
  {
    if n > 0 {
      FillsAreRecorded(s, key, side, n - 1);
    }
  }

  lemma {:induction false} NoTradesNoFills(s: State, key: string, side: Side, n: nat)
    ensures RecordedFills(s, [], key, side, n) == 0
  {
    if n > 0 {
      NoTradesNoFills(s, key, side, n - 1);
    }
  }

  /** One trade adds its quantity to exactly one order of each side. */
  lemma {:induction false} OneTradeOneFill(s: State, trades: seq<Trade>, key: string, side: Side, n: nat)
    requires trades != [] && TradeOk(s.orders, trades[0])
    ensures RecordedFills(s, trades, key, side, n) ==
            RecordedFills(s, trades[1..], key, side, n)
            + (if Party(trades[0], side) < n && trades[0].asset.Key() == key then trades[0].quantity else 0)
  {
    if n > 0 {
      OneTradeOneFill(s, trades, key, side, n - 1);
    }
  }

  lemma {:induction false} RecordedIsTraded(s: State, trades: seq<Trade>, key: string, side: Side)
    requires TableOk(s)
    requires forall i :: 0 <= i < |trades| ==> TradeOk(s.orders, trades[i])
    ensures RecordedFills(s, trades, key, side, s.nextId) == TradedIn(trades, key)
  {
    if trades == [] {
      NoTradesNoFills(s, key, side, s.nextId);
    } else {
      RecordedIsTraded(s, trades[1..], key, side);
      assert TradeOk(s.orders, trades[0]);
      OneTradeOneFill(s, trades, key, side, s.nextId);
    }
  }

  /** Buyers and sellers in a book have filled the same total in every run of sound steps. */
  lemma BuysEqualSells(steps: seq<Step>, key: string)
    requires SoundRun(steps)
    ensures var s := Run(steps);
            && TotalFilled(s, key, Buy, s.nextId) == TotalFilled(s, key, Sell, s.nextId)
            && TotalFilled(s, key, Buy, s.nextId) == TradedIn(s.trades, key)
  {
    var s := Run(steps);
    RunKeepsInv(steps);
    FillsAreRecorded(s, key, Buy, s.nextId);
    FillsAreRecorded(s, key, Sell, s.nextId);
    RecordedIsTraded(s, s.trades, key, Buy);
    RecordedIsTraded(s, s.trades, key, Sell);
  }

  /** Every order's fill is the sum of the trades naming it, at prices within both parties' limits. */
  lemma FillsMatchTrades(steps: seq<Step>, id: nat, i: nat)
    requires SoundRun(steps)
    ensures var s := Run(steps);
            && (id in s.orders ==> s.orders[id].filled == FilledBy(s.trades, id, s.orders[id].side))
            && (i < |s.trades| ==>
                  var seller, buyer := s.trades[i].makerOrder, s.trades[i].takerOrder;
                  && seller in s.orders && buyer in s.orders
                  && s.orders[seller].side == Sell && s.orders[buyer].side == Buy
                  && WithinLimit(s.orders[seller], s.trades[i].price)
                  && WithinLimit(s.orders[buyer], s.trades[i].price))
  {
    RunKeepsInv(steps);
    assert i < |Run(steps).trades| ==> TradeOk(Run(steps).orders, Run(steps).trades[i]);
  }

  /** The trade records the users of its two orders, the price of the earlier one and the asset of the later one. */
  ghost predicate RecordsBoth(orders: map<nat, Row>, t: Trade) {
    && t.makerOrder in orders && t.takerOrder in orders && t.makerOrder != t.takerOrder
    && var seller, buyer := orders[t.makerOrder], orders[t.takerOrder];
    && seller.side == Sell && buyer.side == Buy
    && t.makerUser == seller.user && t.takerUser == buyer.user
    && t.price == (if seller.id < buyer.id then seller else buyer).price
    && t.asset == (if seller.id < buyer.id then buyer else seller).asset
  }

  lemma GoodTradeRecordsBoth(orders: map<nat, Row>, t: Trade)
    requires TradeOk(orders, t)
    requires t.makerOrder in orders ==> orders[t.makerOrder].id == t.makerOrder
    requires t.takerOrder in orders ==> orders[t.takerOrder].id == t.takerOrder
    ensures RecordsBoth(orders, t)
  {
  }

  /** In every run each trade records both its orders, the seller as the maker and the buyer as the taker. */
  lemma TradesRecordBothOrders(steps: seq<Step>, i: nat)
    requires SoundRun(steps) && i < |Run(steps).trades|
    ensures RecordsBoth(Run(steps).orders, Run(steps).trades[i])
  {
    hide Run, SoundRun, SidesOk, OpenAreListed, AllUncrossed, TradeOk, RowOk, RecordsBoth;
    RunKeepsInv(steps);
    assert TradeOk(Run(steps).orders, Run(steps).trades[i]);
    GoodTradeRecordsBoth(Run(steps).orders, Run(steps).trades[i]);
  }
}
