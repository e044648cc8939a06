/**
 Placing and closing orders keep the book, table and ledger invariant, and time priority; an order
 is taken without harm exactly when it is sound. Restarts and whole runs are in `Restart` and `Runs`.
 */
module BookInvariant {
  import opened Options
  import opened OrderBook
  import opened Trading
  import StableSort

  // ---------------------------------------------------------------- tables

  lemma {:induction false} SaveAllLookup(orders: map<nat, Row>, rows: seq<Row>)
    requires DistinctIds(rows)
    ensures var saved := SaveAll(orders, rows);
            && (forall i :: 0 <= i < |rows| ==> rows[i].id in saved && saved[rows[i].id] == rows[i])
            && (forall id :: id in orders && (forall i :: 0 <= i < |rows| ==> rows[i].id != id) ==>
                               id in saved && saved[id] == orders[id])
            && (forall id :: id in saved ==> id in orders || exists i :: 0 <= i < |rows| && rows[i].id == id)
  {
    if rows != [] {
      var n := |rows| - 1;
      SaveAllLookup(orders, rows[..n]);
      var saved := SaveAll(orders, rows[..n])[rows[n].id := rows[n]];
      assert saved == SaveAll(orders, rows);
      hide SaveAll;
      forall i | 0 <= i < |rows| ensures rows[i].id in saved && saved[rows[i].id] == rows[i] {
        assert i < n ==> rows[..n][i] == rows[i];
      }
      forall id | id in saved && id !in orders ensures exists i :: 0 <= i < |rows| && rows[i].id == id {
        if id != rows[n].id {
          var i :| 0 <= i < n && rows[..n][i].id == id;
          assert rows[i].id == id;
        }
      }
    }
  }

  // ---------------------------------------------------------------- filters

  /** A filter keeps a subsequence: what stays, and in which order. */
  lemma {:induction false} KeepMembers(s: seq<Row>, gone: set<nat>)
    ensures forall r :: r in Keep(s, gone) <==> r in s && r.id !in gone
  {
    if s != [] {
      KeepMembers(s[1..], gone);
    }
  }

  lemma {:induction false} KeepOrder(side: Side, s: seq<Row>, gone: set<nat>)
    requires InPriceOrder(side, s)
    ensures InPriceOrder(side, Keep(s, gone))
  {
    if s != [] {
      var rest := Keep(s[1..], gone);
      TailInPriceOrder(side, s);
      KeepOrder(side, s[1..], gone);
      KeepMembers(s[1..], gone);
      forall i | 0 <= i < |rest| ensures ByRank(side)(s[0]) <= ByRank(side)(rest[i]) {
        assert rest[i] in rest;
        var j :| 0 <= j < |s[1..]| && s[1..][j] == rest[i];
        BestLeads(side, s, j + 1);
      }
      if s[0].id !in gone {
        FirstInPriceOrder(side, s[0], rest);
      }
    }
  }

  lemma FirstInPriceOrder(side: Side, first: Row, rest: seq<Row>)
    requires InPriceOrder(side, rest) && forall i :: 0 <= i < |rest| ==> ByRank(side)(first) <= ByRank(side)(rest[i])
    ensures InPriceOrder(side, [first] + rest)
  {
  }

  lemma {:induction false} KeepArrival(s: seq<Row>, gone: set<nat>)
    requires ArrivalOrder(s)
    ensures ArrivalOrder(Keep(s, gone))
  {
    if s != [] {
      var rest := Keep(s[1..], gone);
      KeepArrival(s[1..], gone);
      KeepMembers(s[1..], gone);
      forall i | 0 <= i < |rest| && rest[i].price == s[0].price ensures s[0].id < rest[i].id {
        assert rest[i] in rest;
      }
    }
  }

  lemma {:induction false} KeepDistinct(s: seq<Row>, gone: set<nat>)
    requires DistinctIds(s)
    ensures DistinctIds(Keep(s, gone))
  {
    if s != [] {
      KeepDistinct(s[1..], gone);
      KeepMembers(s[1..], gone);
      forall i | 0 <= i < |Keep(s[1..], gone)| ensures s[0].id != Keep(s[1..], gone)[i].id {
        assert Keep(s[1..], gone)[i] in s[1..];
      }
    }
  }

  // ---------------------------------------------------------------- closing orders

  /** The best of a filtered side ranks no better than the best there was. */
  lemma KeptBest(side: Side, s: seq<Row>, gone: set<nat>)
    requires InPriceOrder(side, s) && Keep(s, gone) != []
    ensures s != [] && Rank(side, s[0].price) <= Rank(side, Keep(s, gone)[0].price)
  {
    KeepMembers(s, gone);
    var best := Keep(s, gone)[0];
    assert best in Keep(s, gone);
    var i :| 0 <= i < |s| && s[i] == best;
    BestLeads(side, s, i);
  }

  lemma RestingAfterClose(s: State, gone: set<nat>, status: Status, key: string, side: Side)
    ensures CloseSet(s, gone, status).Resting(key, side) == Keep(s.Resting(key, side), gone)
  {
  }

  ghost predicate Closable(s: State, gone: set<nat>) {
    forall id :: id in gone ==> id in s.orders && s.orders[id].IsOpen()
  }

  lemma CloseKeepsSide(s: State, gone: set<nat>, status: Status, key: string, side: Side)
    requires SideOk(s, key, side)
    ensures SideOk(CloseSet(s, gone, status), key, side)
  {
    var s', rows := CloseSet(s, gone, status), s.Resting(key, side);
    RestingAfterClose(s, gone, status, key, side);
    KeepOrder(side, rows, gone);
    KeepDistinct(rows, gone);
    KeepMembers(rows, gone);
    forall i | 0 <= i < |Keep(rows, gone)| ensures Stored(s', key, side, Keep(rows, gone)[i]) {
      var r := Keep(rows, gone)[i];
      assert r in Keep(rows, gone);
      var j :| 0 <= j < |rows| && rows[j] == r;
      assert Stored(s, key, side, rows[j]);
    }
  }

  lemma CloseKeepsListed(s: State, gone: set<nat>, status: Status)
    requires TableOk(s) && OpenAreListed(s) && (status == Cancelled || status == Expired)
    ensures OpenAreListed(CloseSet(s, gone, status))
  {
    var s' := CloseSet(s, gone, status);
    forall id | id in s'.orders && s'.orders[id].IsOpen() ensures Listed(s', s'.orders[id]) {
      var r := s'.orders[id];
      assert id !in gone && r == s.orders[id];
      assert Listed(s, r) && r.id !in gone;
      RestingAfterClose(s, gone, status, r.asset.Key(), r.side);
      KeepMembers(s.Resting(r.asset.Key(), r.side), gone);
    }
  }

  lemma CloseKeepsUncrossed(s: State, gone: set<nat>, status: Status, key: string)
    requires Uncrossed(s, key) && SideOk(s, key, Buy) && SideOk(s, key, Sell)
    ensures Uncrossed(CloseSet(s, gone, status), key)
  {
    var s' := CloseSet(s, gone, status);
    RestingAfterClose(s, gone, status, key, Buy);
    RestingAfterClose(s, gone, status, key, Sell);
    if s'.Resting(key, Buy) != [] && s'.Resting(key, Sell) != [] {
      KeptBest(Buy, s.Resting(key, Buy), gone);
      KeptBest(Sell, s.Resting(key, Sell), gone);
    }
  }

  /** Only the fill and the status of a stored order have changed. */
  ghost predicate SameTerms(before: map<nat, Row>, after: map<nat, Row>, id: nat) {
    && id in before && id in after
    && after[id] == before[id].(filled := after[id].filled, status := after[id].status)
  }

  /** A trade remains as good as the terms of its two orders. */
  lemma TradeStaysOk(before: map<nat, Row>, after: map<nat, Row>, t: Trade)
    requires TradeOk(before, t)
    requires SameTerms(before, after, t.makerOrder) && SameTerms(before, after, t.takerOrder)
    ensures TradeOk(after, t)
  {
    if t.makerOrder < t.takerOrder {
      assert TermsOk(after, t);
    } else {
      assert TermsOk(after, t);
    }
  }

  lemma CloseKeepsLedger(s: State, gone: set<nat>, status: Status)
    requires LedgerOk(s)
    ensures LedgerOk(CloseSet(s, gone, status))
  {
    forall i | 0 <= i < |s.trades| ensures TradeOk(CloseSet(s, gone, status).orders, s.trades[i]) {
      assert TradeOk(s.orders, s.trades[i]);
      TradeStaysOk(s.orders, CloseSet(s, gone, status).orders, s.trades[i]);
    }
  }

  /** Cancelling or expiring open orders keeps the invariant. */
  lemma CloseSetKeepsInv(s: State, gone: set<nat>, status: Status)
    requires Inv(s) && Closable(s, gone)
    requires status == Cancelled || status == Expired
    ensures Inv(CloseSet(s, gone, status))
  {
    var s' := CloseSet(s, gone, status);
    assert TableOk(s') by {
      forall id | id in s'.orders ensures s'.orders[id].id == id < s'.nextId && RowOk(s'.orders[id]) {
        assert RowOk(s.orders[id]);
      }
    }
    forall key, side ensures SideOk(s', key, side) {
      CloseKeepsSide(s, gone, status, key, side);
    }
    CloseKeepsListed(s, gone, status);
    forall key ensures Uncrossed(s', key) {
      assert SideOk(s, key, Buy) && SideOk(s, key, Sell);
      CloseKeepsUncrossed(s, gone, status, key);
    }
    CloseKeepsLedger(s, gone, status);
  }

  // ---------------------------------------------------------------- placing an order

  lemma SideIsDistinct(s: State, key: string, side: Side)
    requires SideOk(s, key, side)
    ensures DistinctIds(s.Resting(key, side)) && AllLive(s.Resting(key, side))
  {
    var rows := s.Resting(key, side);
    forall i | 0 <= i < |rows| ensures rows[i].IsLive() {
      assert Stored(s, key, side, rows[i]);
    }
  }

  lemma InvHasSides(s: State, key: string, side: Side)
    requires Inv(s)
    ensures SideOk(s, key, side)
  {
  }

  /** The side an order is matched against. */
  function Makers(s: State, draft: Draft): seq<Row> {
    s.Resting(draft.asset.Key(), Opposite(draft.side))
  }

  function Matched(s: State, draft: Draft): Outcome {
    MatchNew(s, NewOrder(s.nextId, draft))
  }

  /** How the match of a new order on a good book looks. */
  ghost predicate MatchedOk(s: State, draft: Draft) {
    var order, out := NewOrder(s.nextId, draft), Matched(s, draft);
    && FillsPrefix(order, Makers(s, draft), draft.quantity, out)
    && FillsTaker(order, draft.quantity, out)
    && 0 <= Traded(out.trades)
    && DistinctIds(Makers(s, draft)) && AllLive(Makers(s, draft))
    && DistinctIds(out.touched)
  }

  lemma TouchedDistinct(taker: Row, makers: seq<Row>, remaining: int, out: Outcome)
    requires FillsPrefix(taker, makers, remaining, out) && DistinctIds(makers)
    ensures DistinctIds(out.touched)
  {
    hide Traded, Crosses, MakeTrade;
  }

  lemma MatchedIsOk(s: State, draft: Draft)
    requires Inv(s) && 0 < draft.quantity
    ensures MatchedOk(s, draft)
  {
    hide Inv, SideOk, Match, FillsPrefix, FillsTaker, Traded, DistinctIds;
    var order, makers := NewOrder(s.nextId, draft), Makers(s, draft);
    InvHasSides(s, draft.asset.Key(), Opposite(draft.side));
    SideIsDistinct(s, draft.asset.Key(), Opposite(draft.side));
    MatchFillsPrefix(order, makers, draft.quantity);
    MatchFillsTaker(order, makers, draft.quantity);
    TouchedDistinct(order, makers, draft.quantity, Matched(s, draft));
    TradesArePositive(order, makers, draft.quantity);
    TradedNonNegative(Matched(s, draft).trades);
  }

  ghost predicate SavedOver(
    before: map<nat, Row>, after: map<nat, Row>, order: Row, makers: seq<Row>, touched: seq<Row>)
  {
    && |touched| <= |makers|
    && after.Keys == before.Keys + {order.id}
    && after[order.id] == order
    && (forall i :: 0 <= i < |touched| ==> makers[i].id in before && after[makers[i].id] == touched[i])
    && (forall id :: id in before && (forall i :: 0 <= i < |touched| ==> makers[i].id != id) ==>
                       after[id] == before[id])
  }

  lemma SaveAllSaves(orders: map<nat, Row>, order: Row, makers: seq<Row>, touched: seq<Row>)
    requires DistinctIds(touched) && |touched| <= |makers| && order.id !in orders
    requires forall i :: 0 <= i < |touched| ==> touched[i].id == makers[i].id && makers[i].id in orders
    ensures SavedOver(orders, SaveAll(orders[order.id := order], touched), order, makers, touched)
  {
    hide SaveAll, DistinctIds;
    SaveAllLookup(orders[order.id := order], touched);
  }

  /** The table after placing: the new order, the makers filled, and all others as before. */
  lemma PlacedOrders(s: State, draft: Draft)
    requires TableOk(s) && MatchedOk(s, draft)
    requires SideOk(s, draft.asset.Key(), Opposite(draft.side))
    ensures SavedOver(s.orders, Place(s, draft).orders, Matched(s, draft).taker, Makers(s, draft),
                      Matched(s, draft).touched)
  {
    var out, makers := Matched(s, draft), Makers(s, draft);
    MatchKeepsTerms(NewOrder(s.nextId, draft), makers, ToFill(NewOrder(s.nextId, draft)));
    forall i | 0 <= i < |out.touched|
      ensures out.touched[i].id == makers[i].id && makers[i].id in s.orders
    {
      assert Stored(s, draft.asset.Key(), Opposite(draft.side), makers[i]);
    }
    SaveAllSaves(s.orders, out.taker, makers, out.touched);
  }

  lemma PlacedResting(s: State, draft: Draft, key: string, side: Side)
    ensures var out, own := Matched(s, draft), s.Resting(draft.asset.Key(), draft.side);
            Place(s, draft).Resting(key, side) ==
            if key != draft.asset.Key() then s.Resting(key, side)
            else if side != draft.side then out.book
            else if out.taker.IsOpen() then StableSort.Sort(ByRank(draft.side), own + [out.taker])
            else own
  {
    MatchKeepsTerms(NewOrder(s.nextId, draft), Makers(s, draft), ToFill(NewOrder(s.nextId, draft)));
  }

  lemma {:induction false} MatchKeepsTerms(taker: Row, book: seq<Row>, remaining: int)
    ensures Match(taker, book, remaining).taker.(filled := taker.filled, status := taker.status) == taker
    decreases |book|
  {
    if 0 < remaining && book != [] && Crosses(taker, book[0]) {
      var q := Min(remaining, book[0].Remaining());
      MatchKeepsTerms(FillTaker(taker, q), book[1..], remaining - q);
    }
  }

  // ---------------------------------------------------------------- what placing keeps

  /** A sound order ends filled or fit to rest. */
  lemma TakerIsOk(s: State, draft: Draft, now: int)
    requires Inv(s) && MatchedOk(s, draft)
    requires Validate(draft, now).None? && Sound(s, draft)
    ensures RowOk(Matched(s, draft).taker)
  {
    var order, out := NewOrder(s.nextId, draft), Matched(s, draft);
    assert SideOk(s, draft.asset.Key(), Opposite(draft.side));
    MatchTradesTheMinimum(order, Makers(s, draft), draft.quantity);
    assert out.taker == (if out.trades == [] then order else FillTaker(order, Traded(out.trades)));
    hide Inv, SideOk, Match, Accepted, MatchedOk, FillsPrefix, FillsTaker, Traded;
    assert Traded([]) == 0 by {
      NothingTraded();
    }
    FilledIsOk(s, draft, now, Traded(out.trades));
  }

  lemma NothingTraded()
    ensures Traded([]) == 0
  {
  }

  lemma FilledIsOk(s: State, draft: Draft, now: int, q: int)
    requires Validate(draft, now).None? && 0 < draft.quantity && 0 <= q <= draft.quantity
    requires draft.kind == Market ==> q == draft.quantity
    ensures RowOk(FillTaker(NewOrder(s.nextId, draft), q))
    ensures q == 0 ==> RowOk(NewOrder(s.nextId, draft))
  {
  }

  lemma TouchedAreOk(s: State, draft: Draft, i: nat)
    requires Inv(s) && MatchedOk(s, draft) && i < |Matched(s, draft).touched|
    ensures var r := Matched(s, draft).touched[i]; r.id == Makers(s, draft)[i].id && RowOk(r)
  {
    var maker := Makers(s, draft)[i];
    assert SideOk(s, draft.asset.Key(), Opposite(draft.side));
    assert Stored(s, draft.asset.Key(), Opposite(draft.side), maker);
    assert RowOk(s.orders[maker.id]);
    assert Matched(s, draft).touched[i] == FillMaker(maker, Matched(s, draft).trades[i].quantity);
  }

  datatype Origin = IsTaker | IsMaker(i: nat) | IsOther

  /** Where a row of the table after placing comes from. */
  lemma RowAfter(s: State, draft: Draft, id: nat) returns (from: Origin)
    requires TableOk(s) && MatchedOk(s, draft) && SideOk(s, draft.asset.Key(), Opposite(draft.side))
    requires id in Place(s, draft).orders
    ensures match from
            case IsTaker => id == s.nextId && Place(s, draft).orders[id] == Matched(s, draft).taker
            case IsMaker(i) =>
              && i < |Matched(s, draft).touched| <= |Makers(s, draft)| && Makers(s, draft)[i].id == id
              && Place(s, draft).orders[id] == Matched(s, draft).touched[i]
            case IsOther =>
              && id in s.orders && Place(s, draft).orders[id] == s.orders[id]
              && |Matched(s, draft).touched| <= |Makers(s, draft)|
              && forall i :: 0 <= i < |Matched(s, draft).touched| ==> Makers(s, draft)[i].id != id
  {
    PlacedOrders(s, draft);
    NewId(s, draft);
    hide Place, Matched, MatchedOk, SideOk;
    if id == s.nextId {
      from := IsTaker;
    } else if i :| 0 <= i < |Matched(s, draft).touched| && Makers(s, draft)[i].id == id {
      from := IsMaker(i);
    } else {
      from := IsOther;
    }
  }

  lemma NewId(s: State, draft: Draft)
    ensures Matched(s, draft).taker.id == s.nextId
  {
    MatchKeepsTerms(NewOrder(s.nextId, draft), Makers(s, draft), ToFill(NewOrder(s.nextId, draft)));
  }

  lemma PlacedRowIsOk(s: State, draft: Draft, id: nat)
    requires Inv(s) && MatchedOk(s, draft) && RowOk(Matched(s, draft).taker)
    requires id in Place(s, draft).orders
    ensures Place(s, draft).orders[id].id == id <= s.nextId && RowOk(Place(s, draft).orders[id])
  {
    assert SideOk(s, draft.asset.Key(), Opposite(draft.side)) && (id in s.orders ==> RowOk(s.orders[id]));
    NewId(s, draft);
    hide MatchedOk, Place, Matched, RowOk, SideOk, AllUncrossed, LedgerOk, OpenAreListed;
    var from := RowAfter(s, draft, id);
    if from.IsMaker? {
      TouchedAreOk(s, draft, from.i);
      MakersAreStored(s, draft, from.i);
    }
  }

  lemma MakersAreStored(s: State, draft: Draft, i: nat)
    requires Inv(s) && i < |Makers(s, draft)|
    ensures var id := Makers(s, draft)[i].id; id in s.orders && s.orders[id] == Makers(s, draft)[i] && id < s.nextId
  {
    assert SideOk(s, draft.asset.Key(), Opposite(draft.side));
    assert Stored(s, draft.asset.Key(), Opposite(draft.side), Makers(s, draft)[i]);
    hide Match;
  }

  lemma PlaceKeepsTable(s: State, draft: Draft)
    requires Inv(s) && MatchedOk(s, draft) && RowOk(Matched(s, draft).taker)
    ensures TableOk(Place(s, draft))
  {
    var s' := Place(s, draft);
    forall id | id in s'.orders ensures s'.orders[id].id == id < s'.nextId && RowOk(s'.orders[id]) {
      PlacedRowIsOk(s, draft, id);
    }
  }

  /** What is left of the consumed side: its tail, under the last maker if that one has quantity left. */
  lemma ConsumedSide(s: State, draft: Draft, j: nat) returns (k: nat)
    requires MatchedOk(s, draft) && j < |Matched(s, draft).book|
    ensures k < |Makers(s, draft)|
    ensures var out, makers := Matched(s, draft), Makers(s, draft);
            && k + |out.book| == j + |makers|
            && (k < |out.touched| ==> out.book[j] == out.touched[k] && out.touched[k].IsLive())
            && (k >= |out.touched| ==> out.book[j] == makers[k])
            && out.book[j].id == makers[k].id && out.book[j].price == makers[k].price
  {
    hide Match, FillsPrefix, Matched;
    k := LeftOver(NewOrder(s.nextId, draft), Makers(s, draft), draft.quantity, Matched(s, draft), j);
  }

  lemma LeftOver(order: Row, makers: seq<Row>, quantity: int, out: Outcome, j: nat) returns (k: nat)
    requires FillsPrefix(order, makers, quantity, out) && AllLive(makers) && j < |out.book|
    ensures k < |makers| && k + |out.book| == j + |makers|
    ensures k < |out.touched| ==> out.book[j] == out.touched[k] && out.touched[k].IsLive()
    ensures k >= |out.touched| ==> out.book[j] == makers[k]
    ensures out.book[j].id == makers[k].id && out.book[j].price == makers[k].price
  {
    k := j + |makers| - |out.book|;
    if k < |out.touched| {
      assert out.touched[k] == FillMaker(makers[k], out.trades[k].quantity);
    }
  }

  lemma LeftIsStored(s: State, draft: Draft, j: nat)
    requires Inv(s) && MatchedOk(s, draft) && j < |Matched(s, draft).book|
    ensures Stored(Place(s, draft), draft.asset.Key(), Opposite(draft.side), Matched(s, draft).book[j])
  {
    var out, makers := Matched(s, draft), Makers(s, draft);
    var key, side := draft.asset.Key(), Opposite(draft.side);
    assert SideOk(s, key, side);
    PlacedOrders(s, draft);
    var k := ConsumedSide(s, draft, j);
    assert Stored(s, key, side, makers[k]);
    if k < |out.touched| {
      assert out.touched[k] == FillMaker(makers[k], out.trades[k].quantity);
    }
  }

  lemma LeftIsOrdered(s: State, draft: Draft)
    requires MatchedOk(s, draft) && SideOk(s, draft.asset.Key(), Opposite(draft.side))
    ensures InPriceOrder(Opposite(draft.side), Matched(s, draft).book) && DistinctIds(Matched(s, draft).book)
  {
    hide Matched, MatchedOk;
    var out, makers, side := Matched(s, draft), Makers(s, draft), Opposite(draft.side);
    forall i, j | 0 <= i < j < |out.book|
      ensures out.book[i].id != out.book[j].id && ByRank(side)(out.book[i]) <= ByRank(side)(out.book[j])
    {
      var k := ConsumedSide(s, draft, i);
      var l := ConsumedSide(s, draft, j);
      assert ByRank(side)(makers[k]) <= ByRank(side)(makers[l]);
    }
  }

  lemma PlaceKeepsConsumedSide(s: State, draft: Draft)
    requires Inv(s) && MatchedOk(s, draft)
    ensures SideOk(Place(s, draft), draft.asset.Key(), Opposite(draft.side))
  {
    var key, side := draft.asset.Key(), Opposite(draft.side);
    assert SideOk(s, key, side);
    hide Inv, MatchedOk, Matched, Place, Stored, InPriceOrder;
    PlacedResting(s, draft, key, side);
    LeftIsOrdered(s, draft);
    forall j | 0 <= j < |Matched(s, draft).book| ensures Stored(Place(s, draft), key, side, Matched(s, draft).book[j]) {
      LeftIsStored(s, draft, j);
    }
  }

  /** An order stored elsewhere than on the consumed side is not touched by the match. */
  lemma UntouchedStays(s: State, draft: Draft, key: string, side: Side, r: Row)
    requires Inv(s) && MatchedOk(s, draft) && Stored(s, key, side, r)
    requires key != draft.asset.Key() || side == draft.side
    ensures Stored(Place(s, draft), key, side, r)
  {
    var makers := Makers(s, draft);
    assert SideOk(s, draft.asset.Key(), Opposite(draft.side));
    PlacedOrders(s, draft);
    forall i | 0 <= i < |Matched(s, draft).touched| ensures makers[i].id != r.id {
      assert Stored(s, draft.asset.Key(), Opposite(draft.side), makers[i]);
    }
  }

  lemma PlaceKeepsOtherSide(s: State, draft: Draft, key: string, side: Side)
    requires Inv(s) && MatchedOk(s, draft)
    requires key != draft.asset.Key()
             || (side == draft.side && !Matched(s, draft).taker.IsOpen())
    ensures SideOk(Place(s, draft), key, side)
  {
    var rows := s.Resting(key, side);
    assert SideOk(s, key, side);
    PlacedResting(s, draft, key, side);
    forall i | 0 <= i < |rows| ensures Stored(Place(s, draft), key, side, rows[i]) {
      UntouchedStays(s, draft, key, side, rows[i]);
    }
  }

  /** A newer order goes behind the orders of its price, and the side stays in order of arrival. */
  lemma InsertKeepsArrival(side: Side, rows: seq<Row>, r: Row)
    requires InPriceOrder(side, rows) && ArrivalOrder(rows)
    requires forall i :: 0 <= i < |rows| ==> rows[i].id < r.id
    ensures ArrivalOrder(StableSort.Insert(ByRank(side), rows, r))
  {
    var p, all := StableSort.Place(ByRank(side), rows, r), StableSort.Insert(ByRank(side), rows, r);
    StableSort.PlaceOfSorted(ByRank(side), rows, r);
    forall i | p <= i < |rows| ensures rows[i].price != r.price {
      assert ByRank(side)(r) < ByRank(side)(rows[i]);
    }
    forall i, j | 0 <= i < j < |all| && all[i].price == all[j].price ensures all[i].id < all[j].id {
      StableSort.InsertAt(ByRank(side), rows, r, i);
      StableSort.InsertAt(ByRank(side), rows, r, j);
    }
  }

  lemma InsertDistinct(side: Side, rows: seq<Row>, r: Row)
    requires DistinctIds(rows) && forall i :: 0 <= i < |rows| ==> rows[i].id != r.id
    ensures DistinctIds(StableSort.Insert(ByRank(side), rows, r))
    ensures forall x :: x in StableSort.Insert(ByRank(side), rows, r) ==> x in rows || x == r
  {
    var all := StableSort.Insert(ByRank(side), rows, r);
    forall i, j | 0 <= i < j < |all| ensures all[i].id != all[j].id {
      StableSort.InsertAt(ByRank(side), rows, r, i);
      StableSort.InsertAt(ByRank(side), rows, r, j);
    }
  }

  lemma InsertedAreStored(s: State, key: string, side: Side, rows: seq<Row>, r: Row)
    requires forall i :: 0 <= i < |rows| ==> Stored(s, key, side, rows[i])
    requires Stored(s, key, side, r)
    ensures var all := StableSort.Insert(ByRank(side), rows, r);
            forall i :: 0 <= i < |all| ==> Stored(s, key, side, all[i])
  {
    var all := StableSort.Insert(ByRank(side), rows, r);
    forall i | 0 <= i < |all| ensures Stored(s, key, side, all[i]) {
      StableSort.InsertAt(ByRank(side), rows, r, i);
    }
  }

  lemma TakerIsStored(s: State, draft: Draft)
    requires Inv(s) && MatchedOk(s, draft)
    requires RowOk(Matched(s, draft).taker) && Matched(s, draft).taker.IsOpen()
    ensures Matched(s, draft).taker.id == s.nextId
    ensures Stored(Place(s, draft), draft.asset.Key(), draft.side, Matched(s, draft).taker)
  {
    assert SideOk(s, draft.asset.Key(), Opposite(draft.side));
    PlacedOrders(s, draft);
    MatchKeepsTerms(NewOrder(s.nextId, draft), Makers(s, draft), draft.quantity);
  }

  lemma PlaceKeepsOwnSide(s: State, draft: Draft)
    requires Inv(s) && MatchedOk(s, draft) && RowOk(Matched(s, draft).taker)
    ensures SideOk(Place(s, draft), draft.asset.Key(), draft.side)
  {
    var s', taker := Place(s, draft), Matched(s, draft).taker;
    var key, side := draft.asset.Key(), draft.side;
    if taker.IsOpen() {
      var own := s.Resting(key, side);
      assert SideOk(s, key, side);
      TakerIsStored(s, draft);
      forall i | 0 <= i < |own| ensures own[i].id < taker.id && Stored(s', key, side, own[i]) {
        assert Stored(s, key, side, own[i]);
        UntouchedStays(s, draft, key, side, own[i]);
      }
      StableSort.PushThenSort(ByRank(side), own, taker);
      PlacedResting(s, draft, key, side);
      StableSort.InsertIsSorted(ByRank(side), own, taker);
      InsertDistinct(side, own, taker);
      InsertedAreStored(s', key, side, own, taker);
    } else {
      PlaceKeepsOtherSide(s, draft, key, side);
    }
  }

  lemma PlaceKeepsSides(s: State, draft: Draft)
    requires Inv(s) && MatchedOk(s, draft) && RowOk(Matched(s, draft).taker)
    ensures SidesOk(Place(s, draft))
  {
    forall key, side ensures SideOk(Place(s, draft), key, side) {
      if key != draft.asset.Key() {
        PlaceKeepsOtherSide(s, draft, key, side);
      } else if side == draft.side {
        PlaceKeepsOwnSide(s, draft);
      } else {
        PlaceKeepsConsumedSide(s, draft);
      }
    }
  }

  lemma InsertMembers(side: Side, rows: seq<Row>, r: Row)
    ensures r in StableSort.Insert(ByRank(side), rows, r)
    ensures forall x :: x in rows ==> x in StableSort.Insert(ByRank(side), rows, r)
  {
    var p := StableSort.Place(ByRank(side), rows, r);
    assert rows == rows[..p] + rows[p..];
  }

  /** A maker left open is the last one filled, and it is at the front of what is left. */
  lemma OpenMakerLeads(s: State, draft: Draft, i: nat)
    requires MatchedOk(s, draft) && i < |Matched(s, draft).touched|
    requires Matched(s, draft).touched[i].IsOpen()
    ensures Matched(s, draft).touched[i] in Matched(s, draft).book
  {
    hide Match, Traded, MakeTrade, Crosses, FillsTaker, DistinctIds;
    var out := Matched(s, draft);
    assert out.touched[i] == FillMaker(Makers(s, draft)[i], out.trades[i].quantity);
    assert out.book != [] && out.book[0] == out.touched[i];
  }

  lemma UnfilledMakerStays(s: State, draft: Draft, j: nat)
    requires MatchedOk(s, draft) && |Matched(s, draft).touched| <= j < |Makers(s, draft)|
    ensures Makers(s, draft)[j] in Matched(s, draft).book
  {
    var out, n := Matched(s, draft), |Matched(s, draft).touched|;
    assert Makers(s, draft)[n..][j - n] == Makers(s, draft)[j];
  }

  /** An order resting on the own side stays there, and an open taker joins it. */
  lemma OwnSideGrows(s: State, draft: Draft)
    requires Inv(s) && MatchedOk(s, draft)
    ensures var own', taker := Place(s, draft).Resting(draft.asset.Key(), draft.side), Matched(s, draft).taker;
            && (taker.IsOpen() ==>
                  taker in own'
                  && own' == StableSort.Insert(ByRank(draft.side), s.Resting(draft.asset.Key(), draft.side), taker))
            && forall r :: r in s.Resting(draft.asset.Key(), draft.side) ==> r in own'
  {
    var key, side, taker := draft.asset.Key(), draft.side, Matched(s, draft).taker;
    PlacedResting(s, draft, key, side);
    if taker.IsOpen() {
      assert SideOk(s, key, side);
      StableSort.PushThenSort(ByRank(side), s.Resting(key, side), taker);
      InsertMembers(side, s.Resting(key, side), taker);
    }
  }

  lemma TouchedIsListed(s: State, draft: Draft, i: nat)
    requires Inv(s) && MatchedOk(s, draft) && i < |Matched(s, draft).touched|
    requires Matched(s, draft).touched[i].IsOpen()
    ensures Listed(Place(s, draft), Matched(s, draft).touched[i])
  {
    var maker := Makers(s, draft)[i];
    assert SideOk(s, draft.asset.Key(), Opposite(draft.side));
    assert Stored(s, draft.asset.Key(), Opposite(draft.side), maker);
    assert Matched(s, draft).touched[i] == FillMaker(maker, Matched(s, draft).trades[i].quantity);
    PlacedResting(s, draft, draft.asset.Key(), Opposite(draft.side));
    OpenMakerLeads(s, draft, i);
  }

  lemma UntouchedIsListed(s: State, draft: Draft, id: nat)
    requires Inv(s) && MatchedOk(s, draft) && id in s.orders && s.orders[id].IsOpen()
    requires forall i :: 0 <= i < |Matched(s, draft).touched| ==> Makers(s, draft)[i].id != id
    ensures Listed(Place(s, draft), s.orders[id])
  {
    var r := s.orders[id];
    var key, side := r.asset.Key(), r.side;
    assert Listed(s, r) && r.id == id;
    if key == draft.asset.Key() && side == draft.side {
      OwnSideGrows(s, draft);
    } else {
      PlacedResting(s, draft, key, side);
      if key == draft.asset.Key() {
        MakerStays(s, draft, r);
      }
    }
  }

  lemma MakerStays(s: State, draft: Draft, r: Row)
    requires MatchedOk(s, draft) && r in Makers(s, draft)
    requires forall i :: 0 <= i < |Matched(s, draft).touched| ==> Makers(s, draft)[i].id != r.id
    ensures r in Matched(s, draft).book
  {
    hide Match;
    var j :| 0 <= j < |Makers(s, draft)| && Makers(s, draft)[j] == r;
    UnfilledMakerStays(s, draft, j);
  }

  lemma PlaceKeepsListed(s: State, draft: Draft, id: nat)
    requires Inv(s) && MatchedOk(s, draft)
    requires id in Place(s, draft).orders && Place(s, draft).orders[id].IsOpen()
    ensures Listed(Place(s, draft), Place(s, draft).orders[id])
  {
    assert SideOk(s, draft.asset.Key(), Opposite(draft.side));
    hide MatchedOk, Place, Matched, Listed;
    var from := RowAfter(s, draft, id);
    match from
    case IsTaker => TakerIsListed(s, draft);
    case IsMaker(i) => TouchedIsListed(s, draft, i);
    case IsOther => UntouchedIsListed(s, draft, id);
  }

  lemma TakerIsListed(s: State, draft: Draft)
    requires Inv(s) && MatchedOk(s, draft) && Matched(s, draft).taker.IsOpen()
    ensures Matched(s, draft).taker.id == s.nextId && Listed(Place(s, draft), Matched(s, draft).taker)
  {
    MatchKeepsTerms(NewOrder(s.nextId, draft), Makers(s, draft), draft.quantity);
    OwnSideGrows(s, draft);
    hide Inv, Place, Match, FillsPrefix, FillsTaker;
  }

  lemma ConsumedBest(s: State, draft: Draft)
    requires Inv(s) && MatchedOk(s, draft) && Matched(s, draft).book != []
    ensures var best, makers := Matched(s, draft).book[0], Makers(s, draft);
            && makers != [] && best.price != 0
            && Rank(Opposite(draft.side), makers[0].price) <= Rank(Opposite(draft.side), best.price)
  {
    var makers, side := Makers(s, draft), Opposite(draft.side);
    assert SideOk(s, draft.asset.Key(), side);
    var k := ConsumedSide(s, draft, 0);
    assert makers[k].IsLive();
    BestLeads(side, makers, k);
  }

  /** A taker left open is a limit order that the front of the consumed side does not meet. */
  lemma OpenTakerDoesNotCross(s: State, draft: Draft)
    requires Inv(s) && MatchedOk(s, draft) && Matched(s, draft).book != []
    requires RowOk(Matched(s, draft).taker) && Matched(s, draft).taker.IsOpen()
    ensures Rank(draft.side, draft.price) > Rank(draft.side, Matched(s, draft).book[0].price)
  {
    MatchKeepsTerms(NewOrder(s.nextId, draft), Makers(s, draft), draft.quantity);
    ConsumedBest(s, draft);
    assert !Crosses(NewOrder(s.nextId, draft), Matched(s, draft).book[0]);
  }

  /** The front of the consumed side is no better than it was; the front of the own side is the taker or as before. */
  lemma PlaceKeepsUncrossed(s: State, draft: Draft)
    requires Inv(s) && MatchedOk(s, draft) && RowOk(Matched(s, draft).taker)
    ensures Uncrossed(Place(s, draft), draft.asset.Key())
  {
    var out, key, side := Matched(s, draft), draft.asset.Key(), draft.side;
    assert Uncrossed(s, key);
    PlacedResting(s, draft, key, side);
    PlacedResting(s, draft, key, Opposite(side));
    if out.book != [] {
      ConsumedBest(s, draft);
      if out.taker.IsOpen() {
        OwnSideGrows(s, draft);
        OpenTakerDoesNotCross(s, draft);
        MatchKeepsTerms(NewOrder(s.nextId, draft), Makers(s, draft), draft.quantity);
        StableSort.InsertAt(ByRank(side), s.Resting(key, side), out.taker, 0);
      }
    }
  }

  // ---------------------------------------------------------------- the ledger

  lemma {:induction false} FilledByConcat(a: seq<Trade>, b: seq<Trade>, id: nat, side: Side)
    ensures FilledBy(a + b, id, side) == FilledBy(a, id, side) + FilledBy(b, id, side)
  {
    if a == [] {
      assert a + b == b;
    } else {
      assert (a + b)[1..] == a[1..] + b;
      FilledByConcat(a[1..], b, id, side);
    }
  }

  lemma {:induction false} FilledByNone(trades: seq<Trade>, id: nat, side: Side)
    requires forall i :: 0 <= i < |trades| ==> Party(trades[i], side) != id
    ensures FilledBy(trades, id, side) == 0
  {
    if trades != [] {
      FilledByNone(trades[1..], id, side);
    }
  }

  lemma {:induction false} FilledByAll(trades: seq<Trade>, id: nat, side: Side)
    requires forall i :: 0 <= i < |trades| ==> Party(trades[i], side) == id
    ensures FilledBy(trades, id, side) == Traded(trades)
  {
    if trades != [] {
      FilledByAll(trades[1..], id, side);
    }
  }

  lemma FilledByOne(trades: seq<Trade>, i: nat, side: Side)
    requires i < |trades|
    requires forall j :: 0 <= j < |trades| && j != i ==> Party(trades[j], side) != Party(trades[i], side)
    ensures FilledBy(trades, Party(trades[i], side), side) == trades[i].quantity
  {
    var id := Party(trades[i], side);
    assert trades == trades[..i] + ([trades[i]] + trades[i + 1..]);
    FilledByConcat(trades[..i], [trades[i]] + trades[i + 1..], id, side);
    FilledByConcat([trades[i]], trades[i + 1..], id, side);
    FilledByNone(trades[..i], id, side);
    FilledByNone(trades[i + 1..], id, side);
  }

  /** What the new trades add to an order, for each kind of order. */
  lemma NewFills(s: State, draft: Draft, id: nat, side: Side)
    requires MatchedOk(s, draft)
    requires side == draft.side || id != s.nextId
    ensures var out := Matched(s, draft);
            && (side == draft.side ==>
                  FilledBy(out.trades, id, side) == if id == s.nextId then Traded(out.trades) else 0)
            && (side != draft.side && (forall i :: 0 <= i < |out.touched| ==> Makers(s, draft)[i].id != id) ==>
                  FilledBy(out.trades, id, side) == 0)
  {
    var trades := Matched(s, draft).trades;
    forall i | 0 <= i < |trades|
      ensures Party(trades[i], side) == if side == draft.side then s.nextId else Makers(s, draft)[i].id
    {
    }
    if side == draft.side && id == s.nextId {
      FilledByAll(trades, id, side);
    } else if side == draft.side || forall i :: 0 <= i < |trades| ==> Makers(s, draft)[i].id != id {
      FilledByNone(trades, id, side);
    }
  }

  lemma NewMakerFill(s: State, draft: Draft, i: nat)
    requires MatchedOk(s, draft) && i < |Matched(s, draft).touched|
    ensures FilledBy(Matched(s, draft).trades, Makers(s, draft)[i].id, Opposite(draft.side)) ==
            Matched(s, draft).trades[i].quantity
  {
    var trades, makers := Matched(s, draft).trades, Makers(s, draft);
    forall j | 0 <= j < |trades| ensures Party(trades[j], Opposite(draft.side)) == makers[j].id {
    }
    FilledByOne(trades, i, Opposite(draft.side));
  }

  lemma TakerFill(s: State, draft: Draft)
    requires Inv(s) && MatchedOk(s, draft)
    ensures Matched(s, draft).taker.side == draft.side
    ensures Matched(s, draft).taker.filled == FilledBy(Place(s, draft).trades, s.nextId, draft.side)
  {
    var out := Matched(s, draft);
    MatchKeepsTerms(NewOrder(s.nextId, draft), Makers(s, draft), draft.quantity);
    forall i | 0 <= i < |s.trades| ensures Party(s.trades[i], draft.side) != s.nextId {
      assert TradeOk(s.orders, s.trades[i]);
    }
    FilledByNone(s.trades, s.nextId, draft.side);
    NewFills(s, draft, s.nextId, draft.side);
    FilledByConcat(s.trades, out.trades, s.nextId, draft.side);
  }

  lemma TouchedFill(s: State, draft: Draft, i: nat)
    requires Inv(s) && MatchedOk(s, draft) && i < |Matched(s, draft).touched|
    ensures var r := Matched(s, draft).touched[i];
            r.id == Makers(s, draft)[i].id && r.filled == FilledBy(Place(s, draft).trades, r.id, r.side)
  {
    var out, maker := Matched(s, draft), Makers(s, draft)[i];
    assert SideOk(s, draft.asset.Key(), Opposite(draft.side));
    assert Stored(s, draft.asset.Key(), Opposite(draft.side), maker);
    assert out.touched[i] == FillMaker(maker, out.trades[i].quantity);
    NewMakerFill(s, draft, i);
    FilledByConcat(s.trades, out.trades, maker.id, maker.side);
  }

  lemma UntouchedFill(s: State, draft: Draft, id: nat)
    requires Inv(s) && MatchedOk(s, draft) && id in s.orders
    requires forall i :: 0 <= i < |Matched(s, draft).touched| ==> Makers(s, draft)[i].id != id
    ensures s.orders[id].filled == FilledBy(Place(s, draft).trades, id, s.orders[id].side)
  {
    NewFills(s, draft, id, s.orders[id].side);
    FilledByConcat(s.trades, Matched(s, draft).trades, id, s.orders[id].side);
  }

  lemma PlaceKeepsFills(s: State, draft: Draft, id: nat)
    requires Inv(s) && MatchedOk(s, draft) && id in Place(s, draft).orders
    ensures var s' := Place(s, draft); s'.orders[id].filled == FilledBy(s'.trades, id, s'.orders[id].side)
  {
    assert SideOk(s, draft.asset.Key(), Opposite(draft.side));
    hide MatchedOk, Place, Matched, SideOk, AllUncrossed, LedgerOk, OpenAreListed, FilledBy;
    var from := RowAfter(s, draft, id);
    match from
    case IsTaker => TakerFill(s, draft);
    case IsMaker(i) => TouchedFill(s, draft, i);
    case IsOther => UntouchedFill(s, draft, id);
  }

  /** Orders keep what was agreed on: only the fill and the status change. */
  lemma PlacedKeepsTerms(s: State, draft: Draft, id: nat)
    requires Inv(s) && MatchedOk(s, draft) && id in s.orders
    ensures id in Place(s, draft).orders
    ensures var r := Place(s, draft).orders[id];
            r == s.orders[id].(filled := r.filled, status := r.status)
  {
    var out, makers := Matched(s, draft), Makers(s, draft);
    assert SideOk(s, draft.asset.Key(), Opposite(draft.side));
    PlacedOrders(s, draft);
    MatchKeepsTerms(NewOrder(s.nextId, draft), makers, draft.quantity);
    if i :| 0 <= i < |out.touched| && makers[i].id == id {
      assert Stored(s, draft.asset.Key(), Opposite(draft.side), makers[i]);
      assert out.touched[i] == FillMaker(makers[i], out.trades[i].quantity);
    }
  }

  lemma PlaceKeepsTrades(s: State, draft: Draft, i: nat)
    requires Inv(s) && MatchedOk(s, draft) && i < |Place(s, draft).trades|
    ensures TradeOk(Place(s, draft).orders, Place(s, draft).trades[i])
  {
    if i < |s.trades| {
      OldTradeStays(s, draft, i);
    } else {
      NewTradeIsOk(s, draft, i - |s.trades|);
    }
  }

  lemma OldTradeStays(s: State, draft: Draft, i: nat)
    requires Inv(s) && MatchedOk(s, draft) && i < |s.trades|
    ensures TradeOk(Place(s, draft).orders, s.trades[i])
  {
    hide MatchedOk, Place, TermsOk, TableOk, SidesOk, OpenAreListed, AllUncrossed;
    assert TradeOk(s.orders, s.trades[i]);
    PlacedKeepsTerms(s, draft, s.trades[i].makerOrder);
    PlacedKeepsTerms(s, draft, s.trades[i].takerOrder);
    TradeStaysOk(s.orders, Place(s, draft).orders, s.trades[i]);
  }

  /** What a new trade is made of. */
  ghost predicate MadeOf(s: State, draft: Draft, trade: Trade, maker: Row) {
    var order := NewOrder(s.nextId, draft);
    && 0 < trade.quantity && trade == MakeTrade(order, maker, trade.quantity) && Crosses(order, maker)
    && Stored(s, draft.asset.Key(), Opposite(draft.side), maker)
  }

  lemma TradeIsMade(s: State, draft: Draft, j: nat)
    requires Inv(s) && MatchedOk(s, draft) && j < |Matched(s, draft).trades|
    ensures j < |Makers(s, draft)| && MadeOf(s, draft, Matched(s, draft).trades[j], Makers(s, draft)[j])
  {
    assert SideOk(s, draft.asset.Key(), Opposite(draft.side));
    assert Stored(s, draft.asset.Key(), Opposite(draft.side), Makers(s, draft)[j]);
    hide Inv, Match;
  }

  lemma TakerIsSaved(s: State, draft: Draft)
    requires TableOk(s) && MatchedOk(s, draft) && SideOk(s, draft.asset.Key(), Opposite(draft.side))
    ensures s.nextId in Place(s, draft).orders
    ensures var r := Place(s, draft).orders[s.nextId];
            r == NewOrder(s.nextId, draft).(filled := r.filled, status := r.status)
  {
    PlacedOrders(s, draft);
    MatchKeepsTerms(NewOrder(s.nextId, draft), Makers(s, draft), ToFill(NewOrder(s.nextId, draft)));
    hide Place, Match, MatchedOk, SideOk, TableOk;
  }

  lemma TakerTradeIsOk(s: State, draft: Draft, trade: Trade, maker: Row)
    requires Inv(s) && MatchedOk(s, draft) && MadeOf(s, draft, trade, maker)
    ensures TradeOkFor(Place(s, draft).orders, trade, draft.side)
  {
    assert SideOk(s, draft.asset.Key(), Opposite(draft.side));
    TakerIsSaved(s, draft);
    hide Inv, Place, MatchedOk, SideOk;
  }

  lemma MakerTradeIsOk(s: State, draft: Draft, trade: Trade, maker: Row)
    requires Inv(s) && MatchedOk(s, draft) && MadeOf(s, draft, trade, maker)
    ensures TradeOkFor(Place(s, draft).orders, trade, Opposite(draft.side))
  {
    PlacedKeepsTerms(s, draft, maker.id);
    hide Inv, Place, MatchedOk;
  }

  /** A new order comes after the one it meets, at whose price it trades. */
  lemma MadeTermsAreOk(before: map<nat, Row>, after: map<nat, Row>, order: Row, maker: Row, trade: Trade)
    requires maker.id < order.id && trade == MakeTrade(order, maker, trade.quantity)
    requires maker.id in before && before[maker.id] == maker
    requires SameTerms(before, after, maker.id)
    requires order.id in after && after[order.id].asset == order.asset
    ensures TermsOk(after, trade)
  {
  }

  lemma NewTermsAreOk(s: State, draft: Draft, trade: Trade, maker: Row)
    requires Inv(s) && MatchedOk(s, draft) && MadeOf(s, draft, trade, maker)
    ensures TermsOk(Place(s, draft).orders, trade)
  {
    hide Place, MatchedOk, SidesOk, OpenAreListed, AllUncrossed, LedgerOk, MakeTrade, Crosses, TermsOk;
    assert SideOk(s, draft.asset.Key(), Opposite(draft.side)) by {
      InvHasSides(s, draft.asset.Key(), Opposite(draft.side));
    }
    TakerIsSaved(s, draft);
    PlacedKeepsTerms(s, draft, maker.id);
    MadeTermsAreOk(s.orders, Place(s, draft).orders, NewOrder(s.nextId, draft), maker, trade);
  }

  lemma NewTradeIsOk(s: State, draft: Draft, j: nat)
    requires Inv(s) && MatchedOk(s, draft) && j < |Matched(s, draft).trades|
    ensures TradeOk(Place(s, draft).orders, Matched(s, draft).trades[j])
  {
    hide Inv, Place, MatchedOk, Matched, TradeOkFor, TermsOk;
    TradeIsMade(s, draft, j);
    TakerTradeIsOk(s, draft, Matched(s, draft).trades[j], Makers(s, draft)[j]);
    MakerTradeIsOk(s, draft, Matched(s, draft).trades[j], Makers(s, draft)[j]);
    NewTermsAreOk(s, draft, Matched(s, draft).trades[j], Makers(s, draft)[j]);
  }

  lemma PlaceKeepsLedger(s: State, draft: Draft)
    requires Inv(s) && MatchedOk(s, draft)
    ensures LedgerOk(Place(s, draft))
  {
    var s' := Place(s, draft);
    forall id | id in s'.orders ensures s'.orders[id].filled == FilledBy(s'.trades, id, s'.orders[id].side) {
      PlaceKeepsFills(s, draft, id);
    }
    forall i | 0 <= i < |s'.trades| ensures TradeOk(s'.orders, s'.trades[i]) {
      PlaceKeepsTrades(s, draft, i);
    }
  }

  // ---------------------------------------------------------------- the theorems

  lemma PlaceKeepsInv(s: State, draft: Draft, now: int)
    requires Inv(s) && Validate(draft, now).None? && Sound(s, draft)
    ensures Inv(Place(s, draft))
  {
    var s' := Place(s, draft);
    MatchedIsOk(s, draft);
    TakerIsOk(s, draft, now);
    PlaceKeepsTable(s, draft);
    PlaceKeepsSides(s, draft);
    forall id | id in s'.orders && s'.orders[id].IsOpen() ensures Listed(s', s'.orders[id]) {
      PlaceKeepsListed(s, draft, id);
    }
    forall key ensures Uncrossed(s', key) {
      if key == draft.asset.Key() {
        PlaceKeepsUncrossed(s, draft);
      } else {
        assert Uncrossed(s, key);
        PlacedResting(s, draft, key, Buy);
        PlacedResting(s, draft, key, Sell);
      }
    }
    PlaceKeepsLedger(s, draft);
  }

  /** An order that is not sound leaves the book, the table or both broken. */
  lemma UnsoundBreaksInv(s: State, draft: Draft)
    requires Inv(s) && !Sound(s, draft)
    ensures !Inv(Place(s, draft))
  {
    var s', order, makers := Place(s, draft), NewOrder(s.nextId, draft), Makers(s, draft);
    var out := Matched(s, draft);
    if draft.quantity <= 0 {
      assert out == Outcome(order, makers, [], []);
      assert s'.orders[s.nextId] == order;
    } else {
      assert SideOk(s, draft.asset.Key(), Opposite(draft.side));
      MatchedIsOk(s, draft);
      PlacedOrders(s, draft);
      MatchTradesTheMinimum(order, makers, draft.quantity);
      MatchKeepsTerms(order, makers, draft.quantity);
      assert s'.orders[s.nextId] == out.taker && out.taker.IsOpen() && out.taker.kind == Market;
    }
  }

  /** An accepted order keeps the invariant exactly when it is sound. */
  lemma PlaceKeepsInvIffSound(s: State, draft: Draft, now: int)
    requires Inv(s) && Validate(draft, now).None?
    ensures Inv(Place(s, draft)) <==> Sound(s, draft)
  {
    if Sound(s, draft) {
      PlaceKeepsInv(s, draft, now);
    } else {
      UnsoundBreaksInv(s, draft);
    }
  }

  lemma StartIsOk()
    ensures Inv(Start)
  {
    assert forall key, side :: SideOk(Start, key, side);
    assert forall key :: Uncrossed(Start, key);
  }

  /** Two orders the code accepts and the book does not survive: no quantity, and a market order on an empty book. */
  lemma UnsoundOrders(asset: Asset)
    ensures var nothing := Draft(1, asset, Buy, Limit, 0, 5, Never);
            var market := Draft(1, asset, Buy, Market, 5, 0, Never);
            && Inv(Start)
            && Validate(nothing, 0).None? && !Inv(Place(Start, nothing))
            && Validate(market, 0).None? && !Inv(Place(Start, market))
  {
    var nothing := Draft(1, asset, Buy, Limit, 0, 5, Never);
    var market := Draft(1, asset, Buy, Market, 5, 0, Never);
    StartIsOk();
    UnsoundBreaksInv(Start, nothing);
    UnsoundBreaksInv(Start, market);
  }

  /** Every id of a resting order is that of exactly one position in one book. */
  lemma CloseIsCloseSet(s: State, id: nat, status: Status)
    requires Placed(s) && id in s.orders
    ensures Close(s, id, status) == CloseSet(s, {id}, status)
  {
    var row := s.orders[id];
    forall key, side | key in s.books && (key != row.asset.Key() || side != row.side)
      ensures Keep(s.books[key].On(side), {id}) == s.books[key].On(side)
    {
      assert PlacedSide(s, key, side);
      forall i | 0 <= i < |s.Resting(key, side)| ensures s.Resting(key, side)[i].id != id {
        assert PlacedAt(s, key, side, s.Resting(key, side)[i]);
      }
      KeepAll(s.books[key].On(side), {id});
    }
    assert Close(s, id, status).orders == CloseSet(s, {id}, status).orders;
    forall key | key in s.books
      ensures Close(s, id, status).books[key] == CloseSet(s, {id}, status).books[key]
    {
      var kept := CloseSet(s, {id}, status).books[key];
      assert kept.bids == Keep(s.books[key].On(Buy), {id}) && kept.asks == Keep(s.books[key].On(Sell), {id});
    }
    assert Close(s, id, status).books == CloseSet(s, {id}, status).books;
  }

  lemma {:induction false} KeepAll(rows: seq<Row>, gone: set<nat>)
    requires forall i :: 0 <= i < |rows| ==> rows[i].id !in gone
    ensures Keep(rows, gone) == rows
  {
    if rows != [] {
      KeepAll(rows[1..], gone);
    }
  }

  lemma InvIsPlaced(s: State)
    requires Inv(s)
    ensures Placed(s)
  {
    forall key, side ensures PlacedSide(s, key, side) {
      assert SideOk(s, key, side);
      SideIsDistinct(s, key, side);
      forall i | 0 <= i < |s.Resting(key, side)| ensures PlacedAt(s, key, side, s.Resting(key, side)[i]) {
        assert Stored(s, key, side, s.Resting(key, side)[i]);
      }
    }
  }

  // ---------------------------------------------------------------- time priority

  lemma CloseSetKeepsArrival(s: State, gone: set<nat>, status: Status)
    requires Arrived(s)
    ensures Arrived(CloseSet(s, gone, status))
  {
    forall key, side ensures ArrivalOrder(CloseSet(s, gone, status).Resting(key, side)) {
      RestingAfterClose(s, gone, status, key, side);
      KeepArrival(s.Resting(key, side), gone);
    }
  }

  /** Placing an order keeps equal prices in order of arrival. */
  lemma PlaceKeepsArrival(s: State, draft: Draft)
    requires Inv(s) && Arrived(s) && 0 < draft.quantity
    ensures Arrived(Place(s, draft))
  {
    MatchedIsOk(s, draft);
    forall key, side ensures ArrivalOrder(Place(s, draft).Resting(key, side)) {
      PlacedResting(s, draft, key, side);
      assert ArrivalOrder(s.Resting(key, side));
      if key == draft.asset.Key() {
        if side == draft.side {
          OwnSideArrives(s, draft);
        } else {
          ConsumedSideArrives(s, draft);
        }
      }
    }
  }

  lemma OwnSideArrives(s: State, draft: Draft)
    requires Inv(s) && Arrived(s) && MatchedOk(s, draft)
    ensures ArrivalOrder(Place(s, draft).Resting(draft.asset.Key(), draft.side))
  {
    var key, side, taker := draft.asset.Key(), draft.side, Matched(s, draft).taker;
    var own := s.Resting(key, side);
    assert SideOk(s, key, side) && ArrivalOrder(own);
    PlacedResting(s, draft, key, side);
    MatchKeepsTerms(NewOrder(s.nextId, draft), Makers(s, draft), draft.quantity);
    if taker.IsOpen() {
      StableSort.PushThenSort(ByRank(side), own, taker);
      forall i | 0 <= i < |own| ensures own[i].id < taker.id {
        assert Stored(s, key, side, own[i]);
      }
      InsertKeepsArrival(side, own, taker);
    }
  }

  lemma ConsumedSideArrives(s: State, draft: Draft)
    requires Inv(s) && Arrived(s) && MatchedOk(s, draft)
    ensures ArrivalOrder(Matched(s, draft).book)
  {
    var left, makers := Matched(s, draft).book, Makers(s, draft);
    assert ArrivalOrder(makers);
    forall i, j | 0 <= i < j < |left| && left[i].price == left[j].price ensures left[i].id < left[j].id {
      var k := ConsumedSide(s, draft, i);
      var l := ConsumedSide(s, draft, j);
    }
  }

  // ---------------------------------------------------------------- an order that finds nobody

  /** A limit order on a book whose other side is empty rests behind what is there. */
  lemma RestsUnmatched(s: State, draft: Draft, row: Row)
    requires row == NewOrder(s.nextId, draft) && Makers(s, draft) == []
    ensures var s', key := Place(s, draft), draft.asset.Key();
            && s'.orders == s.orders[s.nextId := row] && s'.trades == s.trades && s'.nextId == s.nextId + 1
            && s'.Resting(key, Opposite(draft.side)) == []
            && s'.Resting(key, draft.side) ==
               StableSort.Sort(ByRank(draft.side), s.Resting(key, draft.side) + [row])
  {
    hide Match, StableSort.Sort, SaveAll;
    NothingToMatch(row);
    NothingToSave(s.orders[s.nextId := row]);
    assert s.trades + [] == s.trades;
  }

  lemma NothingToMatch(row: Row)
    ensures Match(row, [], ToFill(row)) == Outcome(row, [], [], [])
  {
  }

  lemma NothingToSave(orders: map<nat, Row>)
    ensures SaveAll(orders, []) == orders
  {
  }
}
