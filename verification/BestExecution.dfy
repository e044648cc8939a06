/**
 The matching loop against every other way of filling the same order: no choice of makers
 within the taker's limit fills more of it, and none that fills as much does so at a better
 total price.
 */
module BestExecution {
  import opened OrderBook

  /** How much is taken from each resting order, by book position. */
  ghost predicate Feasible(taker: Row, book: seq<Row>, fills: seq<int>) {
    && |fills| == |book|
    && forall i :: 0 <= i < |fills| ==>
                     0 <= fills[i] <= book[i].Remaining() && (fills[i] > 0 ==> Crosses(taker, book[i]))
  }

  ghost function Sum(fills: seq<int>): int {
    if fills == [] then 0 else fills[0] + Sum(fills[1..])
  }

  /** Price paid by a buyer, or the negated proceeds of a seller. */
  ghost function Cost(side: Side, book: seq<Row>, fills: seq<int>): int
    requires |fills| == |book|
  {
    if book == [] then 0
    else fills[0] * Rank(side, book[0].price) + Cost(side, book[1..], fills[1..])
  }

  /** The same for recorded trades. */
  ghost function Spent(side: Side, trades: seq<Trade>): int {
    if trades == [] then 0
    else trades[0].quantity * Rank(side, trades[0].price) + Spent(side, trades[1..])
  }

  ghost function TotalRemaining(book: seq<Row>): int {
    if book == [] then 0 else book[0].Remaining() + TotalRemaining(book[1..])
  }

  /** Cost of taking `q` from the front. */
  ghost function FrontCost(side: Side, book: seq<Row>, q: int): int {
    if book == [] || q <= 0 then 0
    else
      var x := Min(q, book[0].Remaining());
      x * Rank(side, book[0].price) + FrontCost(side, book[1..], q - x)
  }

  lemma {:induction false} SpentIsFrontCost(taker: Row, book: seq<Row>, remaining: int)
    requires AllLive(book) && 0 <= remaining
    ensures var trades := Match(taker, book, remaining).trades;
            && Traded(trades) <= TotalRemaining(book)
            && Spent(Opposite(taker.side), trades) == FrontCost(Opposite(taker.side), book, Traded(trades))
    decreases |book|
  {
    hide Match, FrontCost, Crosses;
    TotalNonNegative(book);
    NoTrades(taker, book, remaining);
    if 0 < remaining && book != [] && Crosses(taker, book[0]) {
      var q := Min(remaining, book[0].Remaining());
      TotalNonNegative(book[1..]);
      FirstTrade(taker, book, remaining);
      if q == book[0].Remaining() {
        var rest := Match(FillTaker(taker, q), book[1..], remaining - q);
        SpentIsFrontCost(FillTaker(taker, q), book[1..], remaining - q);
        MatchFillsPrefix(FillTaker(taker, q), book[1..], remaining - q);
        TradedNonNegative(rest.trades);
        PrependSpent(Opposite(taker.side), book, MakeTrade(taker, book[0], q), rest.trades);
      } else {
        NothingSpent(Opposite(taker.side), book);
        PrependSpent(Opposite(taker.side), book, MakeTrade(taker, book[0], q), []);
        assert [MakeTrade(taker, book[0], q)] + [] == [MakeTrade(taker, book[0], q)];
      }
    }
  }

  lemma NothingSpent(side: Side, book: seq<Row>)
    ensures Spent(side, []) == 0 && Traded([]) == 0 && (book != [] ==> FrontCost(side, book[1..], 0) == 0)
    ensures FrontCost(side, book, 0) == 0
  {
  }

  lemma NoTrades(taker: Row, book: seq<Row>, remaining: int)
    ensures remaining <= 0 || book == [] || !Crosses(taker, book[0]) ==> Match(taker, book, remaining).trades == []
    ensures Spent(Opposite(taker.side), []) == FrontCost(Opposite(taker.side), book, Traded([])) == 0
  {
  }

  /** The trades of a loop whose first maker crosses. */
  lemma FirstTrade(taker: Row, book: seq<Row>, remaining: int)
    requires 0 < remaining && book != [] && Crosses(taker, book[0]) && book[0].IsLive()
    ensures var q := Min(remaining, book[0].Remaining());
            Match(taker, book, remaining).trades ==
            [MakeTrade(taker, book[0], q)]
            + if q == book[0].Remaining() then Match(FillTaker(taker, q), book[1..], remaining - q).trades else []
  {
  }

  lemma PrependSpent(side: Side, book: seq<Row>, trade: Trade, rest: seq<Trade>)
    requires book != [] && trade.price == book[0].price && 0 < trade.quantity <= book[0].Remaining()
    requires 0 <= Traded(rest)
    requires Spent(side, rest) == FrontCost(side, book[1..], Traded(rest))
    requires rest != [] ==> trade.quantity == book[0].Remaining()
    ensures var trades := [trade] + rest;
            && Traded(trades) == trade.quantity + Traded(rest)
            && Spent(side, trades) == FrontCost(side, book, Traded(trades))
  {
    var trades := [trade] + rest;
    assert trades[1..] == rest;
    assert Min(Traded(trades), book[0].Remaining()) == trade.quantity;
  }

  lemma {:induction false} TotalNonNegative(book: seq<Row>)
    requires AllLive(book)
    ensures 0 <= TotalRemaining(book)
  {
    if book != [] {
      TotalNonNegative(book[1..]);
    }
  }

  /** Each unit taken later costs at least the least rank present. */
  lemma {:induction false} FrontCostGrows(side: Side, book: seq<Row>, q: int, d: int, p: int)
    requires AllLive(book) && 0 <= q && 0 <= d && q + d <= TotalRemaining(book)
    requires forall i :: 0 <= i < |book| ==> p <= Rank(side, book[i].price)
    ensures FrontCost(side, book, q) + d * p <= FrontCost(side, book, q + d)
  {
    if book != [] && 0 < q + d {
      var r, x, y := Rank(side, book[0].price), Min(q, book[0].Remaining()), Min(q + d, book[0].Remaining());
      var d' := d - (y - x);
      TotalNonNegative(book[1..]);
      FrontCostGrows(side, book[1..], q - x, d', p);
      assert FrontCost(side, book, q) == x * r + FrontCost(side, book[1..], q - x);
      assert (y - x) * p <= (y - x) * r by { MulMono(y - x, p, r); }
      Distribute(y, x, r);
      Distribute(d, y - x, p);
    }
  }

  lemma MulMono(d: int, p: int, r: int)
    requires 0 <= d && p <= r
    ensures d * p <= d * r
  {
  }

  lemma Distribute(a: int, b: int, c: int)
    ensures (a - b) * c == a * c - b * c
  {
  }

  lemma {:induction false} FrontIsCheapest(side: Side, book: seq<Row>, fills: seq<int>)
    requires AllLive(book) && InPriceOrder(side, book) && |fills| == |book|
    requires forall i :: 0 <= i < |fills| ==> 0 <= fills[i] <= book[i].Remaining()
    ensures 0 <= Sum(fills) <= TotalRemaining(book)
    ensures FrontCost(side, book, Sum(fills)) <= Cost(side, book, fills)
  {
    if book != [] {
      var total, r, x := Sum(fills), Rank(side, book[0].price), Min(Sum(fills), book[0].Remaining());
      TailInPriceOrder(side, book);
      FrontIsCheapest(side, book[1..], fills[1..]);
      forall i | 0 <= i < |book[1..]| ensures r <= Rank(side, book[1..][i].price) {
        BestLeads(side, book, i + 1);
      }
      FrontCostGrows(side, book[1..], total - x, x - fills[0], r);
      Distribute(x, fills[0], r);
    }
  }

  lemma {:induction false} FeasibleWithinAccepted(taker: Row, book: seq<Row>, fills: seq<int>)
    requires AllLive(book) && Feasible(taker, book, fills)
    ensures Sum(fills) <= Accepted(taker, book)
  {
    if book != [] {
      FeasibleWithinAccepted(taker, book[1..], fills[1..]);
    }
  }

  /** The loop is optimal among all feasible fills, first in quantity and then in price. */
  lemma MatchIsOptimal(taker: Row, book: seq<Row>, remaining: int, fills: seq<int>)
    requires AllLive(book) && InPriceOrder(Opposite(taker.side), book) && 0 <= remaining
    requires Feasible(taker, book, fills) && Sum(fills) <= remaining
    ensures var trades := Match(taker, book, remaining).trades;
            && Sum(fills) <= Traded(trades)
            && (Sum(fills) == Traded(trades) ==>
                  Spent(Opposite(taker.side), trades) <= Cost(Opposite(taker.side), book, fills))
  {
    MatchTradesTheMinimum(taker, book, remaining);
    FeasibleWithinAccepted(taker, book, fills);
    SpentIsFrontCost(taker, book, remaining);
    FrontIsCheapest(Opposite(taker.side), book, fills);
  }
}
