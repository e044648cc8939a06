/**
 Orders, trades and the matching loop of the trading engine.

 Quantities and prices are integers in units of 1e-7, the scale of the `numeric(30,7)`
 columns. Order ids are numbered in order of creation. A price of 0 is an absent price:
 the code tests `!price`.
 */
module OrderBook {
  import StableSort

  datatype Side = Buy | Sell
  datatype Kind = Market | Limit
  datatype Status = Pending | Open | PartiallyFilled | Filled | Cancelled | Expired | Rejected

  datatype Asset = Asset(code: string, issuer: string) {
    function Key(): string {
      if issuer != "" then code + "-" + issuer else code
    }
  }

  datatype ExpiryDate = Never | At(time: int)

  datatype Row = Row(
    id: nat, user: nat, asset: Asset, side: Side, kind: Kind,
    quantity: int, price: int, filled: int, status: Status, expiresAt: ExpiryDate)
  {
    predicate IsOpen() {
      status == Open || status == PartiallyFilled
    }

    /** What a resting order must look like for the book to be meaningful. */
    ghost predicate IsLive() {
      IsOpen() && kind == Limit && price != 0 && 0 <= filled < quantity
    }

    function Remaining(): int {
      quantity - filled
    }
  }

  datatype Trade = Trade(
    makerOrder: nat, takerOrder: nat, makerUser: nat, takerUser: nat,
    asset: Asset, quantity: int, price: int)

  function Opposite(side: Side): Side {
    if side == Buy then Sell else Buy
  }

  /** Orders of a side stand in the book in ascending rank: bids by falling price, asks by rising. */
  function Rank(side: Side, price: int): int {
    if side == Buy then -price else price
  }

  function ByRank(side: Side): Row -> int {
    (r: Row) => Rank(side, r.price)
  }

  /** The better price stands first. */
  ghost predicate InPriceOrder(side: Side, s: seq<Row>) {
    StableSort.Sorted(ByRank(side), s)
  }

  /** Equal prices stand in order of arrival. */
  ghost predicate ArrivalOrder(s: seq<Row>) {
    forall i, j :: 0 <= i < j < |s| && s[i].price == s[j].price ==> s[i].id < s[j].id
  }

  ghost predicate DistinctIds(s: seq<Row>) {
    forall i, j :: 0 <= i < j < |s| ==> s[i].id != s[j].id
  }

  ghost predicate AllLive(s: seq<Row>) {
    forall i :: 0 <= i < |s| ==> s[i].IsLive()
  }

  predicate Crosses(taker: Row, best: Row) {
    taker.kind == Market
    || (taker.price != 0 && best.price != 0
        && (taker.side == Buy ==> taker.price >= best.price)
        && (taker.side == Sell ==> taker.price <= best.price))
  }

  function Min(a: int, b: int): int {
    if a <= b then a else b
  }

  function FillTaker(taker: Row, q: int): Row {
    var filled := taker.filled + q;
    taker.(filled := filled,
    status := if filled >= taker.quantity then Filled
    else if filled > 0 then PartiallyFilled
    else taker.status)
  }

  /** A maker that is not filled completely keeps its status. */
  function FillMaker(maker: Row, q: int): Row {
    var filled := maker.filled + q;
    maker.(filled := filled, status := if filled >= maker.quantity then Filled else maker.status)
  }

  /** The sell order is always recorded as the maker, the buy order as the taker. */
  function MakeTrade(taker: Row, best: Row, q: int): Trade {
    var (seller, buyer) := if taker.side == Buy then (best, taker) else (taker, best);
    Trade(seller.id, buyer.id, seller.user, buyer.user, taker.asset, q, best.price)
  }

  /** What the loop leaves: the taker, the opposite side, the makers it filled and the trades. */
  datatype Outcome = Outcome(taker: Row, book: seq<Row>, touched: seq<Row>, trades: seq<Trade>)

  /** The matching loop from one iteration on; `remaining` is its local variable. */
  function Match(taker: Row, book: seq<Row>, remaining: int): Outcome
    decreases |book|
  {
    if remaining <= 0 || book == [] || !Crosses(taker, book[0]) then
      Outcome(taker, book, [], [])
    else
      var q := Min(remaining, book[0].Remaining());
      var taker', maker, trade := FillTaker(taker, q), FillMaker(book[0], q), MakeTrade(taker, book[0], q);
      if maker.filled >= maker.quantity then
        var rest := Match(taker', book[1..], remaining - q);
        Outcome(rest.taker, rest.book, [maker] + rest.touched, [trade] + rest.trades)
      else
        Outcome(taker', [maker] + book[1..], [maker], [trade])
  }

  /** The quantity the loop starts from. */
  function ToFill(order: Row): int {
    if order.filled > 0 then order.quantity - order.filled else order.quantity
  }

  function Traded(trades: seq<Trade>): int {
    if trades == [] then 0 else trades[0].quantity + Traded(trades[1..])
  }

  /** Remaining quantity of all resting orders the taker's limit accepts, wherever they stand. */
  function Accepted(taker: Row, book: seq<Row>): int {
    if book == [] then 0
    else (if Crosses(taker, book[0]) then book[0].Remaining() else 0) + Accepted(taker, book[1..])
  }

  lemma {:induction false} AcceptedNonNegative(taker: Row, book: seq<Row>)
    requires AllLive(book)
    ensures 0 <= Accepted(taker, book)
  {
    if book != [] {
      AcceptedNonNegative(taker, book[1..]);
    }
  }

  lemma {:induction false} NothingAccepted(taker: Row, book: seq<Row>)
    requires forall i :: 0 <= i < |book| ==> !Crosses(taker, book[i])
    ensures Accepted(taker, book) == 0
  {
    if book != [] {
      NothingAccepted(taker, book[1..]);
    }
  }

  lemma BestLeads(side: Side, book: seq<Row>, i: nat)
    requires InPriceOrder(side, book) && i < |book|
    ensures Rank(side, book[0].price) <= Rank(side, book[i].price)
  {
    if i > 0 {
      assert ByRank(side)(book[0]) <= ByRank(side)(book[i]);
    }
  }

  lemma TailInPriceOrder(side: Side, book: seq<Row>)
    requires InPriceOrder(side, book) && book != []
    ensures InPriceOrder(side, book[1..])
  {
    forall i, j | 0 <= i < j < |book[1..]| ensures ByRank(side)(book[1..][i]) <= ByRank(side)(book[1..][j]) {
      assert ByRank(side)(book[i + 1]) <= ByRank(side)(book[j + 1]);
    }
  }

  /** Once a resting order is too dear for the taker, so are all that stand behind it. */
  lemma WorseDoesNotCross(taker: Row, book: seq<Row>)
    requires AllLive(book) && InPriceOrder(Opposite(taker.side), book)
    requires book != [] && !Crosses(taker, book[0])
    ensures forall i :: 0 <= i < |book| ==> !Crosses(taker, book[i])
  {
    forall i | 0 <= i < |book| ensures !Crosses(taker, book[i]) {
      BestLeads(Opposite(taker.side), book, i);
    }
  }

  /** A match trades all that was asked for, or all that the taker's limit accepts. */
  lemma {:induction false} MatchTradesTheMinimum(taker: Row, book: seq<Row>, remaining: int)
    requires AllLive(book) && InPriceOrder(Opposite(taker.side), book)
    requires 0 <= remaining
    ensures Traded(Match(taker, book, remaining).trades) == Min(remaining, Accepted(taker, book))
    decreases |book|
  {
    AcceptedNonNegative(taker, book);
    if remaining == 0 || book == [] {
    } else if !Crosses(taker, book[0]) {
      WorseDoesNotCross(taker, book);
      NothingAccepted(taker, book);
    } else {
      AcceptedNonNegative(taker, book[1..]);
      var q := Min(remaining, book[0].Remaining());
      if q == book[0].Remaining() {
        TailInPriceOrder(Opposite(taker.side), book);
        MatchTradesTheMinimum(FillTaker(taker, q), book[1..], remaining - q);
        AcceptedIgnoresFill(taker, q, book[1..]);
        var rest := Match(FillTaker(taker, q), book[1..], remaining - q);
        assert ([MakeTrade(taker, book[0], q)] + rest.trades)[1..] == rest.trades;
      }
    }
  }

  lemma {:induction false} AcceptedIgnoresFill(taker: Row, q: int, book: seq<Row>)
    ensures Accepted(FillTaker(taker, q), book) == Accepted(taker, book)
  {
    if book != [] {
      AcceptedIgnoresFill(taker, q, book[1..]);
    }
  }

  /** The makers filled are a prefix of the book, each with the trade that filled it. */
  ghost predicate FillsPrefix(taker: Row, book: seq<Row>, remaining: int, out: Outcome) {
    var n := |out.trades|;
    && n == |out.touched| <= |book|
    && Traded(out.trades) <= remaining
    && (forall i :: 0 <= i < n ==>
                      && 0 < out.trades[i].quantity <= book[i].Remaining()
                      && Crosses(taker, book[i])
                      && out.trades[i] == MakeTrade(taker, book[i], out.trades[i].quantity)
                      && out.touched[i] == FillMaker(book[i], out.trades[i].quantity))
    && (forall i :: 0 <= i < n - 1 ==> out.trades[i].quantity == book[i].Remaining())
    && (if n > 0 && out.trades[n - 1].quantity < book[n - 1].Remaining() then
          out.book == [out.touched[n - 1]] + book[n..] && Traded(out.trades) == remaining
        else
          out.book == book[n..])
  }

  /** The taker carries what was traded; the loop stops only for want of need, orders or price. */
  ghost predicate FillsTaker(taker: Row, remaining: int, out: Outcome) {
    && out.taker == (if out.trades == [] then taker else FillTaker(taker, Traded(out.trades)))
    && (Traded(out.trades) == remaining || out.book == [] || !Crosses(taker, out.book[0]))
  }

  lemma {:induction false} MatchFillsPrefix(taker: Row, book: seq<Row>, remaining: int)
    requires AllLive(book)
    requires 0 <= remaining
    ensures FillsPrefix(taker, book, remaining, Match(taker, book, remaining))
    decreases |book|
  {
    if 0 < remaining && book != [] && Crosses(taker, book[0]) {
      var q := Min(remaining, book[0].Remaining());
      if q == book[0].Remaining() {
        hide Match, FillsPrefix, Crosses, FillTaker, FillMaker, MakeTrade, Traded, Prepend;
        var taker' := FillTaker(taker, q);
        MatchFillsPrefix(taker', book[1..], remaining - q);
        MatchTakesFirst(taker, book, remaining, q);
        PrependFill(taker, q, book, remaining, Match(taker', book[1..], remaining - q));
      } else {
        LastFill(taker, book, remaining);
      }
    } else {
      assert Match(taker, book, remaining) == Outcome(taker, book, [], []);
    }
  }

  /** The first maker is filled completely. */
  lemma MatchTakesFirst(taker: Row, book: seq<Row>, remaining: int, q: int)
    requires book != [] && Crosses(taker, book[0]) && 0 < q == book[0].Remaining() <= remaining
    ensures Match(taker, book, remaining) ==
            Prepend(taker, q, book, Match(FillTaker(taker, q), book[1..], remaining - q))
  {
  }

  /** A taker that the first maker can satisfy and more. */
  lemma LastFill(taker: Row, book: seq<Row>, remaining: int)
    requires AllLive(book) && book != []
    requires 0 < remaining < book[0].Remaining() && Crosses(taker, book[0])
    ensures var out := Match(taker, book, remaining);
            && FillsPrefix(taker, book, remaining, out)
            && Traded(out.trades) == remaining
            && out.taker == FillTaker(taker, remaining)
            && out.trades != []
  {
    var trades := [MakeTrade(taker, book[0], remaining)];
    assert Traded(trades) == remaining by {
      assert trades[1..] == [];
    }
    var maker := FillMaker(book[0], remaining);
    assert Match(taker, book, remaining) ==
           Outcome(FillTaker(taker, remaining), [maker] + book[1..], [maker], trades);
  }

  /** The outcome with one more maker in front. */
  ghost function Prepend(taker: Row, q: int, book: seq<Row>, rest: Outcome): Outcome
    requires book != []
  {
    Outcome(rest.taker, rest.book, [FillMaker(book[0], q)] + rest.touched,
            [MakeTrade(taker, book[0], q)] + rest.trades)
  }

  /** A taker trades at the same terms whatever it has filled. */
  lemma FillKeepsTerms(taker: Row, q: int, best: Row, x: int)
    ensures Crosses(FillTaker(taker, q), best) <==> Crosses(taker, best)
    ensures MakeTrade(FillTaker(taker, q), best, x) == MakeTrade(taker, best, x)
    ensures MakeTrade(taker, best, x).quantity == x
  {
  }

  /** One more maker, filled completely, in front of a prefix that was filled. */
  lemma PrependFill(taker: Row, q: int, book: seq<Row>, remaining: int, rest: Outcome)
    requires book != [] && book[0].IsLive() && Crosses(taker, book[0])
    requires q == book[0].Remaining() <= remaining
    requires FillsPrefix(FillTaker(taker, q), book[1..], remaining - q, rest)
    ensures FillsPrefix(taker, book, remaining, Prepend(taker, q, book, rest))
  {
    hide FillMaker, FillTaker, MakeTrade, Crosses;
    FillKeepsTerms(taker, q, book[0], q);
    var touched, trades := [FillMaker(book[0], q)] + rest.touched, [MakeTrade(taker, book[0], q)] + rest.trades;
    var n := |trades|;
    assert trades[1..] == rest.trades;
    forall i | 0 <= i < n
      ensures && 0 < trades[i].quantity <= book[i].Remaining()
              && Crosses(taker, book[i])
              && trades[i] == MakeTrade(taker, book[i], trades[i].quantity)
              && touched[i] == FillMaker(book[i], trades[i].quantity)
      ensures i < n - 1 ==> trades[i].quantity == book[i].Remaining()
    {
      if i > 0 {
        assert trades[i] == rest.trades[i - 1] && book[i] == book[1..][i - 1];
        FillKeepsTerms(taker, q, book[i], trades[i].quantity);
      }
    }
    assert book[1..][n - 1..] == book[n..];
  }

  lemma TradesArePositive(taker: Row, book: seq<Row>, remaining: int)
    requires AllLive(book) && 0 <= remaining
    ensures forall i :: 0 <= i < |Match(taker, book, remaining).trades| ==>
                          0 < Match(taker, book, remaining).trades[i].quantity
  {
    hide Match, Crosses, FillMaker, MakeTrade, Traded;
    MatchFillsPrefix(taker, book, remaining);
  }

  lemma {:induction false} MatchFillsTaker(taker: Row, book: seq<Row>, remaining: int)
    requires AllLive(book)
    requires 0 <= remaining && 0 <= taker.filled
    ensures FillsTaker(taker, remaining, Match(taker, book, remaining))
    decreases |book|
  {
    if 0 < remaining && book != [] && Crosses(taker, book[0]) {
      var q := Min(remaining, book[0].Remaining());
      if q == book[0].Remaining() {
        hide Match, FillsTaker, Crosses, FillTaker, FillMaker, MakeTrade, Traded, Prepend;
        FilledGrows(taker, q);
        var taker' := FillTaker(taker, q);
        MatchFillsTaker(taker', book[1..], remaining - q);
        TradesArePositive(taker', book[1..], remaining - q);
        MatchTakesFirst(taker, book, remaining, q);
        PrependToTaker(taker, q, book, remaining, Match(taker', book[1..], remaining - q));
      } else {
        LastFill(taker, book, remaining);
      }
    } else {
      assert Match(taker, book, remaining) == Outcome(taker, book, [], []);
    }
  }

  lemma FilledGrows(taker: Row, q: int)
    ensures FillTaker(taker, q).filled == taker.filled + q
  {
  }

  lemma PrependToTaker(taker: Row, q: int, book: seq<Row>, remaining: int, rest: Outcome)
    requires 0 < q && 0 <= taker.filled && book != []
    requires FillsTaker(FillTaker(taker, q), remaining - q, rest)
    requires forall i :: 0 <= i < |rest.trades| ==> 0 < rest.trades[i].quantity
    ensures FillsTaker(taker, remaining, Prepend(taker, q, book, rest))
  {
    var trades := [MakeTrade(taker, book[0], q)] + rest.trades;
    assert trades[1..] == rest.trades;
    TradedNonNegative(rest.trades);
  }

  lemma {:induction false} TradedNonNegative(trades: seq<Trade>)
    requires forall i :: 0 <= i < |trades| ==> 0 <= trades[i].quantity
    ensures 0 <= Traded(trades)
  {
    if trades != [] {
      TradedNonNegative(trades[1..]);
    }
  }

  // ---------------------------------------------------------------- what a match records

  /** The trade names both orders and their users, sell before buy, at the price of the resting order. */
  ghost predicate Records(t: Trade, taker: Row, resting: Row) {
    && (taker.side == Buy ==>
          t.makerOrder == resting.id && t.makerUser == resting.user
          && t.takerOrder == taker.id && t.takerUser == taker.user)
    && (taker.side == Sell ==>
          t.makerOrder == taker.id && t.makerUser == taker.user
          && t.takerOrder == resting.id && t.takerUser == resting.user)
    && t.price == resting.price && t.asset == taker.asset
  }

  /** `after` is `before` with `q` more filled: filled orders say so, others have this status. */
  ghost predicate FilledMore(before: Row, after: Row, q: int, otherwise: Status) {
    && after.filled == before.filled + q
    && after.status == (if after.filled < before.quantity then otherwise else Filled)
    && after == before.(filled := after.filled, status := after.status)
  }

  /** Does this price satisfy the order? A market order takes any price; no price satisfies nobody else. */
  ghost predicate Satisfies(price: int, taker: Row) {
    taker.kind == Market
    || (price != 0 && taker.price != 0 && if taker.side == Buy then price <= taker.price else taker.price <= price)
  }

  /**
   A match fills the orders at the front of the book, all but the last one completely, and records
   each fill. Makers in part filled keep their status; a taker that traded in part is partially filled.
   The taker gets what it needs unless the book ends or the next price does not satisfy it.
   */
  lemma MatchRecords(taker: Row, book: seq<Row>, remaining: int)
    requires AllLive(book) && 0 <= remaining && 0 <= taker.filled
    ensures var out := Match(taker, book, remaining);
            && |out.trades| == |out.touched| <= |book|
            && (forall i :: 0 <= i < |out.trades| ==>
                              && Records(out.trades[i], taker, book[i]) && Satisfies(book[i].price, taker)
                              && 0 < out.trades[i].quantity <= book[i].quantity - book[i].filled
                              && FilledMore(book[i], out.touched[i], out.trades[i].quantity, book[i].status))
            && (forall i :: 0 <= i < |out.trades| - 1 ==> out.touched[i].status == Filled)
            && (if out.trades == [] then out.taker == taker
                else FilledMore(taker, out.taker, Traded(out.trades), PartiallyFilled))
            && Traded(out.trades) <= remaining
            && (Traded(out.trades) < remaining ==> out.book == [] || !Satisfies(out.book[0].price, taker))
  {
    hide Match, Traded, Crosses, MakeTrade, FillMaker, FillTaker, Satisfies, Records, FilledMore;
    var out := Match(taker, book, remaining);
    MatchFillsPrefix(taker, book, remaining);
    MatchFillsTaker(taker, book, remaining);
    forall i | 0 <= i < |out.trades|
      ensures Records(out.trades[i], taker, book[i]) && Satisfies(book[i].price, taker)
      ensures FilledMore(book[i], out.touched[i], out.trades[i].quantity, book[i].status)
      ensures i < |out.trades| - 1 ==> out.touched[i].status == Filled
    {
      OneFill(taker, book[i], out.trades[i].quantity);
    }
    if out.trades != [] {
      TradedIsPositive(out.trades);
      TakerFillsMore(taker, Traded(out.trades));
    }
    if out.book != [] {
      SatisfiesIff(taker, out.book[0]);
    }
  }

  lemma SatisfiesIff(taker: Row, best: Row)
    ensures Crosses(taker, best) <==> Satisfies(best.price, taker)
  {
  }

  lemma OneFill(taker: Row, best: Row, q: int)
    ensures Records(MakeTrade(taker, best, q), taker, best)
    ensures Crosses(taker, best) <==> Satisfies(best.price, taker)
    ensures FilledMore(best, FillMaker(best, q), q, best.status)
    ensures q == best.Remaining() ==> FillMaker(best, q).status == Filled
  {
  }

  lemma TakerFillsMore(taker: Row, q: int)
    requires 0 <= taker.filled && 0 < q
    ensures FilledMore(taker, FillTaker(taker, q), q, PartiallyFilled)
  {
  }

  lemma TradedIsPositive(trades: seq<Trade>)
    requires trades != [] && forall i :: 0 <= i < |trades| ==> 0 < trades[i].quantity
    ensures 0 < Traded(trades)
  {
    TradedNonNegative(trades[1..]);
  }
}
