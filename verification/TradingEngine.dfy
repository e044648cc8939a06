/**
 The trading engine service with its state: order objects shared between the match loop and
 the books, the books in memory, and the tables. Each operation does what the state machine
 of `Trading` does, on every input.
 */
module TradingEngine {
  import opened Options
  import opened OrderBook
  import opened Trading
  import opened BookInvariant
  import opened Placement
  import opened Restart
  import StableSort

  /** An order entity. The matcher changes its fill and status in place. */
  class Order {
    const id: nat
    const user: nat
    const asset: Asset
    const side: Side
    const kind: Kind
    const quantity: int
    const price: int
    const expiresAt: ExpiryDate
    var filled: int
    var status: Status

    constructor (r: Row)
      ensures View() == r
    {
      id, user, asset, side, kind := r.id, r.user, r.asset, r.side, r.kind;
      quantity, price, expiresAt := r.quantity, r.price, r.expiresAt;
      filled, status := r.filled, r.status;
    }

    function View(): Row
      reads this
    {
      Row(id, user, asset, side, kind, quantity, price, filled, status, expiresAt)
    }
  }

  datatype LiveBook = LiveBook(bids: seq<Order>, asks: seq<Order>) {
    function On(side: Side): seq<Order> {
      if side == Buy then bids else asks
    }

    function With(side: Side, s: seq<Order>): LiveBook {
      if side == Buy then LiveBook(s, asks) else LiveBook(bids, s)
    }
  }

  function Views(s: seq<Order>): seq<Row>
    reads s
  {
    seq(|s|, i requires 0 <= i < |s| reads s => s[i].View())
  }

  ghost predicate Distinct(s: seq<Order>) {
    forall i, j :: 0 <= i < j < |s| ==> s[i] != s[j]
  }

  lemma ViewsConcat(a: seq<Order>, b: seq<Order>)
    ensures Views(a + b) == Views(a) + Views(b)
  {
  }

  function ByLiveRank(side: Side): Order -> int {
    (o: Order) => Rank(side, o.price)
  }

  lemma {:induction false} PlaceOfViews(side: Side, s: seq<Order>, x: Order)
    ensures StableSort.Place(ByLiveRank(side), s, x) == StableSort.Place(ByRank(side), Views(s), x.View())
  {
    if s != [] {
      assert Views(s)[1..] == Views(s[1..]);
      PlaceOfViews(side, s[1..], x);
    }
  }

  lemma InsertOfViews(side: Side, s: seq<Order>, x: Order)
    ensures Views(StableSort.Insert(ByLiveRank(side), s, x)) == StableSort.Insert(ByRank(side), Views(s), x.View())
  {
    PlaceOfViews(side, s, x);
    var p := StableSort.Place(ByLiveRank(side), s, x);
    ViewsConcat(s[..p] + [x], s[p..]);
    ViewsConcat(s[..p], [x]);
    assert Views([x]) == [x.View()];
    assert Views(s)[..p] == Views(s[..p]) && Views(s)[p..] == Views(s[p..]);
  }

  /** Sorting the entities sorts their rows. */
  lemma {:induction false} SortOfViews(side: Side, s: seq<Order>)
    ensures Views(StableSort.Sort(ByLiveRank(side), s)) == StableSort.Sort(ByRank(side), Views(s))
  {
    if s != [] {
      var n := |s| - 1;
      SortOfViews(side, s[..n]);
      assert Views(s)[..n] == Views(s[..n]);
      InsertOfViews(side, StableSort.Sort(ByLiveRank(side), s[..n]), s[n]);
    }
  }

  lemma SortMembers(side: Side, s: seq<Order>)
    ensures var sorted := StableSort.Sort(ByLiveRank(side), s);
            forall i :: 0 <= i < |sorted| ==> sorted[i] in s
  {
    var sorted := StableSort.Sort(ByLiveRank(side), s);
    StableSort.SortKeepsMultiset(ByLiveRank(side), s);
    forall i | 0 <= i < |sorted| ensures sorted[i] in s {
      assert sorted[i] in multiset(sorted);
    }
  }

  /** `Array.prototype.sort` on one side of a book. */
  method SortSide(side: Side, s: seq<Order>) returns (sorted: seq<Order>)
    ensures Views(sorted) == StableSort.Sort(ByRank(side), Views(s))
    ensures forall i :: 0 <= i < |sorted| ==> sorted[i] in s
  {
    SortOfViews(side, s);
    SortMembers(side, s);
    sorted := StableSort.Sort(ByLiveRank(side), s);
  }

  /** The outcome of a loop that has already filled and traded, from its current iteration on. */
  ghost function Resume(touched: seq<Row>, trades: seq<Trade>, taker: Row, book: seq<Row>, remaining: int): Outcome {
    var out := Match(taker, book, remaining);
    Outcome(out.taker, out.book, touched + out.touched, trades + out.trades)
  }

  lemma ResumeStart(taker: Row, book: seq<Row>, remaining: int)
    ensures Resume([], [], taker, book, remaining) == Match(taker, book, remaining)
  {
  }

  lemma ResumeEnds(touched: seq<Row>, trades: seq<Trade>, taker: Row, book: seq<Row>, remaining: int)
    requires remaining <= 0 || book == [] || !Crosses(taker, book[0])
    ensures Resume(touched, trades, taker, book, remaining) == Outcome(taker, book, touched, trades)
  {
  }

  lemma ResumeStep(
    touched: seq<Row>, trades: seq<Trade>, taker: Row, book: seq<Row>, remaining: int,
    q: int, maker: Row, book': seq<Row>, outcome: Outcome)
    requires 0 < remaining && book != [] && Crosses(taker, book[0])
    requires q == Min(remaining, book[0].Remaining()) && maker == FillMaker(book[0], q)
    requires book' == if maker.filled >= maker.quantity then book[1..] else [maker] + book[1..]
    requires Resume(touched, trades, taker, book, remaining) == outcome
    ensures maker.filled < maker.quantity ==> remaining == q
    ensures Resume(touched + [maker], trades + [MakeTrade(taker, book[0], q)], FillTaker(taker, q), book',
                   remaining - q)
         == outcome
  {
    var trade := MakeTrade(taker, book[0], q);
    if maker.filled >= maker.quantity {
      var rest := Match(FillTaker(taker, q), book[1..], remaining - q);
      assert touched + [maker] + rest.touched == touched + ([maker] + rest.touched);
      assert trades + [trade] + rest.trades == trades + ([trade] + rest.trades);
    } else {
      assert touched + [maker] + [] == touched + [maker] && trades + [trade] + [] == trades + [trade];
    }
  }

  function Filter(s: seq<Order>, id: nat): seq<Order> {
    if s == [] then [] else (if s[0].id == id then [] else [s[0]]) + Filter(s[1..], id)
  }

  lemma {:induction false} FilterOfViews(s: seq<Order>, id: nat)
    ensures Views(Filter(s, id)) == Keep(Views(s), {id})
    ensures forall i :: 0 <= i < |Filter(s, id)| ==> Filter(s, id)[i] in s
  {
    if s != [] {
      var head := if s[0].id == id then [] else [s[0]];
      FilterOfViews(s[1..], id);
      ViewsConcat(head, Filter(s[1..], id));
      assert Views(s)[1..] == Views(s[1..]) && Views(s)[0].id == s[0].id;
      assert Keep(Views(s), {id}) == Views(head) + Keep(Views(s[1..]), {id});
    }
  }

  /** `rows` shows the entities of `s`, which are among `live`. */
  ghost predicate Shown(s: seq<Order>, rows: seq<Row>, live: set<Order>)
    reads live
  {
    |s| == |rows| && forall i :: 0 <= i < |s| ==> s[i] in live && s[i].View() == rows[i]
  }

  /** `rows` shows what stands on the books. */
  ghost predicate Mirrors(books: map<string, LiveBook>, rows: map<string, Book>, live: set<Order>)
    reads live
  {
    && books.Keys == rows.Keys
    && forall key, side | key in books :: Shown(books[key].On(side), rows[key].On(side), live)
  }

  /** Replacing one side, when all other sides are mirrored. */
  lemma MirrorsAfter(
    books: map<string, LiveBook>, rows: map<string, Book>, live: set<Order>,
    key: string, side: Side, s: seq<Order>, r: seq<Row>)
    requires books.Keys == rows.Keys && Shown(s, r, live)
    requires forall k, sd :: k in books && (k != key || sd != side) ==> Shown(books[k].On(sd), rows[k].On(sd), live)
    ensures var book := if key in books then books[key] else LiveBook([], []);
            var row := if key in rows then rows[key] else Book([], []);
            Mirrors(books[key := book.With(side, s)], rows[key := row.With(side, r)], live)
  {
    var book := if key in books then books[key] else LiveBook([], []);
    var row := if key in rows then rows[key] else Book([], []);
    var books', rows' := books[key := book.With(side, s)], rows[key := row.With(side, r)];
    forall k, sd | k in books' ensures Shown(books'[k].On(sd), rows'[k].On(sd), live) {
      if k == key && sd != side {
        assert books'[k].On(sd) == book.On(sd) && rows'[k].On(sd) == row.On(sd);
      }
    }
  }

  lemma ShownViews(s: seq<Order>, live: set<Order>)
    requires forall i :: 0 <= i < |s| ==> s[i] in live
    ensures Shown(s, Views(s), live)
  {
  }

  lemma MirrorsMore(books: map<string, LiveBook>, rows: map<string, Book>, live: set<Order>, x: Order)
    requires Mirrors(books, rows, live)
    ensures Mirrors(books, rows, live + {x})
  {
    forall key, side | key in books ensures Shown(books[key].On(side), rows[key].On(side), live + {x}) {
      assert Shown(books[key].On(side), rows[key].On(side), live);
    }
  }

  /** Replacing the side of `x` by entities that may include it. */
  lemma PutMirrors(books: map<string, LiveBook>, rows: map<string, Book>, live: set<Order>, x: Order, s: seq<Order>)
    requires Mirrors(books, rows, live)
    requires forall i :: 0 <= i < |s| ==> s[i] in live + {x}
    ensures var book := if x.asset.Key() in books then books[x.asset.Key()] else LiveBook([], []);
            var row := if x.asset.Key() in rows then rows[x.asset.Key()] else Book([], []);
            Mirrors(books[x.asset.Key() := book.With(x.side, s)], rows[x.asset.Key() := row.With(x.side, Views(s))],
                    live + {x})
  {
    ShownViews(s, live + {x});
    MirrorsMore(books, rows, live, x);
    MirrorsAfter(books, rows, live + {x}, x.asset.Key(), x.side, s, Views(s));
  }

  lemma AddIs(rows: map<string, Book>, row: Row, sorted: seq<Row>)
    requires var book := if row.asset.Key() in rows then rows[row.asset.Key()] else Book([], []);
             sorted == StableSort.Sort(ByRank(row.side), book.On(row.side) + [row])
    ensures var book := if row.asset.Key() in rows then rows[row.asset.Key()] else Book([], []);
            AddToBook(rows, row) == rows[row.asset.Key() := book.With(row.side, sorted)]
  {
  }

  /** Taking an order off takes its row off. */
  lemma FilterMirrors(
    books: map<string, LiveBook>, rows: map<string, Book>, live: set<Order>, key: string, side: Side, id: nat)
    requires Mirrors(books, rows, live) && key in books
    ensures Mirrors(books[key := books[key].With(side, Filter(books[key].On(side), id))],
                    rows[key := rows[key].With(side, Keep(rows[key].On(side), {id}))], live)
  {
    var s := books[key].On(side);
    assert Shown(s, rows[key].On(side), live);
    assert Views(s) == rows[key].On(side);
    FilterOfViews(s, id);
    ShownViews(Filter(s, id), live);
    MirrorsAfter(books, rows, live, key, side, Filter(s, id), Views(Filter(s, id)));
  }

  class TradingEngineService {
    var books: map<string, LiveBook>
    var orders: map<nat, Row>
    var trades: seq<Trade>
    var nextId: nat
    /** The state of the machine this service runs. */
    ghost var state: State

    /** The entities on the books. */
    ghost var live: set<Order>

    /** The fields are those of the state. */
    ghost predicate Shows()
      reads this, live
    {
      && Mirrors(books, state.books, live)
      && orders == state.orders && trades == state.trades && nextId == state.nextId
    }

    ghost predicate Valid()
      reads this, live
    {
      Shows() && Placed(state)
    }

    /** An entity stands in one place only. */
    lemma OnePlace(key: string, side: Side, i: nat, key': string, side': Side, j: nat)
      requires Valid() && key in books && key' in books
      requires i < |books[key].On(side)| && j < |books[key'].On(side')|
      requires books[key].On(side)[i] == books[key'].On(side')[j]
      ensures key == key' && side == side' && i == j
    {
      var o := books[key].On(side)[i];
      assert Shown(books[key].On(side), state.Resting(key, side), live);
      assert Shown(books[key'].On(side'), state.Resting(key', side'), live);
      assert state.Resting(key, side)[i] == o.View() && state.Resting(key', side')[j] == o.View();
      assert PlacedSide(state, key, side) && PlacedSide(state, key', side');
      assert PlacedAt(state, key, side, state.Resting(key, side)[i]);
      assert PlacedAt(state, key', side', state.Resting(key', side')[j]);
    }

    lemma MakersAreDistinct(key: string, side: Side)
      requires Valid() && key in books
      ensures Distinct(books[key].On(side))
    {
      forall i, j | 0 <= i < j < |books[key].On(side)| ensures books[key].On(side)[i] != books[key].On(side)[j] {
        if books[key].On(side)[i] == books[key].On(side)[j] {
          OnePlace(key, side, i, key, side, j);
        }
      }
    }

    /** The entities on other sides of the books are none of the makers. */
    lemma OthersAreNotMakers(key: string, side: Side, key': string, side': Side)
      requires Valid() && key in books && key' in books && (key' != key || side' != side)
      ensures forall o :: o in books[key'].On(side') ==> o !in books[key].On(side)
    {
      forall j | 0 <= j < |books[key'].On(side')| ensures books[key'].On(side')[j] !in books[key].On(side) {
        if i :| 0 <= i < |books[key].On(side)| && books[key].On(side)[i] == books[key'].On(side')[j] {
          OnePlace(key, side, i, key', side', j);
        }
      }
    }

    /** The books with an order pushed onto its side and the side sorted. */
    method PushAndSort(order: Order) returns (pushed: map<string, LiveBook>)
      requires Mirrors(books, state.books, live)
      ensures Mirrors(pushed, AddToBook(state.books, order.View()), live + {order})
    {
      var key := order.asset.Key();
      var book := if key in books then books[key] else LiveBook([], []);
      ghost var row := if key in books then state.books[key] else Book([], []);
      var side := book.On(order.side);
      assert Shown(side, row.On(order.side), live);
      assert Views(side + [order]) == row.On(order.side) + [order.View()];
      var sorted := SortSide(order.side, side + [order]);
      forall i | 0 <= i < |sorted| ensures sorted[i] in live + {order} {
        assert sorted[i] in side + [order];
      }
      AddIs(state.books, order.View(), Views(sorted));
      PutMirrors(books, state.books, live, order, sorted);
      pushed := books[key := book.With(order.side, sorted)];
    }

    method AddToOrderBook(order: Order)
      requires Mirrors(books, state.books, live)
      modifies this`books, this`state, this`live
      ensures state == old(state).(books := AddToBook(old(state.books), order.View()))
      ensures Mirrors(books, state.books, live) && live == old(live) + {order}
    {
      hide AddToBook, Placed;
      var pushed := PushAndSort(order);
      ghost var rows, all := AddToBook(state.books, order.View()), live + {order};
      assert forall o: object :: o in all ==> o != this;
      books := pushed;
      state := state.(books := rows);
      live := all;
      assert Mirrors(pushed, rows, all);
    }

    /** One trade of the matching loop: the record, and both fills and statuses. */
    method ExecuteTrade(newOrder: Order, best: Order, quantity: int) returns (trade: Trade)
      requires newOrder != best
      modifies newOrder, best
      ensures trade == MakeTrade(old(newOrder.View()), old(best.View()), quantity)
      ensures newOrder.View() == FillTaker(old(newOrder.View()), quantity)
      ensures best.View() == FillMaker(old(best.View()), quantity)
    {
      var (seller, buyer) := if newOrder.side == Buy then (best, newOrder) else (newOrder, best);
      trade := Trade(seller.id, buyer.id, seller.user, buyer.user, newOrder.asset, quantity, best.price);
      newOrder.filled := newOrder.filled + quantity;
      best.filled := best.filled + quantity;
      if newOrder.filled >= newOrder.quantity {
        newOrder.status := Filled;
      } else if newOrder.filled > 0 {
        newOrder.status := PartiallyFilled;
      }
      if best.filled >= best.quantity {
        best.status := Filled;
      }
    }

    /** A trade with the first of `left` changes that row only, and none of the makers filled before. */
    method TradeWith(newOrder: Order, left: seq<Order>, touched: seq<Order>, quantity: int) returns (trade: Trade)
      requires left != [] && newOrder !in left && newOrder !in touched && left[0] !in touched
      requires Distinct(left)
      modifies newOrder, left[0]
      ensures trade == MakeTrade(old(newOrder.View()), old(left[0].View()), quantity)
      ensures newOrder.View() == FillTaker(old(newOrder.View()), quantity)
      ensures Views(left[1..]) == old(Views(left))[1..]
      ensures Views(left) == [FillMaker(old(left[0].View()), quantity)] + old(Views(left))[1..]
      ensures Views(touched + [left[0]]) == old(Views(touched)) + [FillMaker(old(left[0].View()), quantity)]
      ensures left[0].View() == FillMaker(old(left[0].View()), quantity)
    {
      trade := ExecuteTrade(newOrder, left[0], quantity);
    }

    /** The matching loop on the entities of one side. */
    method MatchLoop(newOrder: Order, makers: seq<Order>)
      returns (left: seq<Order>, newTrades: seq<Trade>, touched: seq<Order>)
      requires newOrder !in makers
      requires Distinct(makers)
      modifies newOrder, set o | o in makers
      ensures Outcome(newOrder.View(), Views(left), Views(touched), newTrades)
           == old(Match(newOrder.View(), Views(makers), ToFill(newOrder.View())))
      ensures forall i :: 0 <= i < |left| ==> left[i] in makers
    {
      hide Match, Resume, FillTaker, FillMaker, MakeTrade, Crosses;
      // The rows of the taker, of the makers left and of the makers filled.
      ghost var taker, rows, done := newOrder.View(), Views(makers), [];
      ghost var outcome := Match(taker, rows, ToFill(taker));
      left, newTrades, touched := makers, [], [];
      ResumeStart(taker, rows, ToFill(taker));
      var remaining := if newOrder.filled > 0 then newOrder.quantity - newOrder.filled else newOrder.quantity;
      while remaining > 0 && |left| > 0
        invariant Distinct(left) && forall o :: o in left || o in touched ==> o in makers
        invariant remaining > 0 ==> forall o :: o in touched ==> o !in left
        invariant newOrder.View() == taker && Views(left) == rows && Views(touched) == done
        invariant Resume(done, newTrades, taker, rows, remaining) == outcome
        decreases |left| + if remaining > 0 then 1 else 0
      {
        var best := left[0];
        SatisfiesIff(newOrder.View(), best.View());
        if newOrder.kind == Limit {
          if newOrder.price == 0 || best.price == 0 {
            break;
          }
          if newOrder.side == Buy && newOrder.price < best.price {
            break;
          }
          if newOrder.side == Sell && newOrder.price > best.price {
            break;
          }
        }
        var quantity := Min(remaining, best.quantity - best.filled);
        ghost var maker := FillMaker(rows[0], quantity);
        ghost var rows' := if maker.filled >= maker.quantity then rows[1..] else [maker] + rows[1..];
        ResumeStep(done, newTrades, taker, rows, remaining, quantity, maker, rows', outcome);
        var trade := TradeWith(newOrder, left, touched, quantity);
        newTrades := newTrades + [trade];
        touched := touched + [best];
        remaining := remaining - quantity;
        if best.filled >= best.quantity {
          left := left[1..];
        }
        taker, rows, done := FillTaker(taker, quantity), rows', done + [maker];
      }
      ResumeEnds(done, newTrades, taker, rows, remaining);
    }

    method MatchOrder(newOrder: Order) returns (newTrades: seq<Trade>, touched: seq<Order>)
      requires Valid() && newOrder !in live
      modifies this`books, this`state, newOrder, live
      ensures var out := old(MatchNew(state, newOrder.View()));
              newOrder.View() == out.taker && Views(touched) == out.touched && newTrades == out.trades
      ensures state == old(state.(books := Consume(state, newOrder.View())))
      ensures Mirrors(books, state.books, live)
    {
      newTrades, touched := [], [];
      var key, side := newOrder.asset.Key(), Opposite(newOrder.side);
      if key !in books {
        return;
      }
      hide Match;
      var makers := books[key].On(side);
      MakersAreDistinct(key, side);
      assert Shown(makers, state.books[key].On(side), live);
      forall k, sd, i | k in books && (k != key || sd != side) && 0 <= i < |books[k].On(sd)|
        ensures books[k].On(sd)[i] !in makers && books[k].On(sd)[i] != newOrder
      {
        OthersAreNotMakers(key, side, k, sd);
        assert Shown(books[k].On(sd), state.books[k].On(sd), live);
      }
      ghost var consumed := Consume(state, newOrder.View());
      assert Views(makers) == state.Resting(key, side);
      var left;
      left, newTrades, touched := MatchLoop(newOrder, makers);
      forall k, sd | k in books && (k != key || sd != side)
        ensures Shown(books[k].On(sd), state.books[k].On(sd), live)
      {
        assert old(Shown(books[k].On(sd), state.books[k].On(sd), live));
      }
      ShownViews(left, live);
      MirrorsAfter(books, state.books, live, key, side, left, Views(left));
      books := books[key := books[key].With(side, left)];
      state := state.(books := consumed);
    }

    /** The first save of createOrder: the order is stored as open before it is matched. */
    method SaveNew(draft: Draft) returns (order: Order)
      requires Valid()
      modifies this`orders, this`nextId, this`state
      ensures fresh(order) && order.View() == NewOrder(old(nextId), draft)
      ensures state == Saved(old(state), draft) && Valid()
    {
      SavedIsPlaced(state, draft);
      order := new Order(NewOrder(nextId, draft).(status := Pending));
      order.status := Open;
      nextId := nextId + 1;
      orders := orders[order.id := order.View()];
      state := Saved(state, draft);
    }

    /** The transaction of createOrder: the trades, the taker and every maker the match filled. */
    method SaveMatch(order: Order, newTrades: seq<Trade>, touched: seq<Order>)
      modifies this`orders, this`trades, this`state
      ensures trades == old(trades) + newTrades
      ensures orders == SaveAll(old(orders)[order.id := order.View()], Views(touched))
      ensures state == old(state).(orders := orders, trades := trades)
    {
      trades := trades + newTrades;
      orders := SaveAll(orders[order.id := order.View()], Views(touched));
      state := state.(orders := orders, trades := trades);
    }

    /** The rest of createOrder: match, save what the match changed, and rest what is left. */
    method MatchAndRest(order: Order)
      requires Valid() && order !in live
      modifies this, order, live
      ensures state == old(Finish(state, order.View())) && Shows()
      ensures order.View() == old(MatchNew(state, order.View())).taker
    {
      ghost var s, row := state, order.View();
      ghost var out, consumed := MatchNew(s, row), Consume(s, row);
      FinishIs(s, row, out, consumed);
      var newTrades, touched := MatchOrder(order);
      SaveMatch(order, newTrades, touched);
      if order.status == Open || order.status == PartiallyFilled {
        AddToOrderBook(order);
      }
    }

    method CreateOrder(draft: Draft, now: int) returns (r: Result<Row, Refusal>)
      requires Valid()
      modifies this, live
      ensures Valid() && state == old(Next(state, Create(draft, now)))
      ensures r == match Validate(draft, now)
                   case Some(refusal) => Err(refusal)
                   case None => Ok(old(Matched(state, draft).taker))
    {
      PlaceKeepsPlaced(state, draft);
      if draft.kind == Limit && draft.price == 0 {
        return Err(PriceMissing);
      }
      if draft.expiresAt.At? && draft.expiresAt.time < now {
        return Err(ExpiresInPast);
      }
      PlaceIsSaveThenFinish(state, draft);
      var order := SaveNew(draft);
      MatchAndRest(order);
      r := Ok(order.View());
    }

    method RemoveFromOrderBook(row: Row)
      requires Mirrors(books, state.books, live)
      modifies this`books, this`state
      ensures state == old(state).(books := RemoveFromBook(old(state.books), row))
      ensures Mirrors(books, state.books, live)
    {
      var key := row.asset.Key();
      if key !in books {
        return;
      }
      FilterMirrors(books, state.books, live, key, row.side, row.id);
      books := books[key := books[key].With(row.side, Filter(books[key].On(row.side), row.id))];
      state := state.(books := RemoveFromBook(state.books, row));
    }

    /** Takes an order off the book and saves it with its final status. */
    method CloseOrder(id: nat, status: Status)
      requires Valid() && id in orders
      modifies this`books, this`orders, this`state
      ensures state == Close(old(state), id, status)
      ensures Valid()
    {
      CloseIsCloseSet(state, id, status);
      CloseSetKeepsPlaced(state, {id}, status);
      var row := orders[id];
      RemoveFromOrderBook(row);
      orders := orders[id := row.(status := status)];
      state := state.(orders := orders);
    }

    method CancelOrder(id: nat, user: nat) returns (r: Result<Row, Refusal>)
      requires Valid()
      modifies this
      ensures Valid() && state == Next(old(state), Cancel(id, user))
      ensures r == match RefuseCancel(old(state), id, user)
                   case Some(refusal) => Err(refusal)
                   case None => Ok(old(orders[id]).(status := Cancelled))
    {
      if id !in orders {
        return Err(NotFound);
      }
      if orders[id].user != user {
        return Err(NotOwner);
      }
      if !(orders[id].status == Open || orders[id].status == PartiallyFilled) {
        return Err(NotOpen);
      }
      CloseOrder(id, Cancelled);
      r := Ok(orders[id]);
    }

    /** cleanupExpiredOrders: closes the expired orders one after the other, in whatever order they are listed. */
    method CleanupExpiredOrders(now: int)
      requires Valid()
      modifies this
      ensures Valid() && state == Next(old(state), Cleanup(now))
    {
      var expired := set id | id in orders && (orders[id].status == Open || orders[id].status == PartiallyFilled)
                              && orders[id].expiresAt.At? && orders[id].expiresAt.time < now;
      assert expired == ExpiredIds(orders, now);
      ghost var before, all, done: set<nat> := state, expired, {};
      CloseNone(before);
      while expired != {}
        invariant expired == all - done && done <= all
        invariant Valid() && state == CloseSet(before, done, Expired)
        decreases expired
      {
        var id :| id in expired;
        CloseOneMore(before, done, id, Expired);
        CloseOrder(id, Expired);
        expired, done := expired - {id}, done + {id};
      }
      assert done == all;
    }

    /** A started service, before its books are filled. */
    constructor (orders: map<nat, Row>, trades: seq<Trade>, nextId: nat)
      ensures Shows() && state == State(map[], orders, trades, nextId)
    {
      this.books, this.orders, this.trades, this.nextId := map[], orders, trades, nextId;
      this.state, this.live := State(map[], orders, trades, nextId), {};
    }

    /** Fills the books with the open orders the database has listed. */
    method InitializeOrderBooks(found: seq<Order>)
      requires Shows() && books == map[]
      modifies this`books, this`state, this`live
      ensures Shows() && state == Next(old(state), Reopen(old(Views(found))))
      ensures old(Numbered(state) && ListsOpen(state, Views(found))) ==> Valid()
    {
      hide AddToBook, Placed, ListsOpen, Numbered;
      ghost var views, rows := Views(found), map[];
      for i := 0 to |found|
        invariant Shows() && state == old(state).(books := rows)
        invariant rows == Rebuild(views[..i])
      {
        RebuildStep(views, i);
        AddToOrderBook(found[i]);
        rows := AddToBook(rows, views[i]);
      }
      assert views[..|found|] == views;
      if old(Numbered(state) && ListsOpen(state, Views(found))) {
        ReopenPlaces(old(state), views);
      }
    }
  }

  lemma RebuildStep(found: seq<Row>, i: nat)
    requires i < |found|
    ensures Rebuild(found[..i + 1]) == AddToBook(Rebuild(found[..i]), found[i])
  {
    assert found[..i + 1][..i] == found[..i];
  }

  // The two halves of placing an order.

  ghost function Saved(s: State, draft: Draft): State {
    s.(orders := s.orders[s.nextId := NewOrder(s.nextId, draft)], nextId := s.nextId + 1)
  }

  ghost function Finish(s: State, order: Row): State {
    var out, books := MatchNew(s, order), Consume(s, order);
    State(
      if out.taker.IsOpen() then AddToBook(books, out.taker) else books,
      SaveAll(s.orders[order.id := out.taker], out.touched),
      s.trades + out.trades,
      s.nextId)
  }

  lemma FinishIs(s: State, order: Row, out: Outcome, consumed: map<string, Book>)
    requires out == MatchNew(s, order) && consumed == Consume(s, order)
    ensures Finish(s, order) == State(
                                  if out.taker.IsOpen() then AddToBook(consumed, out.taker) else consumed,
                                  SaveAll(s.orders[order.id := out.taker], out.touched),
                                  s.trades + out.trades,
                                  s.nextId)
  {
  }

  lemma SavedIsPlaced(s: State, draft: Draft)
    requires Placed(s)
    ensures Placed(Saved(s, draft))
  {
    forall key, side ensures PlacedSide(Saved(s, draft), key, side) {
      assert PlacedSide(s, key, side);
      forall i | 0 <= i < |s.Resting(key, side)| ensures PlacedAt(Saved(s, draft), key, side, s.Resting(key, side)[i]) {
        assert PlacedAt(s, key, side, s.Resting(key, side)[i]);
      }
    }
  }

  lemma PlaceIsSaveThenFinish(s: State, draft: Draft)
    requires Placed(s)
    ensures Place(s, draft) == Finish(Saved(s, draft), NewOrder(s.nextId, draft))
    ensures MatchNew(Saved(s, draft), NewOrder(s.nextId, draft)) == Matched(s, draft)
  {
    var order := NewOrder(s.nextId, draft);
    assert Saved(s, draft).Resting(draft.asset.Key(), Opposite(draft.side)) == Makers(s, draft);
    assert Saved(s, draft).orders[order.id := Matched(s, draft).taker] == s.orders[order.id := Matched(s, draft).taker];
  }

  lemma CloseNone(s: State)
    ensures CloseSet(s, {}, Expired) == s
  {
    forall key | key in s.books ensures CloseSet(s, {}, Expired).books[key] == s.books[key] {
      KeepAll(s.books[key].bids, {});
      KeepAll(s.books[key].asks, {});
    }
    assert CloseSet(s, {}, Expired).books == s.books;
    assert CloseSet(s, {}, Expired).orders == s.orders;
  }
}
