/**
 The trading engine as a state machine: the order books in memory, the tables in the
 database, and the operations that change them, each taken as one atomic step.
 */
module Trading {
  import opened Options
  import opened OrderBook
  import StableSort

  datatype Book = Book(bids: seq<Row>, asks: seq<Row>) {
    function On(side: Side): seq<Row> {
      if side == Buy then bids else asks
    }

    function With(side: Side, s: seq<Row>): Book {
      if side == Buy then Book(s, asks) else Book(bids, s)
    }
  }

  /** What a caller asks for. */
  datatype Draft = Draft(
    user: nat, asset: Asset, side: Side, kind: Kind, quantity: int, price: int, expiresAt: ExpiryDate)

  datatype State = State(books: map<string, Book>, orders: map<nat, Row>, trades: seq<Trade>, nextId: nat) {
    function Resting(key: string, side: Side): seq<Row> {
      if key in books then books[key].On(side) else []
    }
  }

  datatype Refusal = PriceMissing | ExpiresInPast | NotFound | NotOwner | NotOpen

  datatype Step =
    | Create(draft: Draft, now: int)
    | Cancel(order: nat, user: nat)
    | Cleanup(now: int)
      /** A restart that finds these open orders in the database, listed in this order. */
    | Reopen(found: seq<Row>)

  const Start := State(map[], map[], [], 0)

  // ---------------------------------------------------------------- operations

  function AddToBook(books: map<string, Book>, row: Row): map<string, Book> {
    var key := row.asset.Key();
    var book := if key in books then books[key] else Book([], []);
    books[key := book.With(row.side, StableSort.Sort(ByRank(row.side), book.On(row.side) + [row]))]
  }

  function Keep(s: seq<Row>, gone: set<nat>): seq<Row> {
    if s == [] then [] else (if s[0].id in gone then [] else [s[0]]) + Keep(s[1..], gone)
  }

  function RemoveFromBook(books: map<string, Book>, row: Row): map<string, Book> {
    var key := row.asset.Key();
    if key in books then
      books[key := books[key].With(row.side, Keep(books[key].On(row.side), {row.id}))]
    else
      books
  }

  function SaveAll(orders: map<nat, Row>, rows: seq<Row>): map<nat, Row> {
    if rows == [] then orders
    else
      var last := rows[|rows| - 1];
      SaveAll(orders, rows[..|rows| - 1])[last.id := last]
  }

  function Validate(draft: Draft, now: int): Option<Refusal> {
    if draft.kind == Limit && draft.price == 0 then Some(PriceMissing)
    else if draft.expiresAt.At? && draft.expiresAt.time < now then Some(ExpiresInPast)
    else None
  }

  function NewOrder(id: nat, draft: Draft): Row {
    Row(id, draft.user, draft.asset, draft.side, draft.kind, draft.quantity, draft.price, 0, Open, draft.expiresAt)
  }

  function MatchNew(s: State, order: Row): Outcome {
    Match(order, s.Resting(order.asset.Key(), Opposite(order.side)), ToFill(order))
  }

  /** The books after the loop has consumed from the opposite side. */
  function Consume(s: State, order: Row): map<string, Book> {
    var key := order.asset.Key();
    if key in s.books then
      s.books[key := s.books[key].With(Opposite(order.side), MatchNew(s, order).book)]
    else
      s.books
  }

  function Place(s: State, draft: Draft): State {
    var order := NewOrder(s.nextId, draft);
    var out := MatchNew(s, order);
    var books := Consume(s, order);
    State(
      if out.taker.IsOpen() then AddToBook(books, out.taker) else books,
      SaveAll(s.orders[order.id := out.taker], out.touched),
      s.trades + out.trades,
      s.nextId + 1)
  }

  function RefuseCancel(s: State, id: nat, user: nat): Option<Refusal> {
    if id !in s.orders then Some(NotFound)
    else if s.orders[id].user != user then Some(NotOwner)
    else if !s.orders[id].IsOpen() then Some(NotOpen)
    else None
  }

  /** Takes an order off the book and saves it with its final status. */
  function Close(s: State, id: nat, status: Status): State
    requires id in s.orders
  {
    var row := s.orders[id];
    s.(books := RemoveFromBook(s.books, row), orders := s.orders[id := row.(status := status)])
  }

  predicate HasExpired(row: Row, now: int) {
    row.IsOpen() && row.expiresAt.At? && row.expiresAt.time < now
  }

  function ExpiredIds(orders: map<nat, Row>, now: int): set<nat> {
    set id | id in orders && HasExpired(orders[id], now)
  }

  /** Takes a set of orders off the books at once. */
  function CloseSet(s: State, gone: set<nat>, status: Status): State {
    State(
      map key | key in s.books :: Book(Keep(s.books[key].bids, gone), Keep(s.books[key].asks, gone)),
      map id | id in s.orders :: if id in gone then s.orders[id].(status := status) else s.orders[id],
      s.trades,
      s.nextId)
  }

  /** The books after a start: the orders the database lists, added one after the other. */
  function Rebuild(found: seq<Row>): map<string, Book> {
    if found == [] then map[]
    else AddToBook(Rebuild(found[..|found| - 1]), found[|found| - 1])
  }

  function Next(s: State, step: Step): State {
    match step
    case Create(draft, now) => if Validate(draft, now).Some? then s else Place(s, draft)
    case Cancel(id, user) => if RefuseCancel(s, id, user).Some? then s else Close(s, id, Cancelled)
    case Cleanup(now) => CloseSet(s, ExpiredIds(s.orders, now), Expired)
    case Reopen(found) => s.(books := Rebuild(found))
  }

  function Run(steps: seq<Step>): State {
    if steps == [] then Start else Next(Run(steps[..|steps| - 1]), steps[|steps| - 1])
  }

  // ---------------------------------------------------------------- what every run keeps

  ghost predicate RowOk(r: Row) {
    && 0 <= r.filled <= r.quantity && 0 < r.quantity
    && (r.kind == Limit ==> r.price != 0)
    && (r.IsOpen() ==> r.IsLive())
    && (r.status == Filled <==> r.filled == r.quantity)
    && (r.status == PartiallyFilled ==> 0 < r.filled)
    && r.status != Pending && r.status != Rejected
  }

  ghost predicate TableOk(s: State) {
    forall id :: id in s.orders ==> s.orders[id].id == id < s.nextId && RowOk(s.orders[id])
  }

  /** `r` belongs to this side of this book and is what the table holds. */
  ghost predicate Stored(s: State, key: string, side: Side, r: Row) {
    r.asset.Key() == key && r.side == side && r.IsLive() && r.id in s.orders && s.orders[r.id] == r
  }

  ghost predicate SideOk(s: State, key: string, side: Side) {
    var rows := s.Resting(key, side);
    && InPriceOrder(side, rows) && DistinctIds(rows)
    && forall i :: 0 <= i < |rows| ==> Stored(s, key, side, rows[i])
  }

  ghost predicate SidesOk(s: State) {
    forall key, side :: SideOk(s, key, side)
  }

  ghost predicate Listed(s: State, r: Row) {
    r in s.Resting(r.asset.Key(), r.side)
  }

  ghost predicate OpenAreListed(s: State) {
    forall id :: id in s.orders && s.orders[id].IsOpen() ==> Listed(s, s.orders[id])
  }

  ghost predicate Uncrossed(s: State, key: string) {
    s.Resting(key, Buy) == [] || s.Resting(key, Sell) == []
    || s.Resting(key, Buy)[0].price < s.Resting(key, Sell)[0].price
  }

  ghost predicate AllUncrossed(s: State) {
    forall key :: Uncrossed(s, key)
  }

  /** The order a trade records for a side: sell orders as the maker, buy orders as the taker. */
  function Party(t: Trade, side: Side): nat {
    if side == Sell then t.makerOrder else t.takerOrder
  }

  /** The user a trade records for a side. */
  function PartyUser(t: Trade, side: Side): nat {
    if side == Sell then t.makerUser else t.takerUser
  }

  /** What the trades say an order has filled. */
  function FilledBy(trades: seq<Trade>, id: nat, side: Side): int {
    if trades == [] then 0
    else (if Party(trades[0], side) == id then trades[0].quantity else 0) + FilledBy(trades[1..], id, side)
  }

  ghost predicate WithinLimit(r: Row, price: int) {
    r.kind == Limit ==> if r.side == Buy then price <= r.price else price >= r.price
  }

  ghost predicate TradeOkFor(orders: map<nat, Row>, t: Trade, side: Side) {
    var id := Party(t, side);
    && id in orders && orders[id].side == side && orders[id].asset.Key() == t.asset.Key()
    && orders[id].user == PartyUser(t, side) && WithinLimit(orders[id], t.price)
  }

  /** The order that was there first sets the price, the one that came later names the asset. */
  ghost predicate TermsOk(orders: map<nat, Row>, t: Trade) {
    var first, later := Min(t.makerOrder, t.takerOrder), t.makerOrder + t.takerOrder - Min(t.makerOrder, t.takerOrder);
    first in orders && later in orders && t.price == orders[first].price && t.asset == orders[later].asset
  }

  ghost predicate TradeOk(orders: map<nat, Row>, t: Trade) {
    0 < t.quantity && TradeOkFor(orders, t, Buy) && TradeOkFor(orders, t, Sell) && TermsOk(orders, t)
  }

  ghost predicate LedgerOk(s: State) {
    && (forall id :: id in s.orders ==> s.orders[id].filled == FilledBy(s.trades, id, s.orders[id].side))
    && (forall i :: 0 <= i < |s.trades| ==> TradeOk(s.orders, s.trades[i]))
  }

  ghost predicate Inv(s: State) {
    TableOk(s) && SidesOk(s) && OpenAreListed(s) && AllUncrossed(s) && LedgerOk(s)
  }

  /** Time priority, which a restart can lose: equal prices stand in order of arrival, on all books. */
  ghost predicate Arrived(s: State) {
    forall key, side :: ArrivalOrder(s.Resting(key, side))
  }

  /** `r` stands where the table says it belongs. */
  ghost predicate PlacedAt(s: State, key: string, side: Side, r: Row) {
    && r.asset.Key() == key && r.side == side
    && r.id in s.orders && s.orders[r.id].asset == r.asset && s.orders[r.id].side == side
  }

  ghost predicate PlacedSide(s: State, key: string, side: Side) {
    var rows := s.Resting(key, side);
    DistinctIds(rows) && forall i :: 0 <= i < |rows| ==> PlacedAt(s, key, side, rows[i])
  }

  ghost predicate Numbered(s: State) {
    forall id :: id in s.orders ==> s.orders[id].id == id < s.nextId
  }

  /** The part of the invariant that holds whatever orders are taken: every order has one place. */
  ghost predicate Placed(s: State) {
    Numbered(s) && forall key, side :: PlacedSide(s, key, side)
  }

  /**
   The orders the engine can take: a positive quantity, and for a market order enough
   acceptable quantity on the other side.
   */
  ghost predicate Sound(s: State, draft: Draft) {
    var order := NewOrder(s.nextId, draft);
    && 0 < draft.quantity
    && (draft.kind == Market ==>
          draft.quantity <= Accepted(order, s.Resting(draft.asset.Key(), Opposite(draft.side))))
  }

  /** `found` is a listing of the stored open orders. */
  ghost predicate ListsOpen(s: State, found: seq<Row>) {
    && DistinctIds(found)
    && (forall i :: 0 <= i < |found| ==>
                      found[i].id in s.orders && s.orders[found[i].id] == found[i] && found[i].IsOpen())
    && (forall id :: id in s.orders && s.orders[id].IsOpen() ==> s.orders[id] in found)
  }

  /** A restart finds what the database holds. */
  ghost predicate TrueStep(s: State, step: Step) {
    step.Reopen? ==> ListsOpen(s, step.found)
  }

  ghost predicate SoundStep(s: State, step: Step) {
    && (step.Create? && Validate(step.draft, step.now).None? ==> Sound(s, step.draft))
    && TrueStep(s, step)
  }

  ghost predicate SoundRun(steps: seq<Step>) {
    forall n :: 0 <= n < |steps| ==> SoundStep(Run(steps[..n]), steps[n])
  }

  ghost predicate TrueRun(steps: seq<Step>) {
    forall n :: 0 <= n < |steps| ==> TrueStep(Run(steps[..n]), steps[n])
  }
}
