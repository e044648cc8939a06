/** Placing and closing orders, on any input, leave each order in at most one place on the books. */
module Placement {
  import opened Options
  import opened OrderBook
  import opened Trading
  import opened BookInvariant
  import StableSort

  /** An order without what the matcher changes. */
  function Terms(r: Row): Row {
    r.(filled := 0, status := Open)
  }

  /** The match fills a prefix and leaves a suffix, whatever the quantities are. */
  lemma {:induction false} MatchKeepsPlaces(taker: Row, book: seq<Row>, remaining: int)
    ensures KeepsPlaces(book, Match(taker, book, remaining))
    decreases |book|
  {
    if 0 < remaining && book != [] && Crosses(taker, book[0]) {
      var q := Min(remaining, book[0].Remaining());
      if FillMaker(book[0], q).filled >= book[0].quantity {
        MatchKeepsPlaces(FillTaker(taker, q), book[1..], remaining - q);
        OneMoreFilled(book, FillMaker(book[0], q), Match(FillTaker(taker, q), book[1..], remaining - q),
                      Match(taker, book, remaining));
      }
    }
  }

  ghost predicate KeepsPlaces(book: seq<Row>, out: Outcome) {
    && |out.touched| <= |book| && |out.book| <= |book|
    && (forall i :: 0 <= i < |out.touched| ==> Terms(out.touched[i]) == Terms(book[i]))
    && (forall j :: 0 <= j < |out.book| ==> Terms(out.book[j]) == Terms(book[|book| - |out.book| + j]))
  }

  lemma OneMoreFilled(book: seq<Row>, maker: Row, rest: Outcome, out: Outcome)
    requires book != [] && Terms(maker) == Terms(book[0]) && KeepsPlaces(book[1..], rest)
    requires out.touched == [maker] + rest.touched && out.book == rest.book
    ensures KeepsPlaces(book, out)
  {
    hide Terms;
    forall i | 0 <= i < |out.touched| ensures Terms(out.touched[i]) == Terms(book[i]) {
      assert i > 0 ==> out.touched[i] == rest.touched[i - 1] && book[i] == book[1..][i - 1];
    }
    forall j | 0 <= j < |out.book| ensures Terms(out.book[j]) == Terms(book[|book| - |out.book| + j]) {
      assert book[1..][|book| - 1 - |out.book| + j] == book[|book| - |out.book| + j];
    }
  }

  lemma {:induction false} SortDistinct(side: Side, rows: seq<Row>)
    requires DistinctIds(rows)
    ensures DistinctIds(StableSort.Sort(ByRank(side), rows))
    ensures forall r :: r in StableSort.Sort(ByRank(side), rows) <==> r in rows
  {
    if rows != [] {
      var n := |rows| - 1;
      var front := StableSort.Sort(ByRank(side), rows[..n]);
      SortDistinct(side, rows[..n]);
      assert rows == rows[..n] + [rows[n]];
      forall i | 0 <= i < |front| ensures front[i].id != rows[n].id {
        assert front[i] in front && front[i] in rows[..n];
      }
      InsertDistinct(side, front, rows[n]);
      InsertMembers(side, front, rows[n]);
    }
  }

  lemma TouchedAreDistinct(s: State, draft: Draft)
    requires Placed(s)
    ensures var out, makers := Matched(s, draft), Makers(s, draft);
            && |out.touched| <= |makers|
            && DistinctIds(out.touched)
            && (forall i :: 0 <= i < |out.touched| ==>
                              out.touched[i].id == makers[i].id && out.touched[i].asset == makers[i].asset
                              && out.touched[i].side == makers[i].side && makers[i].id in s.orders
                              && PlacedAt(s, draft.asset.Key(), Opposite(draft.side), makers[i]))
  {
    var order, out, makers := NewOrder(s.nextId, draft), Matched(s, draft), Makers(s, draft);
    MatchKeepsPlaces(order, makers, ToFill(order));
    assert PlacedSide(s, draft.asset.Key(), Opposite(draft.side));
    forall i | 0 <= i < |out.touched|
      ensures out.touched[i].id == makers[i].id && out.touched[i].asset == makers[i].asset
      ensures out.touched[i].side == makers[i].side
    {
      assert Terms(out.touched[i]) == Terms(makers[i]);
    }
  }

  /** Saving leaves every stored order its id, asset and side. */
  lemma PlaceKeepsIdentity(s: State, draft: Draft)
    requires Placed(s)
    ensures var s' := Place(s, draft);
            && s'.orders.Keys == s.orders.Keys + {s.nextId}
            && s'.orders[s.nextId] == Matched(s, draft).taker
            && (forall id :: id in s'.orders ==> s'.orders[id].id == id)
            && (forall id :: id in s.orders ==>
                               s'.orders[id].asset == s.orders[id].asset && s'.orders[id].side == s.orders[id].side)
  {
    var order, out, makers := NewOrder(s.nextId, draft), Matched(s, draft), Makers(s, draft);
    var s' := Place(s, draft);
    TouchedAreDistinct(s, draft);
    MatchKeepsTerms(order, makers, ToFill(order));
    SaveAllSaves(s.orders, out.taker, makers, out.touched);
    forall id | id in s.orders
      ensures s'.orders[id].id == id && s'.orders[id].asset == s.orders[id].asset
      ensures s'.orders[id].side == s.orders[id].side
    {
      if i :| 0 <= i < |out.touched| && makers[i].id == id {
        assert s'.orders[makers[i].id] == out.touched[i];
      } else {
        assert s'.orders[id] == s.orders[id];
      }
    }
  }

  lemma PlacedAfter(s: State, draft: Draft, key: string, side: Side, r: Row)
    requires Placed(s) && PlacedAt(s, key, side, r)
    ensures PlacedAt(Place(s, draft), key, side, r) && r.id < s.nextId
  {
    PlaceKeepsIdentity(s, draft);
  }

  lemma TakerPlaced(s: State, draft: Draft)
    requires Placed(s)
    ensures PlacedAt(Place(s, draft), draft.asset.Key(), draft.side, Matched(s, draft).taker)
    ensures Matched(s, draft).taker.id == s.nextId
  {
    PlaceKeepsIdentity(s, draft);
    MatchKeepsTerms(NewOrder(s.nextId, draft), Makers(s, draft), ToFill(NewOrder(s.nextId, draft)));
  }

  lemma SortPlaced(s: State, key: string, side: Side, rows: seq<Row>)
    requires DistinctIds(rows) && forall i :: 0 <= i < |rows| ==> PlacedAt(s, key, side, rows[i])
    ensures var sorted := StableSort.Sort(ByRank(side), rows);
            DistinctIds(sorted) && forall i :: 0 <= i < |sorted| ==> PlacedAt(s, key, side, sorted[i])
  {
    var sorted := StableSort.Sort(ByRank(side), rows);
    SortDistinct(side, rows);
    forall i | 0 <= i < |sorted| ensures PlacedAt(s, key, side, sorted[i]) {
      assert sorted[i] in sorted && sorted[i] in rows;
    }
  }

  lemma OwnPlacedAfter(s: State, draft: Draft, key: string, side: Side)
    requires Placed(s)
    ensures var rows := s.Resting(key, side);
            DistinctIds(rows)
            && forall i :: 0 <= i < |rows| ==> PlacedAt(Place(s, draft), key, side, rows[i]) && rows[i].id < s.nextId
  {
    assert PlacedSide(s, key, side);
    forall i | 0 <= i < |s.Resting(key, side)|
      ensures PlacedAt(Place(s, draft), key, side, s.Resting(key, side)[i]) && s.Resting(key, side)[i].id < s.nextId
    {
      PlacedAfter(s, draft, key, side, s.Resting(key, side)[i]);
    }
  }

  lemma PlacePlacesOwnSide(s: State, draft: Draft)
    requires Placed(s)
    ensures PlacedSide(Place(s, draft), draft.asset.Key(), draft.side)
  {
    var s', key, side, taker := Place(s, draft), draft.asset.Key(), draft.side, Matched(s, draft).taker;
    PlacedResting(s, draft, key, side);
    TakerPlaced(s, draft);
    OwnPlacedAfter(s, draft, key, side);
    if taker.IsOpen() {
      var pushed := s.Resting(key, side) + [taker];
      forall i | 0 <= i < |pushed| ensures PlacedAt(s', key, side, pushed[i]) {
        assert pushed[i] == if i == |pushed| - 1 then taker else s.Resting(key, side)[i];
      }
      assert DistinctIds(pushed);
      SortPlaced(s', key, side, pushed);
    }
  }

  /** What is left of the consumed side stands where its tail stood. */
  lemma LeftPlaced(s: State, draft: Draft, j: nat)
    requires Placed(s) && j < |Matched(s, draft).book|
    ensures var rows, left := Makers(s, draft), Matched(s, draft).book;
            && |left| <= |rows|
            && left[j].id == rows[|rows| - |left| + j].id
            && PlacedAt(Place(s, draft), draft.asset.Key(), Opposite(draft.side), left[j])
  {
    var key, side, rows, left := draft.asset.Key(), Opposite(draft.side), Makers(s, draft), Matched(s, draft).book;
    MatchKeepsPlaces(NewOrder(s.nextId, draft), rows, ToFill(NewOrder(s.nextId, draft)));
    var r := rows[|rows| - |left| + j];
    assert Terms(left[j]) == Terms(r);
    assert left[j] == r.(filled := left[j].filled, status := left[j].status);
    assert PlacedSide(s, key, side) && PlacedAt(s, key, side, r);
    PlacedAfter(s, draft, key, side, left[j]);
  }

  lemma PlacePlacesConsumedSide(s: State, draft: Draft)
    requires Placed(s)
    ensures PlacedSide(Place(s, draft), draft.asset.Key(), Opposite(draft.side))
  {
    var key, side, left := draft.asset.Key(), Opposite(draft.side), Matched(s, draft).book;
    PlacedResting(s, draft, key, side);
    assert PlacedSide(s, key, side);
    forall j | 0 <= j < |left| ensures PlacedAt(Place(s, draft), key, side, left[j]) {
      LeftPlaced(s, draft, j);
    }
    forall i, j | 0 <= i < j < |left| ensures left[i].id != left[j].id {
      LeftPlaced(s, draft, i);
      LeftPlaced(s, draft, j);
    }
  }

  lemma PlacePlacesSide(s: State, draft: Draft, key: string, side: Side)
    requires Placed(s)
    ensures PlacedSide(Place(s, draft), key, side)
  {
    if key != draft.asset.Key() {
      PlacedResting(s, draft, key, side);
      OwnPlacedAfter(s, draft, key, side);
    } else if side == draft.side {
      PlacePlacesOwnSide(s, draft);
    } else {
      PlacePlacesConsumedSide(s, draft);
    }
  }

  lemma PlaceKeepsPlaced(s: State, draft: Draft)
    requires Placed(s)
    ensures Placed(Place(s, draft))
  {
    var s' := Place(s, draft);
    assert forall id :: id in s'.orders ==> s'.orders[id].id == id < s'.nextId by {
      PlaceKeepsIdentity(s, draft);
    }
    forall key, side ensures PlacedSide(s', key, side) {
      PlacePlacesSide(s, draft, key, side);
    }
  }

  lemma CloseSetKeepsPlaced(s: State, gone: set<nat>, status: Status)
    requires Placed(s)
    ensures Placed(CloseSet(s, gone, status))
  {
    var s' := CloseSet(s, gone, status);
    forall key, side ensures PlacedSide(s', key, side) {
      var rows := s.Resting(key, side);
      RestingAfterClose(s, gone, status, key, side);
      assert PlacedSide(s, key, side);
      KeepDistinct(rows, gone);
      KeepMembers(rows, gone);
      forall i | 0 <= i < |Keep(rows, gone)| ensures PlacedAt(s', key, side, Keep(rows, gone)[i]) {
        var r := Keep(rows, gone)[i];
        assert r in Keep(rows, gone);
        var j :| 0 <= j < |rows| && rows[j] == r;
        assert PlacedAt(s, key, side, rows[j]);
      }
    }
  }

  lemma {:induction false} KeepTwice(rows: seq<Row>, a: set<nat>, b: set<nat>)
    ensures Keep(Keep(rows, a), b) == Keep(rows, a + b)
  {
    if rows != [] {
      KeepTwice(rows[1..], a, b);
      var rest := Keep(rows[1..], a);
      if rows[0].id in a {
        assert Keep(rows, a) == rest;
      } else {
        assert Keep(rows, a)[1..] == rest;
      }
    }
  }

  lemma CloseTwice(s: State, a: set<nat>, b: set<nat>, status: Status)
    ensures CloseSet(CloseSet(s, a, status), b, status) == CloseSet(s, a + b, status)
  {
    var twice, once := CloseSet(CloseSet(s, a, status), b, status), CloseSet(s, a + b, status);
    forall key | key in s.books ensures twice.books[key] == once.books[key] {
      KeepTwice(s.books[key].bids, a, b);
      KeepTwice(s.books[key].asks, a, b);
    }
    assert twice.books == once.books;
    assert twice.orders == once.orders;
  }

  /** Closing orders one by one, in any order, closes the set of them. */
  lemma CloseOneMore(s: State, done: set<nat>, id: nat, status: Status)
    requires Placed(s) && id in s.orders
    ensures Close(CloseSet(s, done, status), id, status) == CloseSet(s, done + {id}, status)
  {
    CloseSetKeepsPlaced(s, done, status);
    CloseIsCloseSet(CloseSet(s, done, status), id, status);
    CloseTwice(s, done, {id}, status);
  }
}
