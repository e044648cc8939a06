/**
 A restart: the books are rebuilt from the open orders, in whatever order the database lists them.
 It always yields the same orders and prices, keeps the whole invariant, and stands equal prices in
 order of arrival exactly when the database lists them so.
 */
module Restart {
  import opened OrderBook
  import opened Trading
  import opened BookInvariant
  import opened Placement
  import StableSort

  function BookOf(books: map<string, Book>, key: string, side: Side): seq<Row> {
    if key in books then books[key].On(side) else []
  }

  /** The listed orders of one side of one book, in listing order. */
  function Select(found: seq<Row>, key: string, side: Side): seq<Row> {
    if found == [] then []
    else
      var n := |found| - 1;
      Select(found[..n], key, side) + (if found[n].asset.Key() == key && found[n].side == side then [found[n]] else [])
  }

  function Prices(rows: seq<Row>): seq<int> {
    seq(|rows|, i requires 0 <= i < |rows| => rows[i].price)
  }

  lemma AddedTo(books: map<string, Book>, row: Row, key: string, side: Side)
    ensures BookOf(AddToBook(books, row), key, side) ==
            if row.asset.Key() == key && row.side == side then
              StableSort.Sort(ByRank(side), BookOf(books, key, side) + [row])
            else BookOf(books, key, side)
  {
  }

  /** Adding orders one by one, each push followed by a sort, sorts what was added. */
  lemma {:induction false} RebuildSorts(found: seq<Row>, key: string, side: Side)
    ensures BookOf(Rebuild(found), key, side) == StableSort.Sort(ByRank(side), Select(found, key, side))
  {
    if found != [] {
      var n := |found| - 1;
      var before, last := Select(found[..n], key, side), found[n];
      RebuildSorts(found[..n], key, side);
      AddedTo(Rebuild(found[..n]), last, key, side);
      if last.asset.Key() == key && last.side == side {
        SortAgain(side, before, last);
        assert Select(found, key, side) == before + [last];
      } else {
        assert Select(found, key, side) == before;
      }
    }
  }

  /** Sorting again after a push gives the same as sorting everything pushed. */
  lemma SortAgain(side: Side, rows: seq<Row>, last: Row)
    ensures StableSort.Sort(ByRank(side), StableSort.Sort(ByRank(side), rows) + [last])
         == StableSort.Sort(ByRank(side), rows + [last])
  {
    var sorted := StableSort.Sort(ByRank(side), rows);
    StableSort.SortIsStable(ByRank(side), rows);
    StableSort.PushThenSort(ByRank(side), sorted, last);
    assert (rows + [last])[..|rows|] == rows;
  }

  lemma {:induction false} SelectMembers(found: seq<Row>, key: string, side: Side)
    ensures forall r :: r in Select(found, key, side) <==> r in found && r.asset.Key() == key && r.side == side
  {
    if found != [] {
      var n := |found| - 1;
      SelectMembers(found[..n], key, side);
      assert found == found[..n] + [found[n]];
    }
  }

  lemma {:induction false} SelectDistinct(found: seq<Row>, key: string, side: Side)
    requires DistinctIds(found)
    ensures DistinctIds(Select(found, key, side))
  {
    if found != [] {
      var n := |found| - 1;
      SelectDistinct(found[..n], key, side);
      SelectMembers(found[..n], key, side);
      forall i | 0 <= i < |Select(found[..n], key, side)| ensures Select(found[..n], key, side)[i].id != found[n].id {
        assert Select(found[..n], key, side)[i] in found[..n];
      }
    }
  }

  lemma {:induction false} DistinctSameMembers(a: seq<Row>, b: seq<Row>)
    requires DistinctIds(a) && DistinctIds(b)
    requires forall r :: r in a <==> r in b
    ensures multiset(a) == multiset(b)
  {
    if a == [] {
      assert forall r :: r in multiset(b) <==> r in b;
    } else {
      assert a[0] in a;
      var i :| 0 <= i < |b| && b[i] == a[0];
      var b' := RemoveAt(b, i);
      RemoveOne(b, i);
      RemovedMembers(a, 0);
      RemovedMembers(b, i);
      assert RemoveAt(a, 0) == a[1..] && a == [a[0]] + a[1..];
      DistinctSameMembers(a[1..], b');
    }
  }

  lemma RemovedMembers(s: seq<Row>, i: nat)
    requires DistinctIds(s) && i < |s|
    ensures DistinctIds(RemoveAt(s, i))
    ensures forall r :: r in RemoveAt(s, i) <==> r in s && r != s[i]
  {
    var removed := RemoveAt(s, i);
    assert forall j :: 0 <= j < |removed| ==> removed[j] == s[if j < i then j else j + 1];
    forall r | r in s && r != s[i] ensures r in removed {
      var j :| 0 <= j < |s| && s[j] == r;
      assert removed[if j < i then j else j - 1] == r;
    }
  }

  function RemoveAt(s: seq<Row>, i: nat): seq<Row>
    requires i < |s|
  {
    s[..i] + s[i + 1..]
  }

  lemma RemoveOne(s: seq<Row>, i: nat)
    requires i < |s|
    ensures multiset(RemoveAt(s, i)) == multiset(s) - multiset{s[i]}
  {
    assert s == s[..i] + ([s[i]] + s[i + 1..]);
  }

  lemma RemoveSorted(side: Side, b: seq<Row>, i: nat)
    requires StableSort.Sorted(ByRank(side), b) && i < |b|
    ensures StableSort.Sorted(ByRank(side), RemoveAt(b, i))
  {
    var b' := RemoveAt(b, i);
    forall k, l | 0 <= k < l < |b'| ensures ByRank(side)(b'[k]) <= ByRank(side)(b'[l]) {
      assert b'[k] == b[if k < i then k else k + 1] && b'[l] == b[if l < i then l else l + 1];
    }
  }

  lemma PricesFromTails(a: seq<Row>, b: seq<Row>, i: nat)
    requires |a| == |b| && i < |b|
    requires forall k :: 0 <= k <= i ==> b[k].price == a[0].price
    requires Prices(a[1..]) == Prices(RemoveAt(b, i))
    ensures Prices(a) == Prices(b)
  {
    forall k | 0 < k < |a| ensures a[k].price == b[k].price {
      assert Prices(a[1..])[k - 1] == Prices(RemoveAt(b, i))[k - 1];
    }
  }

  /** Two sorted arrangements of the same orders show the same prices. */
  lemma {:induction false} PricesAreDetermined(side: Side, a: seq<Row>, b: seq<Row>)
    requires StableSort.Sorted(ByRank(side), a) && StableSort.Sorted(ByRank(side), b)
    requires multiset(a) == multiset(b)
    ensures Prices(a) == Prices(b)
  {
    assert |multiset(a)| == |a| && |multiset(b)| == |b|;
    if a != [] {
      var i := SamePlace(side, a, b);
      RemoveOne(a, 0);
      RemoveOne(b, i);
      RemoveSorted(side, b, i);
      assert RemoveAt(a, 0) == a[1..];
      RemoveSorted(side, a, 0);
      PricesAreDetermined(side, RemoveAt(a, 0), RemoveAt(b, i));
      PricesFromTails(a, b, i);
    }
  }

  /** The first of `a` stands in `b` behind orders of its own price only. */
  lemma SamePlace(side: Side, a: seq<Row>, b: seq<Row>) returns (i: nat)
    requires StableSort.Sorted(ByRank(side), a) && StableSort.Sorted(ByRank(side), b)
    requires multiset(a) == multiset(b) && a != [] && b != []
    ensures i < |b| && b[i] == a[0] && forall k :: 0 <= k <= i ==> b[k].price == a[0].price
  {
    assert a[0] in multiset(a) && b[0] in multiset(b);
    i :| 0 <= i < |b| && b[i] == a[0];
    var j :| 0 <= j < |a| && a[j] == b[0];
    assert ByRank(side)(a[0]) <= ByRank(side)(a[j]);
    forall k | 0 <= k <= i ensures b[k].price == a[0].price {
      assert ByRank(side)(b[0]) <= ByRank(side)(b[k]) <= ByRank(side)(b[i]);
    }
  }

  lemma SelectedIsResting(s: State, found: seq<Row>, key: string, side: Side)
    requires Inv(s) && ListsOpen(s, found)
    ensures multiset(Select(found, key, side)) == multiset(s.Resting(key, side))
  {
    var rows := s.Resting(key, side);
    assert SideOk(s, key, side);
    SideIsDistinct(s, key, side);
    SelectDistinct(found, key, side);
    SelectMembers(found, key, side);
    forall r ensures r in Select(found, key, side) <==> r in rows {
      if r in rows {
        var i :| 0 <= i < |rows| && rows[i] == r;
        assert Stored(s, key, side, rows[i]);
      }
    }
    DistinctSameMembers(Select(found, key, side), rows);
  }

  /** However the database lists the open orders, a restart yields the same orders and price ladder. */
  lemma SameLadder(s: State, found: seq<Row>, key: string, side: Side)
    requires Inv(s) && ListsOpen(s, found)
    ensures var live, rebuilt := s.Resting(key, side), BookOf(Rebuild(found), key, side);
            multiset(rebuilt) == multiset(live) && Prices(rebuilt) == Prices(live) && InPriceOrder(side, rebuilt)
  {
    var listed := Select(found, key, side);
    assert SideOk(s, key, side);
    SelectedIsResting(s, found, key, side);
    RebuildSorts(found, key, side);
    StableSort.SortKeepsMultiset(ByRank(side), listed);
    StableSort.SortIsStable(ByRank(side), listed);
    PricesAreDetermined(side, StableSort.Sort(ByRank(side), listed), s.Resting(key, side));
  }

  lemma ReopenKeepsSide(s: State, found: seq<Row>, key: string, side: Side)
    requires Inv(s) && ListsOpen(s, found)
    ensures SideOk(Next(s, Reopen(found)), key, side)
  {
    hide Rebuild, Select, Prices, StableSort.Sort;
    var live, rebuilt := s.Resting(key, side), BookOf(Rebuild(found), key, side);
    SameLadder(s, found, key, side);
    RebuildSorts(found, key, side);
    SelectDistinct(found, key, side);
    SortDistinct(side, Select(found, key, side));
    forall i | 0 <= i < |rebuilt| ensures Stored(Next(s, Reopen(found)), key, side, rebuilt[i]) {
      assert rebuilt[i] in multiset(rebuilt) && rebuilt[i] in multiset(live);
      var j :| 0 <= j < |live| && live[j] == rebuilt[i];
      assert SideOk(s, key, side) && Stored(s, key, side, live[j]);
    }
  }

  lemma SameBest(s: State, found: seq<Row>, key: string, side: Side)
    requires Inv(s) && ListsOpen(s, found)
    ensures var live, rebuilt := s.Resting(key, side), BookOf(Rebuild(found), key, side);
            |live| == |rebuilt| && (live != [] ==> live[0].price == rebuilt[0].price)
  {
    hide Rebuild, Inv, ListsOpen;
    SameLadder(s, found, key, side);
    var live, rebuilt := s.Resting(key, side), BookOf(Rebuild(found), key, side);
    assert |Prices(live)| == |live| && |Prices(rebuilt)| == |rebuilt|;
    assert live != [] ==> Prices(live)[0] == live[0].price && Prices(rebuilt)[0] == rebuilt[0].price;
  }

  lemma ReopenKeepsListed(s: State, found: seq<Row>)
    requires Inv(s) && ListsOpen(s, found)
    ensures OpenAreListed(Next(s, Reopen(found)))
  {
    hide Rebuild, Prices;
    var s' := Next(s, Reopen(found));
    forall id | id in s'.orders && s'.orders[id].IsOpen() ensures Listed(s', s'.orders[id]) {
      var r := s.orders[id];
      SameLadder(s, found, r.asset.Key(), r.side);
      assert Listed(s, r) && r in multiset(s.Resting(r.asset.Key(), r.side));
    }
  }

  /** A restart keeps the whole invariant. */
  lemma ReopenKeepsInv(s: State, found: seq<Row>)
    requires Inv(s) && ListsOpen(s, found)
    ensures Inv(Next(s, Reopen(found)))
  {
    hide Rebuild, LedgerOk, SideOk, ListsOpen, OpenAreListed;
    var s' := Next(s, Reopen(found));
    forall key, side ensures SideOk(s', key, side) {
      ReopenKeepsSide(s, found, key, side);
    }
    ReopenKeepsListed(s, found);
    forall key ensures Uncrossed(s', key) {
      assert Uncrossed(s, key);
      SameBest(s, found, key, Buy);
      SameBest(s, found, key, Sell);
    }
    SameLedger(s, found);
  }

  lemma SameLedger(s: State, found: seq<Row>)
    ensures LedgerOk(s) <==> LedgerOk(Next(s, Reopen(found)))
  {
    hide Rebuild;
  }

  /** Whatever orders the table holds, a restart puts each open one in its place. */
  lemma ReopenPlaces(s: State, found: seq<Row>)
    requires Numbered(s) && ListsOpen(s, found)
    ensures Placed(Next(s, Reopen(found)))
  {
    hide Rebuild, Select, StableSort.Sort;
    var s' := Next(s, Reopen(found));
    forall key, side ensures PlacedSide(s', key, side) {
      var listed := Select(found, key, side);
      SelectDistinct(found, key, side);
      SelectMembers(found, key, side);
      forall i | 0 <= i < |listed| ensures PlacedAt(s', key, side, listed[i]) {
        assert listed[i] in listed && listed[i] in found;
      }
      SortPlaced(s', key, side, listed);
      RebuildSorts(found, key, side);
    }
  }

  // ---------------------------------------------------------------- time priority

  ghost predicate Rising(rows: seq<Row>) {
    forall i, j :: 0 <= i < j < |rows| ==> rows[i].id < rows[j].id
  }

  /** The orders of one price, by its rank. */
  ghost function Level(side: Side, s: seq<Row>, k: int): seq<Row> {
    StableSort.OfRank(ByRank(side), s, k)
  }

  function RankOf(side: Side, r: Row): int {
    Rank(side, r.price)
  }

  lemma LevelStep(side: Side, s: seq<Row>, k: int)
    requires s != []
    ensures Level(side, s, k) == (if RankOf(side, s[0]) == k then [s[0]] else []) + Level(side, s[1..], k)
  {
  }

  /** Where an order of a price stands among the orders of its price. */
  lemma {:induction false} IntoLevel(side: Side, s: seq<Row>, i: nat, k: int) returns (p: nat)
    requires i < |s| && RankOf(side, s[i]) == k
    ensures p < |Level(side, s, k)| && Level(side, s, k)[p] == s[i]
  {
    LevelStep(side, s, k);
    if i == 0 {
      p := 0;
    } else {
      p := IntoLevel(side, s[1..], i - 1, k);
      p := p + if RankOf(side, s[0]) == k then 1 else 0;
    }
  }

  /** Two orders of a price stand in the same order among the orders of that price. */
  lemma {:induction false} PairIntoLevel(side: Side, s: seq<Row>, i: nat, j: nat, k: int) returns (p: nat, q: nat)
    requires i < j < |s| && RankOf(side, s[i]) == k && RankOf(side, s[j]) == k
    ensures p < q < |Level(side, s, k)| && Level(side, s, k)[p] == s[i] && Level(side, s, k)[q] == s[j]
  {
    LevelStep(side, s, k);
    if i == 0 {
      q := IntoLevel(side, s[1..], j - 1, k);
      p, q := 0, q + 1;
    } else {
      p, q := PairIntoLevel(side, s[1..], i - 1, j - 1, k);
      if RankOf(side, s[0]) == k {
        p, q := p + 1, q + 1;
      }
    }
  }

  lemma {:induction false} OutOfLevel(side: Side, s: seq<Row>, p: nat, k: int) returns (i: nat)
    requires p < |Level(side, s, k)|
    ensures i < |s| && s[i] == Level(side, s, k)[p] && RankOf(side, s[i]) == k
  {
    LevelStep(side, s, k);
    if RankOf(side, s[0]) == k && p == 0 {
      i := 0;
    } else {
      i := OutOfLevel(side, s[1..], p - if RankOf(side, s[0]) == k then 1 else 0, k);
      i := i + 1;
    }
  }

  /** And the other way round. */
  lemma {:induction false} PairOutOfLevel(side: Side, s: seq<Row>, p: nat, q: nat, k: int) returns (i: nat, j: nat)
    requires p < q < |Level(side, s, k)|
    ensures i < j < |s| && s[i] == Level(side, s, k)[p] && s[j] == Level(side, s, k)[q]
    ensures RankOf(side, s[i]) == k && RankOf(side, s[j]) == k
  {
    LevelStep(side, s, k);
    if RankOf(side, s[0]) == k && p == 0 {
      j := OutOfLevel(side, s[1..], q - 1, k);
      i, j := 0, j + 1;
    } else {
      var skip := if RankOf(side, s[0]) == k then 1 else 0;
      i, j := PairOutOfLevel(side, s[1..], p - skip, q - skip, k);
      i, j := i + 1, j + 1;
    }
  }

  ghost predicate LevelsRise(side: Side, s: seq<Row>) {
    forall k :: Rising(Level(side, s, k))
  }

  /** Equal prices come in order of arrival exactly when the ids of every price level rise. */
  lemma LevelsRiseIff(side: Side, s: seq<Row>)
    ensures ArrivalOrder(s) <==> LevelsRise(side, s)
  {
    hide Level;
    if ArrivalOrder(s) {
      forall k, p, q | 0 <= p < q < |Level(side, s, k)| ensures Level(side, s, k)[p].id < Level(side, s, k)[q].id {
        var i, j := PairOutOfLevel(side, s, p, q, k);
        assert s[i].price == s[j].price;
      }
    }
    if LevelsRise(side, s) {
      forall i, j | 0 <= i < j < |s| && s[i].price == s[j].price ensures s[i].id < s[j].id {
        var p, q := PairIntoLevel(side, s, i, j, RankOf(side, s[i]));
        assert Rising(Level(side, s, RankOf(side, s[i])));
      }
    }
  }

  lemma LevelWithin(side: Side, a: seq<Row>, b: seq<Row>, k: int, r: Row)
    requires (forall x :: x in a ==> x in b) && r in Level(side, a, k)
    ensures r in Level(side, b, k)
  {
    hide Level;
    var p :| 0 <= p < |Level(side, a, k)| && Level(side, a, k)[p] == r;
    var i := OutOfLevel(side, a, p, k);
    assert a[i] in b;
    var j :| 0 <= j < |b| && b[j] == r;
    var q := IntoLevel(side, b, j, k);
  }

  /** Rows whose ids rise are determined by which rows they are. */
  lemma {:induction false} RisingIsDetermined(a: seq<Row>, b: seq<Row>)
    requires Rising(a) && Rising(b) && forall r :: r in a <==> r in b
    ensures a == b
  {
    if a != [] && b != [] {
      SameFirst(a, b);
      forall r ensures r in a[1..] <==> r in b[1..] {
        TailMembers(a, r);
        TailMembers(b, r);
      }
      RisingIsDetermined(a[1..], b[1..]);
      assert a == [a[0]] + a[1..] && b == [b[0]] + b[1..];
    } else {
      assert forall r :: r in multiset(a) <==> r in a;
      assert forall r :: r in multiset(b) <==> r in b;
      assert |multiset(a)| == |a| && |multiset(b)| == |b|;
    }
  }

  lemma SameFirst(a: seq<Row>, b: seq<Row>)
    requires a != [] && b != [] && Rising(a) && Rising(b) && forall r :: r in a <==> r in b
    ensures a[0] == b[0]
  {
    assert a[0] in b && b[0] in a;
    var j :| 0 <= j < |b| && b[j] == a[0];
    var i :| 0 <= i < |a| && a[i] == b[0];
  }

  lemma TailMembers(a: seq<Row>, r: Row)
    requires a != [] && Rising(a)
    ensures r in a[1..] <==> r in a && r != a[0]
  {
    assert a == [a[0]] + a[1..];
    assert forall i :: 0 <= i < |a[1..]| ==> a[1..][i] == a[i + 1] && a[0].id < a[i + 1].id;
  }

  /** Of two listings of the same orders, one in order of arrival, the other agrees at every price iff it is too. */
  lemma SameLevelsIff(side: Side, listed: seq<Row>, live: seq<Row>)
    requires ArrivalOrder(live) && forall r :: r in listed <==> r in live
    ensures StableSort.SameWithinRanks(ByRank(side), listed, live) <==> ArrivalOrder(listed)
  {
    LevelsRiseIff(side, listed);
    LevelsRiseIff(side, live);
    if ArrivalOrder(listed) {
      forall k ensures StableSort.OfRank(ByRank(side), listed, k) == StableSort.OfRank(ByRank(side), live, k) {
        SameLevel(side, listed, live, k);
      }
    }
    if StableSort.SameWithinRanks(ByRank(side), listed, live) {
      forall k ensures Rising(Level(side, listed, k)) {
        assert Level(side, listed, k) == Level(side, live, k);
      }
    }
  }

  lemma SameLevel(side: Side, a: seq<Row>, b: seq<Row>, k: int)
    requires LevelsRise(side, a) && LevelsRise(side, b) && forall r :: r in a <==> r in b
    ensures Level(side, a, k) == Level(side, b, k)
  {
    hide Level, Rising;
    forall r ensures r in Level(side, a, k) <==> r in Level(side, b, k) {
      if r in Level(side, a, k) {
        LevelWithin(side, a, b, k, r);
      }
      if r in Level(side, b, k) {
        LevelWithin(side, b, a, k, r);
      }
    }
    RisingIsDetermined(Level(side, a, k), Level(side, b, k));
  }

  /** At every price of every book the listing is in order of arrival. */
  ghost predicate ListedByArrival(found: seq<Row>) {
    forall key, side :: ArrivalOrder(Select(found, key, side))
  }

  /** The books of a restart are in order of arrival exactly when the listing is. */
  lemma ReopenArrivesIff(s: State, found: seq<Row>)
    ensures Arrived(Next(s, Reopen(found))) <==> ListedByArrival(found)
  {
    hide Rebuild, Select, StableSort.Sort, ArrivalOrder;
    var s' := Next(s, Reopen(found));
    if Arrived(s') {
      forall key, side ensures ArrivalOrder(Select(found, key, side)) {
        ReopenedSide(s, found, key, side);
        assert ArrivalOrder(s'.Resting(key, side));
      }
    }
    if ListedByArrival(found) {
      forall key, side ensures ArrivalOrder(s'.Resting(key, side)) {
        ReopenedSide(s, found, key, side);
      }
    }
  }

  lemma ReopenedSide(s: State, found: seq<Row>, key: string, side: Side)
    ensures ArrivalOrder(Next(s, Reopen(found)).Resting(key, side)) <==> ArrivalOrder(Select(found, key, side))
  {
    hide Rebuild, Select, ArrivalOrder, StableSort.Sort;
    RebuildSorts(found, key, side);
    SortKeepsArrivalIff(side, Select(found, key, side));
  }

  lemma SortKeepsArrivalIff(side: Side, rows: seq<Row>)
    ensures ArrivalOrder(StableSort.Sort(ByRank(side), rows)) <==> ArrivalOrder(rows)
  {
    hide ArrivalOrder, StableSort.Sort, Rising;
    var sorted := StableSort.Sort(ByRank(side), rows);
    StableSort.SortIsStable(ByRank(side), rows);
    LevelsRiseIff(side, rows);
    LevelsRiseIff(side, sorted);
    forall k ensures Level(side, sorted, k) == Level(side, rows, k) {
    }
  }

  /** On books in order of arrival a restart changes nothing exactly when the listing is in order of arrival. */
  lemma SameBookIff(s: State, found: seq<Row>, key: string, side: Side)
    requires Inv(s) && Arrived(s) && ListsOpen(s, found)
    ensures BookOf(Rebuild(found), key, side) == s.Resting(key, side) <==> ArrivalOrder(Select(found, key, side))
  {
    hide Select, Rebuild, BookOf, StableSort.Sort, ListsOpen;
    var live, listed := s.Resting(key, side), Select(found, key, side);
    assert SideOk(s, key, side) && ArrivalOrder(live);
    hide ArrivalOrder;
    RebuildSorts(found, key, side);
    StableSort.SortGivesIff(ByRank(side), listed, live);
    SelectedIsResting(s, found, key, side);
    assert forall r :: r in listed <==> r in multiset(listed);
    assert forall r :: r in live <==> r in multiset(live);
    SameLevelsIff(side, listed, live);
  }
}
