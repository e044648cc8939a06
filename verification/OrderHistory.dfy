/**
 What becomes of an order, told on its own fields: which orders are taken, who can cancel one, when
 one expires, and over whole runs what every stored, cancelled or expired order goes back to.
 */
module OrderHistory {
  import opened Options
  import opened OrderBook
  import opened Trading
  import opened BookInvariant
  import opened Placement
  import opened Runs

  // ---------------------------------------------------------------- one step

  /** The row keeps what was asked for. */
  ghost predicate Asked(r: Row, draft: Draft) {
    && r.user == draft.user && r.asset == draft.asset && r.side == draft.side && r.kind == draft.kind
    && r.quantity == draft.quantity && r.price == draft.price && r.expiresAt == draft.expiresAt
  }

  /** An order is taken exactly when it is a market order or has a price, and has not expired before now. */
  lemma TakenIff(s: State, draft: Draft, now: int)
    requires Placed(s)
    ensures var s' := Next(s, Create(draft, now));
            if (draft.kind == Market || draft.price != 0) && (draft.expiresAt == Never || draft.expiresAt.time >= now)
            then
              && s'.nextId == s.nextId + 1 && s'.orders.Keys == s.orders.Keys + {s.nextId}
              && s'.orders[s.nextId].id == s.nextId && Asked(s'.orders[s.nextId], draft)
            else s' == s
  {
    hide Place, Placed;
    if Validate(draft, now).None? {
      PlaceKeepsIdentity(s, draft);
      TakerKeepsDraft(s, draft);
    }
  }

  lemma TakerKeepsDraft(s: State, draft: Draft)
    ensures Matched(s, draft).taker.id == s.nextId && Asked(Matched(s, draft).taker, draft)
    ensures Place(s, draft).nextId == s.nextId + 1
  {
    MatchKeepsTerms(NewOrder(s.nextId, draft), Makers(s, draft), ToFill(NewOrder(s.nextId, draft)));
    hide Match, Consume, AddToBook, SaveAll;
  }

  /** The sides of all books hold the rows they held, without those of these ids. */
  ghost predicate LeavesBooks(s: State, s': State, gone: set<nat>) {
    forall key, side, r :: r in s'.Resting(key, side) <==> r in s.Resting(key, side) && r.id !in gone
  }

  lemma ClosedLeave(s: State, gone: set<nat>, status: Status)
    ensures LeavesBooks(s, CloseSet(s, gone, status), gone)
  {
    forall key, side, r
      ensures r in CloseSet(s, gone, status).Resting(key, side) <==> r in s.Resting(key, side) && r.id !in gone
    {
      RestingAfterClose(s, gone, status, key, side);
      KeepMembers(s.Resting(key, side), gone);
    }
  }

  /** The owner of an open order can always cancel it; nothing else changes, and no other request does anything. */
  lemma CancelIff(s: State, id: nat, user: nat)
    requires Placed(s)
    ensures var s' := Next(s, Cancel(id, user));
            if id in s.orders && s.orders[id].user == user && s.orders[id].status in {Open, PartiallyFilled}
            then
              && s'.orders == s.orders[id := s.orders[id].(status := Cancelled)]
              && s'.trades == s.trades && s'.nextId == s.nextId && LeavesBooks(s, s', {id})
            else s' == s
  {
    hide Placed, LeavesBooks, RemoveFromBook;
    if RefuseCancel(s, id, user).None? {
      ClosedLeave(s, {id}, Cancelled);
      CloseIsCloseSet(s, id, Cancelled);
    }
  }

  /** An open order whose time has passed. */
  ghost predicate Overdue(r: Row, now: int) {
    r.status in {Open, PartiallyFilled} && r.expiresAt != Never && r.expiresAt.time < now
  }

  /**
   A clean-up makes exactly the overdue orders expired and takes them off the books. It changes no
   other row and no trade, and leaves no overdue order on a book.
   */
  lemma CleanupExpires(s: State, now: int)
    requires Inv(s)
    ensures var s' := Next(s, Cleanup(now));
            && s'.orders.Keys == s.orders.Keys && s'.trades == s.trades && s'.nextId == s.nextId
            && (forall id :: id in s.orders ==>
                               s'.orders[id] ==
                               if Overdue(s.orders[id], now) then s.orders[id].(status := Expired) else s.orders[id])
            && (forall key, side, r ::
                  r in s'.Resting(key, side) <==> r in s.Resting(key, side) && !Overdue(r, now))
  {
    hide Inv, CloseSet, ExpiredIds, LeavesBooks, Overdue;
    ClosedRows(s, now);
    forall key, side, r
      ensures r in Next(s, Cleanup(now)).Resting(key, side) <==> r in s.Resting(key, side) && !Overdue(r, now)
    {
      StaysIff(s, now, key, side, r);
    }
  }

  lemma StaysIff(s: State, now: int, key: string, side: Side, r: Row)
    requires Inv(s)
    ensures r in CloseSet(s, ExpiredIds(s.orders, now), Expired).Resting(key, side) <==>
            r in s.Resting(key, side) && !Overdue(r, now)
  {
    hide Inv, CloseSet, ExpiredIds, Overdue;
    ClosedLeave(s, ExpiredIds(s.orders, now), Expired);
    if r in s.Resting(key, side) {
      RestingIsStored(s, key, side, r);
      ExpiredIff(s, r.id, now);
    }
  }

  lemma ExpiredIff(s: State, id: nat, now: int)
    ensures id in ExpiredIds(s.orders, now) <==> id in s.orders && Overdue(s.orders[id], now)
  {
  }

  lemma ClosedRows(s: State, now: int)
    ensures var s' := CloseSet(s, ExpiredIds(s.orders, now), Expired);
            && s'.orders.Keys == s.orders.Keys && s'.trades == s.trades && s'.nextId == s.nextId
            && forall id :: id in s.orders ==>
                              s'.orders[id] ==
                              if Overdue(s.orders[id], now) then s.orders[id].(status := Expired) else s.orders[id]
  {
    forall id | id in s.orders ensures id in ExpiredIds(s.orders, now) <==> Overdue(s.orders[id], now) {
      ExpiredIff(s, id, now);
    }
  }

  lemma RestingIsStored(s: State, key: string, side: Side, r: Row)
    requires Inv(s) && r in s.Resting(key, side)
    ensures r.id in s.orders && s.orders[r.id] == r && r.IsOpen()
  {
    assert SideOk(s, key, side);
    var i :| 0 <= i < |s.Resting(key, side)| && s.Resting(key, side)[i] == r;
    assert Stored(s, key, side, s.Resting(key, side)[i]);
  }

  // ---------------------------------------------------------------- whole runs

  /** Placing an order cancels and expires none. */
  lemma PlaceClosesNothing(s: State, draft: Draft, id: nat)
    requires Inv(s) && MatchedOk(s, draft) && id in Place(s, draft).orders
    requires Place(s, draft).orders[id].status in {Cancelled, Expired}
    ensures id in s.orders && Place(s, draft).orders[id] == s.orders[id]
  {
    assert SideOk(s, draft.asset.Key(), Opposite(draft.side)) by {
      InvHasSides(s, draft.asset.Key(), Opposite(draft.side));
    }
    hide Place, Match, SidesOk, OpenAreListed, AllUncrossed, LedgerOk;
    var from := RowAfter(s, draft, id);
    match from
    case IsTaker => TakerIsNotClosed(s, draft);
    case IsMaker(i) => MakerIsNotClosed(s, draft, i);
    case IsOther =>
  }

  lemma TakerIsNotClosed(s: State, draft: Draft)
    requires MatchedOk(s, draft)
    ensures Matched(s, draft).taker.status !in {Cancelled, Expired}
  {
    hide Match;
  }

  lemma MakerIsNotClosed(s: State, draft: Draft, i: nat)
    requires MatchedOk(s, draft) && i < |Matched(s, draft).touched|
    ensures Matched(s, draft).touched[i].status !in {Cancelled, Expired}
  {
    var maker := Makers(s, draft)[i];
    assert maker.IsLive();
    assert Matched(s, draft).touched[i] == FillMaker(maker, Matched(s, draft).trades[i].quantity);
  }

  /** What a step does to the status of an order: to close it takes its own user, or its time to have passed. */
  lemma StepCloses(s: State, step: Step, id: nat)
    requires Inv(s) && SoundStep(s, step) && id in Next(s, step).orders
    ensures var r := Next(s, step).orders[id];
            && (r.status == Cancelled ==>
                  && id in s.orders
                  && (s.orders[id] == r
                      || (step == Cancel(id, r.user) && s.orders[id].IsOpen()
                          && r == s.orders[id].(status := Cancelled))))
            && (r.status == Expired ==>
                  && id in s.orders
                  && (s.orders[id] == r
                      || (step.Cleanup? && Overdue(s.orders[id], step.now) && r == s.orders[id].(status := Expired))))
  {
    hide Inv, Place, LeavesBooks, Close, CloseSet, Rebuild, Sound, ListsOpen;
    match step
    case Create(draft, now) =>
      if Validate(draft, now).None? && Next(s, step).orders[id].status in {Cancelled, Expired} {
        SoundIsPositive(s, draft, now);
        MatchedIsOk(s, draft);
        PlaceClosesNothing(s, draft, id);
      }
    case Cancel(order, user) =>
      InvIsPlaced(s);
      CancelIff(s, order, user);
    case Cleanup(now) =>
      CleanupExpires(s, now);
    case Reopen(found) =>
  }

  lemma SoundIsPositive(s: State, draft: Draft, now: int)
    requires SoundStep(s, Create(draft, now)) && Validate(draft, now).None?
    ensures 0 < draft.quantity
  {
    hide Accepted;
  }

  /** In every run a cancelled order was open when its own user cancelled it. */
  lemma {:induction false} CancelledByItsUser(steps: seq<Step>, id: nat) returns (n: nat)
    requires SoundRun(steps)
    requires id in Run(steps).orders && Run(steps).orders[id].status == Cancelled
    ensures n < |steps| && id in Run(steps[..n]).orders
    ensures steps[n] == Cancel(id, Run(steps).orders[id].user)
    ensures Run(steps[..n]).orders[id].status in {Open, PartiallyFilled}
    ensures Run(steps).orders[id] == Run(steps[..n]).orders[id].(status := Cancelled)
  {
    hide Next, SoundStep, Inv;
    var last := |steps| - 1;
    PrefixIsSound(steps, last);
    RunKeepsInv(steps[..last]);
    assert SoundStep(Run(steps[..last]), steps[last]);
    StepCloses(Run(steps[..last]), steps[last], id);
    n := last;
    if Run(steps[..last]).orders[id] == Run(steps).orders[id] {
      n := CancelledByItsUser(steps[..last], id);
      assert steps[..last][..n] == steps[..n];
    }
  }

  /** In every run an expired order was open and overdue when some clean-up found it. */
  lemma {:induction false} ExpiredWhenOverdue(steps: seq<Step>, id: nat) returns (n: nat)
    requires SoundRun(steps)
    requires id in Run(steps).orders && Run(steps).orders[id].status == Expired
    ensures n < |steps| && steps[n].Cleanup? && id in Run(steps[..n]).orders
    ensures Overdue(Run(steps[..n]).orders[id], steps[n].now)
    ensures Run(steps).orders[id] == Run(steps[..n]).orders[id].(status := Expired)
  {
    hide Next, SoundStep, Inv, Overdue;
    var last := |steps| - 1;
    PrefixIsSound(steps, last);
    RunKeepsInv(steps[..last]);
    assert SoundStep(Run(steps[..last]), steps[last]);
    StepCloses(Run(steps[..last]), steps[last], id);
    n := last;
    if Run(steps[..last]).orders[id] == Run(steps).orders[id] {
      n := ExpiredWhenOverdue(steps[..last], id);
      assert steps[..last][..n] == steps[..n];
    }
  }

  /** A step stores no order but the one it is asked for, and leaves the terms of all others. */
  lemma StepKeepsAsked(s: State, step: Step, id: nat)
    requires Inv(s) && SoundStep(s, step) && id in Next(s, step).orders
    ensures id in s.orders ==> SameTerms(s.orders, Next(s, step).orders, id)
    ensures id !in s.orders ==>
              && step.Create? && Validate(step.draft, step.now).None? && id == s.nextId
              && Asked(Next(s, step).orders[id], step.draft)
  {
    hide Inv, Place, LeavesBooks, Close, CloseSet, Rebuild, Sound, ListsOpen, Asked;
    InvIsPlaced(s);
    match step
    case Create(draft, now) =>
      TakenIff(s, draft, now);
      if Validate(draft, now).None? && id in s.orders {
        SoundIsPositive(s, draft, now);
        MatchedIsOk(s, draft);
        PlacedKeepsTerms(s, draft, id);
      }
    case Cancel(order, user) =>
      CancelIff(s, order, user);
    case Cleanup(now) =>
      CleanupExpires(s, now);
    case Reopen(found) =>
  }

  /** In every run a stored order has the user and the terms of the request that created it. */
  lemma {:induction false} StoredAsAsked(steps: seq<Step>, id: nat) returns (n: nat)
    requires SoundRun(steps) && id in Run(steps).orders
    ensures n < |steps| && steps[n].Create? && Run(steps[..n]).nextId == id
    ensures Asked(Run(steps).orders[id], steps[n].draft)
  {
    hide Next, SoundStep, Inv, Asked;
    var last := |steps| - 1;
    PrefixIsSound(steps, last);
    RunKeepsInv(steps[..last]);
    assert SoundStep(Run(steps[..last]), steps[last]);
    StepKeepsAsked(Run(steps[..last]), steps[last], id);
    n := last;
    if id in Run(steps[..last]).orders {
      n := StoredAsAsked(steps[..last], id);
      assert steps[..last][..n] == steps[..n];
      AskedTerms(Run(steps[..last]).orders, Run(steps).orders, id, steps[n].draft);
    }
  }

  lemma AskedTerms(before: map<nat, Row>, after: map<nat, Row>, id: nat, draft: Draft)
    requires SameTerms(before, after, id) && Asked(before[id], draft)
    ensures Asked(after[id], draft)
  {
  }
}
