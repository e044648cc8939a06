/**
 The escrow service on a stored account. Amounts are stored as text of seven decimals, the way the
 database hands a numeric column out; every calculation goes through the codec of `Stroops`, and a
 release is written under a condition on the text that was read.
 */
module EscrowService {
  import opened Options
  import opened Escrow
  import opened Stroops

  // ---------------------------------------------------------------- amounts as text

  /** The amount a stored text stands for. */
  ghost function Units(text: string): int
    requires Canonical(text, 7)
  {
    WritesReadIffCanonical(text);
    ToStroops(text).value
  }

  /** Stored texts are read as their amounts, and what is written is a stored text of that amount. */
  lemma StoredText(text: string)
    requires Canonical(text, 7)
    ensures ToStroops(text) == Some(Units(text)) && FromStroops(Units(text)) == text
  {
    WritesReadIffCanonical(text);
  }

  lemma WrittenText(n: int)
    ensures Canonical(FromStroops(n), 7) && Units(FromStroops(n)) == n
  {
    ReadsWritten(n);
    WritesReadIffCanonical(FromStroops(n));
  }

  /** Comparing two stored texts compares their amounts, so the condition of a release is one on amounts. */
  lemma TextsCompareAsAmounts(a: string, b: string)
    requires Canonical(a, 7) && Canonical(b, 7)
    ensures a == b <==> Units(a) == Units(b)
  {
    StoredText(a);
    StoredText(b);
  }

  /** The quantity a release asks for: none given, or a text, which may not be a number. */
  function Asked(requested: Option<string>): Option<Option<int>> {
    match requested
    case None => Some(None)
    case Some(text) =>
      (match ToStroops(text)
       case None => None
       case Some(n) => Some(Some(n)))
  }

  // ---------------------------------------------------------------- the account

  /** What an operation answers and leaves, and the invariant it keeps unless it is forced. */
  ghost predicate Did(before: Account, after: Account, op: Operation, refusal: Option<Refusal>) {
    && after == Next(before, op)
    && (match Apply(before, op) case Ok(_) => refusal == None case Err(e) => refusal == Some(e))
    && (Inv(before) && !IsForced(op) ==> Inv(after))
  }

  lemma KeepsInv(before: Account, op: Operation)
    ensures Inv(before) && !IsForced(op) ==> Inv(Next(before, op))
  {
    hide Inv, Next;
    if Inv(before) && !IsForced(op) {
      StepKeepsInv(before, op);
    }
  }

  class EscrowAccount {
    const creator: nat
    const kind: Kind
    const required: int
    const amount: string
    const deadline: Option<int>
    const timeLock: Option<int>
    var status: Status
    var approvals: map<nat, bool>
    var milestones: map<nat, bool>
    var releasedAmount: string
    var dispute: Option<nat>

    ghost predicate Valid()
      reads this
    {
      Canonical(amount, 7) && Canonical(releasedAmount, 7)
    }

    ghost function View(): Account
      requires Valid()
      reads this
    {
      Account(creator, kind, status, required, approvals, milestones, Units(amount), Units(releasedAmount),
              deadline, timeLock, dispute)
    }

    /** calculateApprovalProgress. */
    predicate ThresholdMet()
      reads this
    {
      |Approving(approvals)| >= required
    }

    constructor (e: Account)
      ensures Valid() && View() == e
    {
      hide Canonical, Units, ToStroops, FromStroops;
      creator, kind, required, deadline, timeLock := e.creator, e.kind, e.required, e.deadline, e.timeLock;
      status, approvals, milestones, dispute := e.status, e.approvals, e.milestones, e.dispute;
      amount, releasedAmount := FromStroops(e.amount), FromStroops(e.released);
      WrittenText(e.amount);
      WrittenText(e.released);
    }

    method ApproveEscrow(user: nat) returns (refusal: Option<Refusal>)
      requires Valid()
      modifies this
      ensures Valid() && Did(old(View()), View(), Approve(user), refusal)
    {
      hide Canonical, Units, ToStroops, FromStroops, Inv, Approving;
      KeepsInv(View(), Approve(user));
      if status != Funded && status != Approved {
        return Some(WrongStatus);
      }
      if user !in approvals {
        return Some(NotSignatory);
      }
      if approvals[user] {
        return Some(AlreadyApproved);
      }
      approvals := approvals[user := true];
      if ThresholdMet() && status != Approved {
        status := Approved;
      }
      refusal := None;
    }

    method RevokeApproval(user: nat) returns (refusal: Option<Refusal>)
      requires Valid()
      modifies this
      ensures Valid() && Did(old(View()), View(), Revoke(user), refusal)
    {
      hide Canonical, Units, ToStroops, FromStroops, Inv, Approving;
      KeepsInv(View(), Revoke(user));
      if status != Funded {
        return Some(WrongStatus);
      }
      if user !in approvals {
        return Some(NotSignatory);
      }
      if !approvals[user] {
        return Some(NotApproved);
      }
      approvals := approvals[user := false];
      refusal := None;
    }

    method FundEscrow(user: nat) returns (refusal: Option<Refusal>)
      requires Valid()
      modifies this
      ensures Valid() && Did(old(View()), View(), Fund(user), refusal)
    {
      hide Canonical, Units, ToStroops, FromStroops, Inv, Approving;
      KeepsInv(View(), Fund(user));
      if status != Pending {
        return Some(WrongStatus);
      }
      if creator != user {
        return Some(NotCreator);
      }
      status := Funded;
      refusal := None;
    }

    /** The conditional update: it affects the row only while the text that was read is still there. */
    method UpdateWhere(expected: string, released: string, newStatus: Status) returns (affected: nat)
      modifies this`releasedAmount, this`status
      ensures affected == if old(releasedAmount) == expected then 1 else 0
      ensures releasedAmount == if affected == 1 then released else old(releasedAmount)
      ensures status == if affected == 1 then newStatus else old(status)
    {
      if releasedAmount != expected {
        return 0;
      }
      releasedAmount, status := released, newStatus;
      affected := 1;
    }

    /**
     releaseFunds. A text that is no number is an error and changes nothing. With nobody in between,
     the conditional update never misses: what was read and written again is the text that is stored.
     */
    method ReleaseFunds(admin: bool, requested: Option<string>, milestone: Option<nat>)
      returns (refusal: Option<Refusal>)
      requires Valid()
      modifies this
      ensures Valid() && refusal != Some(Conflict)
      ensures match Asked(requested)
              case Some(quantity) => Did(old(View()), View(), Release(admin, quantity, milestone), refusal)
              case None => View() == old(View()) && refusal.Some?
    {
      hide Canonical, Units, ToStroops, FromStroops, Inv, Approving;
      ghost var before := View();
      if !admin && status != Approved && status != PartiallyReleased {
        return Some(WrongStatus);
      }
      if !admin && !ThresholdMet() {
        return Some(ThresholdNotMet);
      }
      if milestone.Some? {
        if milestone.value !in milestones {
          return Some(MilestoneMissing);
        }
        if !milestones[milestone.value] {
          return Some(MilestoneOpen);
        }
      }
      StoredText(amount);
      StoredText(releasedAmount);
      var total, released := ToStroops(amount).value, ToStroops(releasedAmount).value;
      var remaining := total - released;
      var quantity := remaining;
      if requested.Some? {
        var asked := ToStroops(requested.value);
        if asked.None? {
          return Some(NotAnAmount);
        }
        quantity := asked.value;
      }
      if quantity <= 0 || quantity > remaining {
        return Some(InvalidAmount);
      }
      KeepsInv(before, Release(admin, Asked(requested).value, milestone));
      WrittenText(released + quantity);
      var newStatus := if released + quantity == total then Settled else PartiallyReleased;
      var affected := UpdateWhere(FromStroops(released), FromStroops(released + quantity), newStatus);
      if affected == 0 {
        return Some(Conflict);
      }
      refusal := None;
    }

    method RefundEscrow(user: nat, admin: bool) returns (refusal: Option<Refusal>)
      requires Valid()
      modifies this
      ensures Valid() && Did(old(View()), View(), Refund(user, admin), refusal)
    {
      hide Canonical, Units, ToStroops, FromStroops, Inv, Approving;
      KeepsInv(View(), Refund(user, admin));
      if status != Pending && status != AwaitingFunding && status != Funded && status != Expired {
        return Some(WrongStatus);
      }
      if creator != user && !admin {
        return Some(NotCreator);
      }
      StoredText(releasedAmount);
      if ToStroops(releasedAmount).value > 0 {
        return Some(AlreadyReleased);
      }
      status := Refunded;
      refusal := None;
    }

    /** The account expires and is refunded at once. */
    method HandleTimeout(now: int) returns (refusal: Option<Refusal>)
      requires Valid()
      modifies this
      ensures Valid() && Did(old(View()), View(), Timeout(now), refusal)
    {
      hide Canonical, Units, ToStroops, FromStroops, Inv, Approving;
      KeepsInv(View(), Timeout(now));
      if deadline.None? {
        return Some(NoDeadline);
      }
      if now < deadline.value {
        return Some(TooEarly);
      }
      if status != Pending && status != AwaitingFunding && status != Funded {
        return Some(WrongStatus);
      }
      status := Expired;
      status := Refunded;
      refusal := None;
    }

    /** The text of the whole amount becomes the released one. */
    method HandleTimeLockSettlement(now: int) returns (refusal: Option<Refusal>)
      requires Valid()
      modifies this
      ensures Valid() && Did(old(View()), View(), TimeLockSettle(now), refusal)
    {
      hide Canonical, Units, ToStroops, FromStroops, Inv, Approving;
      KeepsInv(View(), TimeLockSettle(now));
      if kind != TimeLocked {
        return Some(WrongKind);
      }
      if timeLock.None? {
        return Some(NoTimeLock);
      }
      if now < timeLock.value {
        return Some(TooEarly);
      }
      if status != Funded && status != PartiallyReleased {
        return Some(WrongStatus);
      }
      releasedAmount := amount;
      status := Settled;
      refusal := None;
    }

    method UpdateMilestone(user: nat, admin: bool, id: nat, completed: bool) returns (refusal: Option<Refusal>)
      requires Valid()
      modifies this
      ensures Valid() && Did(old(View()), View(), SetMilestone(user, admin, id, completed), refusal)
    {
      hide Canonical, Units, ToStroops, FromStroops, Inv, Approving;
      KeepsInv(View(), SetMilestone(user, admin, id, completed));
      if kind != MilestoneBased {
        return Some(WrongKind);
      }
      if status != Funded && status != Approved && status != PartiallyReleased {
        return Some(WrongStatus);
      }
      if user !in approvals && !admin {
        return Some(NotSignatory);
      }
      if id !in milestones {
        return Some(MilestoneMissing);
      }
      if completed && !milestones[id] {
        milestones := milestones[id := true];
      } else if !completed && milestones[id] {
        if !admin {
          return Some(NotAdmin);
        }
        milestones := milestones[id := false];
      } else {
        assert milestones[id := completed] == milestones;
      }
      refusal := None;
    }

    method RaiseDispute(user: nat) returns (refusal: Option<Refusal>)
      requires Valid()
      modifies this
      ensures Valid() && Did(old(View()), View(), FlagDispute(user), refusal)
    {
      hide Canonical, Units, ToStroops, FromStroops, Inv, Approving;
      KeepsInv(View(), FlagDispute(user));
      if status != Funded && status != Approved && status != PartiallyReleased {
        return Some(WrongStatus);
      }
      if creator != user && user !in approvals {
        return Some(NotParty);
      }
      if dispute.Some? {
        return Some(DisputeActive);
      }
      status := Disputed;
      refusal := None;
    }

    method SettleDispute(toCreator: bool) returns (refusal: Option<Refusal>)
      requires Valid()
      modifies this
      ensures Valid() && Did(old(View()), View(), ResolveDispute(toCreator), refusal)
    {
      hide Canonical, Units, ToStroops, FromStroops, Inv, Approving;
      KeepsInv(View(), ResolveDispute(toCreator));
      if status != Disputed {
        return Some(WrongStatus);
      }
      status := if toCreator then Refunded else Settled;
      dispute := None;
      refusal := None;
    }

    method CancelEscrow(user: nat, admin: bool) returns (refusal: Option<Refusal>)
      requires Valid()
      modifies this
      ensures Valid() && Did(old(View()), View(), Cancel(user, admin), refusal)
    {
      hide Canonical, Units, ToStroops, FromStroops, Inv, Approving;
      KeepsInv(View(), Cancel(user, admin));
      if status != Pending {
        return Some(WrongStatus);
      }
      if creator != user && !admin {
        return Some(NotCreator);
      }
      status := Cancelled;
      refusal := None;
    }
  }
}
