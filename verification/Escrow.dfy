/**
 The escrow status machine: M-of-N approvals, funding, release, refund, time-outs, the time
 lock, milestones and disputes. Amounts are integers of 1e-7. Each operation is one step.
 */
module Escrow {
  import opened Options

  datatype Status =
    | Pending | AwaitingFunding | Funded | Approved | PartiallyReleased
    | Settled | Refunded | Disputed | Expired | Cancelled

  datatype Kind = Standard | TimeLocked | MilestoneBased | TrustAccount

  function Approving(approvals: map<nat, bool>): set<nat> {
    set u | u in approvals && approvals[u]
  }

  datatype Account = Account(
    creator: nat, kind: Kind, status: Status, required: int, approvals: map<nat, bool>,
    milestones: map<nat, bool>, amount: int, released: int,
    deadline: Option<int>, timeLock: Option<int>, dispute: Option<nat>)
  {
    /** calculateApprovalProgress: how many signatories have approved. */
    function Approvals(): nat {
      |Approvers()|
    }

    function Approvers(): set<nat> {
      Approving(approvals)
    }

    predicate ThresholdMet() {
      Approvals() >= required
    }

    predicate IsFinal() {
      status == Settled || status == Refunded || status == Cancelled
    }
  }

  datatype Refusal =
    | WrongStatus | NotSignatory | AlreadyApproved | NotApproved | NotCreator | NotParty | NotAdmin
    | ThresholdNotMet | MilestoneMissing | MilestoneOpen | InvalidAmount | AlreadyReleased
    | NoDeadline | TooEarly | WrongKind | NoTimeLock | DisputeActive
    | TooFewSignatories | NoMilestones | MilestoneSum | TooManyPending | SameSignatoryTwice
    | NotAnAmount | Conflict

  datatype Operation =
    | Approve(user: nat)
    | Revoke(user: nat)
    | Fund(user: nat)
    | Release(admin: bool, requested: Option<int>, milestone: Option<nat>)
    | Refund(user: nat, admin: bool)
    | Timeout(now: int)
    | TimeLockSettle(now: int)
    | SetMilestone(user: nat, admin: bool, id: nat, completed: bool)
    | FlagDispute(user: nat)
    | ResolveDispute(toCreator: bool)
    | Cancel(user: nat, admin: bool)

  // ---------------------------------------------------------------- creation

  datatype Draft = Draft(
    creator: nat, kind: Kind, required: int, signatories: seq<nat>, milestones: seq<int>, amount: int,
    deadline: Option<int>, timeLock: Option<int>)

  function Sum(amounts: seq<int>): int {
    if amounts == [] then 0 else Sum(amounts[..|amounts| - 1]) + amounts[|amounts| - 1]
  }

  /** Milestones 0 to n - 1, none completed. */
  function Unmarked(n: nat): map<nat, bool> {
    if n == 0 then map[] else Unmarked(n - 1)[n - 1 := false]
  }

  predicate HasDuplicates(users: seq<nat>) {
    exists i, j :: 0 <= i < j < |users| && users[i] == users[j]
  }

  /**
   createEscrow; `pending` is how many pending escrows the creator has. The milestone amounts may
   miss the total by one unit. Two rows for one signatory violate the unique index of the
   signatory table, which undoes the whole creation.
   */
  function Create(d: Draft, pending: nat): Result<Account, Refusal> {
    var off := Sum(d.milestones) - d.amount;
    if d.required > |d.signatories| then Err(TooFewSignatories)
    else if d.kind == TimeLocked && d.timeLock.None? then Err(NoTimeLock)
    else if d.kind == MilestoneBased && d.milestones == [] then Err(NoMilestones)
    else if d.kind == MilestoneBased && (off > 1 || off < -1) then Err(MilestoneSum)
    else if pending >= 50 then Err(TooManyPending)
    else if HasDuplicates(d.signatories) then Err(SameSignatoryTwice)
    else
      Ok(Account(d.creator, d.kind, Pending, d.required, map u | u in d.signatories :: false,
                 Unmarked(|d.milestones|), d.amount, 0, d.deadline, d.timeLock, None))
  }

  // ---------------------------------------------------------------- operations

  function AfterApprove(e: Account, user: nat): Account {
    var e' := e.(approvals := e.approvals[user := true]);
    if e'.ThresholdMet() && e.status != Approved then e'.(status := Approved) else e'
  }

  function ReleaseQuantity(e: Account, requested: Option<int>): int {
    if requested.Some? then requested.value else e.amount - e.released
  }

  predicate CanPay(e: Account, quantity: int) {
    0 < quantity <= e.amount - e.released
  }

  function AfterRelease(e: Account, quantity: int): Account {
    var released := e.released + quantity;
    e.(released := released, status := if released == e.amount then Settled else PartiallyReleased)
  }

  predicate CanBeMarked(e: Account) {
    e.status == Funded || e.status == Approved || e.status == PartiallyReleased
  }

  function Apply(e: Account, op: Operation): Result<Account, Refusal> {
    match op
    case Approve(user) =>
      if e.status != Funded && e.status != Approved then Err(WrongStatus)
      else if user !in e.approvals then Err(NotSignatory)
      else if e.approvals[user] then Err(AlreadyApproved)
      else Ok(AfterApprove(e, user))
    case Revoke(user) =>
      if e.status != Funded then Err(WrongStatus)
      else if user !in e.approvals then Err(NotSignatory)
      else if !e.approvals[user] then Err(NotApproved)
      else Ok(e.(approvals := e.approvals[user := false]))
    case Fund(user) =>
      if e.status != Pending then Err(WrongStatus)
      else if e.creator != user then Err(NotCreator)
      else Ok(e.(status := Funded))
    case Release(admin, requested, milestone) =>
      if !admin && e.status != Approved && e.status != PartiallyReleased then Err(WrongStatus)
      else if !admin && !e.ThresholdMet() then Err(ThresholdNotMet)
      else if milestone.Some? && milestone.value !in e.milestones then Err(MilestoneMissing)
      else if milestone.Some? && !e.milestones[milestone.value] then Err(MilestoneOpen)
      else if !CanPay(e, ReleaseQuantity(e, requested)) then Err(InvalidAmount)
      else Ok(AfterRelease(e, ReleaseQuantity(e, requested)))
    case Refund(user, admin) =>
      if e.status != Pending && e.status != AwaitingFunding && e.status != Funded && e.status != Expired then
        Err(WrongStatus)
      else if e.creator != user && !admin then Err(NotCreator)
      else if e.released > 0 then Err(AlreadyReleased)
      else Ok(e.(status := Refunded))
    case Timeout(now) =>
      if e.deadline.None? then Err(NoDeadline)
      else if now < e.deadline.value then Err(TooEarly)
      else if e.status != Pending && e.status != AwaitingFunding && e.status != Funded then Err(WrongStatus)
      else Ok(e.(status := Refunded))
    case TimeLockSettle(now) =>
      if e.kind != TimeLocked then Err(WrongKind)
      else if e.timeLock.None? then Err(NoTimeLock)
      else if now < e.timeLock.value then Err(TooEarly)
      else if e.status != Funded && e.status != PartiallyReleased then Err(WrongStatus)
      else Ok(e.(released := e.amount, status := Settled))
    case SetMilestone(user, admin, id, completed) =>
      if e.kind != MilestoneBased then Err(WrongKind)
      else if !CanBeMarked(e) then Err(WrongStatus)
      else if user !in e.approvals && !admin then Err(NotSignatory)
      else if id !in e.milestones then Err(MilestoneMissing)
      else if !completed && e.milestones[id] && !admin then Err(NotAdmin)
      else Ok(e.(milestones := e.milestones[id := completed]))
    case FlagDispute(user) =>
      if !CanBeMarked(e) then Err(WrongStatus)
      else if e.creator != user && user !in e.approvals then Err(NotParty)
      else if e.dispute.Some? then Err(DisputeActive)
      else Ok(e.(status := Disputed))
    case ResolveDispute(toCreator) =>
      if e.status != Disputed then Err(WrongStatus)
      else Ok(e.(status := if toCreator then Refunded else Settled, dispute := None))
    case Cancel(user, admin) =>
      if e.status != Pending then Err(WrongStatus)
      else if e.creator != user && !admin then Err(NotCreator)
      else Ok(e.(status := Cancelled))
  }

  /** A refused operation changes nothing. */
  function Next(e: Account, op: Operation): Account {
    match Apply(e, op)
    case Ok(e') => e'
    case Err(_) => e
  }

  function Run(e: Account, ops: seq<Operation>): Account {
    if ops == [] then e else Next(Run(e, ops[..|ops| - 1]), ops[|ops| - 1])
  }

  // ---------------------------------------------------------------- what every run keeps

  predicate IsForced(op: Operation) {
    op.Release? && op.admin
  }

  ghost predicate Inv(e: Account) {
    && 1 <= e.required
    && e.status != AwaitingFunding && e.status != Expired
    && (e.status == Pending ==> e.Approvals() == 0 && e.released == 0)
    && (e.status == Funded ==> e.Approvals() < e.required && e.released == 0)
    && (e.status == Approved ==> e.Approvals() >= e.required && e.released == 0)
    && (e.status == PartiallyReleased ==> e.Approvals() >= e.required && 0 < e.released < e.amount)
    && (e.status == Cancelled ==> e.released == 0)
  }

  /** Without disputes, money is refunded whole or released whole. */
  ghost predicate AllOrNothing(e: Account) {
    && e.status != Disputed
    && (e.status == Refunded ==> e.released == 0)
    && (e.status == Settled ==> e.released == e.amount)
  }

  ghost predicate Regular(ops: seq<Operation>) {
    forall i :: 0 <= i < |ops| ==> !IsForced(ops[i])
  }

  lemma ApprovalCounts(e: Account, user: nat)
    requires user in e.approvals && !e.approvals[user]
    ensures e.(approvals := e.approvals[user := true]).Approvals() == e.Approvals() + 1
  {
    var e' := e.(approvals := e.approvals[user := true]);
    assert e'.Approvers() == e.Approvers() + {user} && user !in e.Approvers();
  }

  lemma RevocationCounts(e: Account, user: nat)
    requires user in e.approvals && e.approvals[user]
    ensures e.(approvals := e.approvals[user := false]).Approvals() == e.Approvals() - 1
  {
    var e' := e.(approvals := e.approvals[user := false]);
    assert e'.Approvers() == e.Approvers() - {user} && user in e.Approvers();
  }

  function Members(users: seq<nat>): set<nat> {
    set u | u in users
  }

  /** Distinct signatories get a row each. */
  lemma {:induction false} OneRowEach(users: seq<nat>)
    requires !HasDuplicates(users)
    ensures |Members(users)| == |users|
  {
    if users == [] {
      assert Members(users) == {};
    } else {
      var n := |users| - 1;
      var front, last := users[..n], users[n];
      OneRowEach(front);
      assert last !in front && users == front + [last];
      assert Members(users) == Members(front) + {last};
    }
  }

  lemma CreatedIsGood(d: Draft, pending: nat)
    requires Create(d, pending).Ok? && 1 <= d.required
    ensures var e := Create(d, pending).value;
            Inv(e) && AllOrNothing(e) && e.required <= |e.approvals.Keys| == |d.signatories| && pending < 50
  {
    var e := Create(d, pending).value;
    assert e.Approvers() == {};
    OneRowEach(d.signatories);
    assert e.approvals.Keys == Members(d.signatories);
  }

  lemma StepKeepsInv(e: Account, op: Operation)
    requires Inv(e) && !IsForced(op)
    ensures Inv(Next(e, op))
  {
    if Apply(e, op).Ok? {
      match op
      case Approve(user) => ApprovalCounts(e, user);
      case Revoke(user) => RevocationCounts(e, user);
      case _ =>
    }
  }

  /** The status of an escrow tells its approvals and releases, after every run without forced releases. */
  lemma {:induction false} RunKeepsInv(e: Account, ops: seq<Operation>)
    requires Inv(e) && Regular(ops)
    ensures Inv(Run(e, ops))
  {
    if ops != [] {
      RunKeepsInv(e, ops[..|ops| - 1]);
      StepKeepsInv(Run(e, ops[..|ops| - 1]), ops[|ops| - 1]);
    }
  }

  /** In runs without disputes and forced releases, nothing is both refunded and released. */
  lemma {:induction false} RunIsAllOrNothing(e: Account, ops: seq<Operation>)
    requires Inv(e) && AllOrNothing(e) && Regular(ops)
    requires forall i :: 0 <= i < |ops| ==> !ops[i].FlagDispute?
    ensures AllOrNothing(Run(e, ops))
  {
    if ops != [] {
      var before := Run(e, ops[..|ops| - 1]);
      RunIsAllOrNothing(e, ops[..|ops| - 1]);
      RunKeepsInv(e, ops[..|ops| - 1]);
      assert !ops[|ops| - 1].FlagDispute? && !IsForced(ops[|ops| - 1]);
      StepIsAllOrNothing(before, ops[|ops| - 1]);
    }
  }

  lemma StepIsAllOrNothing(e: Account, op: Operation)
    requires Inv(e) && AllOrNothing(e) && !op.FlagDispute? && !IsForced(op)
    ensures AllOrNothing(Next(e, op))
  {
    hide Approving;
  }

  /** In every run, forced releases included, no more is released than the escrow holds. */
  lemma {:induction false} RunStaysWithinAmount(e: Account, ops: seq<Operation>)
    requires 0 <= e.released <= e.amount
    ensures Run(e, ops).amount == e.amount && 0 <= Run(e, ops).released <= e.amount
  {
    if ops != [] {
      RunStaysWithinAmount(e, ops[..|ops| - 1]);
      StaysWithinAmount(Run(e, ops[..|ops| - 1]), ops[|ops| - 1]);
    }
  }

  lemma StaysWithinAmount(e: Account, op: Operation)
    requires 0 <= e.released <= e.amount
    ensures Next(e, op).amount == e.amount && 0 <= Next(e, op).released <= e.amount
  {
    hide Approving;
  }

  /** What holds after forced releases too: what the status tells about the released amount. */
  ghost predicate Accounted(e: Account) {
    && (e.status == Pending || e.status == Funded || e.status == Approved ==> e.released == 0)
    && (e.status == PartiallyReleased ==> 0 < e.released < e.amount)
    && e.status != AwaitingFunding && e.status != Expired
    && (0 <= e.released || e.released == e.amount)
  }

  lemma StepKeepsAccounted(e: Account, op: Operation)
    requires Accounted(e)
    ensures Accounted(Next(e, op))
  {
    hide Approving;
  }

  /** Every run from creation, forced releases included. */
  lemma {:induction false} RunKeepsAccounted(d: Draft, pending: nat, ops: seq<Operation>)
    requires Create(d, pending).Ok?
    ensures Accounted(Run(Create(d, pending).value, ops))
  {
    if ops != [] {
      hide Accounted, Create;
      RunKeepsAccounted(d, pending, ops[..|ops| - 1]);
      StepKeepsAccounted(Run(Create(d, pending).value, ops[..|ops| - 1]), ops[|ops| - 1]);
    }
  }

  lemma StepGrowsIff(e: Account, op: Operation)
    requires Accounted(e)
    ensures Next(e, op).released >= e.released <==> !SettlesNegative(e, op)
  {
    hide Approving;
  }

  /** A due time lock settles a funded escrow of negative amount. */
  predicate SettlesNegative(e: Account, op: Operation) {
    && op.TimeLockSettle? && e.kind == TimeLocked && e.timeLock.Some? && e.timeLock.value <= op.now
    && e.status == Funded && e.amount < 0
  }

  /**
   After every run from creation, forced releases included, an operation lowers the released amount
   exactly when it settles a funded escrow of negative amount: creation does not check the sign.
   */
  lemma ReleasedGrowsIff(d: Draft, pending: nat, ops: seq<Operation>, op: Operation)
    requires Create(d, pending).Ok?
    ensures var e := Run(Create(d, pending).value, ops);
            Next(e, op).released >= e.released <==> !SettlesNegative(e, op)
  {
    RunKeepsAccounted(d, pending, ops);
    hide Accounted, Create, SettlesNegative, Next, Run;
    StepGrowsIff(Run(Create(d, pending).value, ops), op);
  }

  lemma NegativeAmountShrinks(creator: nat, a: nat, b: nat)
    requires a != b
    ensures var d := Draft(creator, TimeLocked, 2, [a, b], [], -5, None, Some(0));
            && Create(d, 0).Ok?
            && var e := Run(Create(d, 0).value, [Fund(creator)]);
            && e.released == 0 && Next(e, TimeLockSettle(1)).released == -5
  {
    var e := Create(Draft(creator, TimeLocked, 2, [a, b], [], -5, None, Some(0)), 0).value;
    var ops := [Fund(creator)];
    assert ops[..0] == [] && Run(e, ops) == Next(Run(e, []), Fund(creator));
  }

  /**
   A settled, refunded or cancelled escrow changes exactly when an administrator forces a
   release of a payable quantity: the force skips the status.
   */
  lemma FinalChangesIff(e: Account, op: Operation)
    requires e.IsFinal()
    ensures Apply(e, op).Ok? <==>
            && IsForced(op) && CanPay(e, ReleaseQuantity(e, op.requested))
            && (op.milestone.Some? ==> op.milestone.value in e.milestones && e.milestones[op.milestone.value])
  {
  }

  /** Final statuses are never left in runs without forced releases. */
  lemma {:induction false} FinalIsForever(e: Account, ops: seq<Operation>)
    requires e.IsFinal() && Regular(ops)
    ensures Run(e, ops) == e
  {
    if ops != [] {
      FinalIsForever(e, ops[..|ops| - 1]);
      FinalChangesIff(e, ops[|ops| - 1]);
      assert !IsForced(ops[|ops| - 1]);
    }
  }

  /** A forced release can leave a refunded escrow. */
  lemma ForcedReleaseAfterRefund(creator: nat, a: nat, b: nat)
    requires a != b
    ensures var d := Draft(creator, Standard, 2, [a, b], [], 10, None, None);
            && Create(d, 0).Ok?
            && var e := Next(Create(d, 0).value, Refund(creator, false));
            && e.status == Refunded && Next(e, Release(true, Some(4), None)).status == PartiallyReleased
  {
  }

  // ---------------------------------------------------------------- the threshold can be met

  function Signatures(users: seq<nat>): seq<Operation> {
    if users == [] then [] else Signatures(users[..|users| - 1]) + [Approve(users[|users| - 1])]
  }

  /** The escrow after it was funded and the first signatories have signed. */
  ghost predicate SignedBy(e: Account, d: Draft, n: nat)
    requires n <= |d.signatories|
  {
    && e.required == d.required && e.approvals.Keys == (set u | u in d.signatories)
    && (forall i :: 0 <= i < |d.signatories| ==> e.approvals[d.signatories[i]] == (i < n))
    && e.Approvals() == n && e.status == if n >= d.required then Approved else Funded
  }

  lemma SignsOnce(e: Account, d: Draft, n: nat)
    requires n < |d.signatories| && !HasDuplicates(d.signatories) && 1 <= d.required && SignedBy(e, d, n)
    ensures SignedBy(Next(e, Approve(d.signatories[n])), d, n + 1)
  {
    var user := d.signatories[n];
    assert user in e.approvals && !e.approvals[user];
    ApprovalCounts(e, user);
    assert forall i :: 0 <= i < |d.signatories| && i != n ==> d.signatories[i] != user;
    assert Next(e, Approve(user)).approvals == e.approvals[user := true];
  }

  lemma {:induction false} AllSign(e: Account, d: Draft, n: nat)
    requires n <= |d.signatories| && !HasDuplicates(d.signatories) && 1 <= d.required && SignedBy(e, d, 0)
    ensures SignedBy(Run(e, Signatures(d.signatories[..n])), d, n)
  {
    hide SignedBy, Next, HasDuplicates;
    if n > 0 {
      AllSign(e, d, n - 1);
      assert d.signatories[..n][..n - 1] == d.signatories[..n - 1];
      var signed := Signatures(d.signatories[..n]);
      assert signed[..|signed| - 1] == Signatures(d.signatories[..n - 1]);
      SignsOnce(Run(e, Signatures(d.signatories[..n - 1])), d, n - 1);
    }
  }

  /**
   Whatever is created can be approved: once funded, the first signatories in any listed order
   approve it, and it is approved exactly from the required number of signatures on.
   */
  lemma ThresholdIsReachable(d: Draft, pending: nat, n: nat)
    requires Create(d, pending).Ok? && 1 <= d.required && n <= |d.signatories|
    ensures var e := Next(Create(d, pending).value, Fund(d.creator));
            Run(e, Signatures(d.signatories[..n])).status == if n >= d.required then Approved else Funded
  {
    var e := Next(Create(d, pending).value, Fund(d.creator));
    assert e.Approvers() == {};
    assert SignedBy(e, d, 0);
    AllSign(e, d, n);
  }
}
