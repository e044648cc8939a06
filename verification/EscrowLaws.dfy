/**
 The rules of an escrow, told on its fields: when each operation is permitted and what it does, how
 much a release pays, and over whole runs who has brought about each signature, mark and status.
 */
module EscrowLaws {
  import opened Options
  import opened Escrow

  // ---------------------------------------------------------------- creation

  lemma {:induction false} NothingIsMarked(n: nat)
    ensures forall m: nat :: m in Unmarked(n) <==> m < n
    ensures forall m :: m in Unmarked(n) ==> !Unmarked(n)[m]
  {
    if n > 0 {
      NothingIsMarked(n - 1);
    }
  }

  /** The escrow says what the draft says, waits for its money, and is neither signed nor marked. */
  ghost predicate AsDrafted(e: Account, d: Draft) {
    && e.creator == d.creator && e.kind == d.kind && e.required == d.required && e.amount == d.amount
    && e.deadline == d.deadline && e.timeLock == d.timeLock
    && e.status == Pending && e.released == 0 && e.dispute == None
    && (forall u :: u in e.approvals <==> u in d.signatories) && (forall u :: u in e.approvals ==> !e.approvals[u])
    && (forall m: nat :: m in e.milestones <==> m < |d.milestones|)
    && (forall m :: m in e.milestones ==> !e.milestones[m])
  }

  /**
   An escrow is created exactly when enough different signatories are named, what its kind needs is
   there, its milestones miss the amount by one unit at most, and the creator has fewer than fifty pending.
   */
  lemma CreatedIff(d: Draft, pending: nat)
    ensures Create(d, pending).Ok? <==>
            && d.required <= |d.signatories| && pending < 50
            && (forall i, j :: 0 <= i < j < |d.signatories| ==> d.signatories[i] != d.signatories[j])
            && (d.kind == TimeLocked ==> d.timeLock != None)
            && (d.kind == MilestoneBased ==> d.milestones != [] && d.amount - 1 <= Sum(d.milestones) <= d.amount + 1)
    ensures Create(d, pending).Ok? ==> AsDrafted(Create(d, pending).value, d)
  {
    NothingIsMarked(|d.milestones|);
  }

  // ---------------------------------------------------------------- releases

  /** The signatures are enough: those signatories that have approved. */
  ghost predicate Signed(e: Account) {
    |set u | u in e.approvals && e.approvals[u]| >= e.required
  }

  /** A release needs signatures and their status, or an administrator; a milestone it names must be marked. */
  ghost predicate MayRelease(e: Account, admin: bool, milestone: Option<nat>) {
    && (admin || (e.status in {Approved, PartiallyReleased} && Signed(e)))
    && (milestone == None || (milestone.value in e.milestones && e.milestones[milestone.value]))
  }

  lemma SignedIff(e: Account)
    ensures Signed(e) <==> e.ThresholdMet()
  {
    assert e.Approvers() == set u | u in e.approvals && e.approvals[u];
  }

  /** Without an amount a release pays all that is left, as long as something is, and settles the escrow. */
  lemma ReleasesTheRest(e: Account, admin: bool, milestone: Option<nat>)
    ensures Next(e, Release(admin, None, milestone)) ==
            if MayRelease(e, admin, milestone) && e.released < e.amount
            then e.(released := e.amount, status := Settled)
            else e
  {
    SignedIff(e);
  }

  /** With an amount it pays exactly that, from one unit up to all that is left, and settles when all is paid. */
  lemma ReleasesTheAmount(e: Account, admin: bool, x: int, milestone: Option<nat>)
    ensures Next(e, Release(admin, Some(x), milestone)) ==
            if MayRelease(e, admin, milestone) && 0 < x <= e.amount - e.released
            then
              e.(released := e.released + x,
              status := if e.amount - e.released == x then Settled else PartiallyReleased)
            else e
  {
    SignedIff(e);
  }

  // ---------------------------------------------------------------- guards

  /** What each operation asks of the escrow and of who requests it. */
  ghost predicate Permitted(e: Account, op: Operation) {
    match op
    case Approve(user) => e.status in {Funded, Approved} && user in e.approvals && !e.approvals[user]
    case Revoke(user) => e.status == Funded && user in e.approvals && e.approvals[user]
    case Fund(user) => e.status == Pending && user == e.creator
    case Release(admin, requested, milestone) =>
      && MayRelease(e, admin, milestone) && e.released < e.amount
      && (requested == None || 0 < requested.value <= e.amount - e.released)
    case Refund(user, admin) =>
      e.status in {Pending, AwaitingFunding, Funded, Expired} && (user == e.creator || admin) && e.released <= 0
    case Timeout(now) =>
      e.deadline != None && e.deadline.value <= now && e.status in {Pending, AwaitingFunding, Funded}
    case TimeLockSettle(now) =>
      && e.kind == TimeLocked && e.timeLock != None && e.timeLock.value <= now
      && e.status in {Funded, PartiallyReleased}
    case SetMilestone(user, admin, id, completed) =>
      && e.kind == MilestoneBased && e.status in {Funded, Approved, PartiallyReleased} && id in e.milestones
      && (admin || (user in e.approvals && (completed || !e.milestones[id])))
    case FlagDispute(user) =>
      && e.status in {Funded, Approved, PartiallyReleased} && (user == e.creator || user in e.approvals)
      && e.dispute == None
    case ResolveDispute(_) => e.status == Disputed
    case Cancel(user, admin) => e.status == Pending && (user == e.creator || admin)
  }

  /** The status an operation other than a signature, a release or a mark leads to. */
  ghost predicate LeadsTo(op: Operation, status: Status) {
    && (op.Fund? ==> status == Funded)
    && (op.Refund? || op.Timeout? || op == ResolveDispute(true) ==> status == Refunded)
    && (op.TimeLockSettle? || op == ResolveDispute(false) ==> status == Settled)
    && (op.FlagDispute? ==> status == Disputed)
    && (op.Cancel? ==> status == Escrow.Status.Cancelled)
  }

  /** An operation is done exactly when it is permitted; a time-out, for one, exactly from the deadline on. */
  lemma PermittedIff(e: Account, op: Operation)
    ensures Apply(e, op).Ok? <==> Permitted(e, op)
    ensures if Permitted(e, op) then LeadsTo(op, Next(e, op).status) else Next(e, op) == e
    ensures Permitted(e, op) && op.TimeLockSettle? ==> Next(e, op).released == e.amount
    ensures Next(e, op).dispute == if Permitted(e, op) && op.ResolveDispute? then None else e.dispute
  {
    SignedIff(e);
  }

  // ---------------------------------------------------------------- who changes what

  ghost predicate SameTerms(e: Account, e': Account) {
    && e'.creator == e.creator && e'.kind == e.kind && e'.required == e.required && e'.amount == e.amount
    && e'.deadline == e.deadline && e'.timeLock == e.timeLock
    && e'.approvals.Keys == e.approvals.Keys && e'.milestones.Keys == e.milestones.Keys
  }

  /** Signatories sign and withdraw for themselves only; marks are set by signatories and unset by administrators. */
  ghost predicate FlagsAreTheirs(e: Account, op: Operation, e': Account)
    requires SameTerms(e, e')
  {
    && (forall u :: u in e.approvals && e'.approvals[u] != e.approvals[u] ==>
                      op == (if e'.approvals[u] then Approve(u) else Revoke(u)))
    && (forall m :: m in e.milestones && e'.milestones[m] != e.milestones[m] ==>
                      && op.SetMilestone? && op.id == m && op.completed == e'.milestones[m]
                      && (op.admin || (op.user in e.approvals && op.completed)))
  }

  /** What it takes to bring about a status. */
  ghost predicate BroughtAbout(e: Account, op: Operation, e': Account) {
    match e'.status
    case Funded => e.status == Pending && op == Fund(e.creator)
    case Approved => e.status == Funded && op.Approve? && Signed(e')
    case PartiallyReleased => op.Release?
    case Settled =>
      || op.Release?
      || (op.TimeLockSettle? && e.timeLock != None && e.timeLock.value <= op.now)
      || (op == ResolveDispute(false) && e.status == Disputed)
    case Refunded =>
      || (op.Refund? && (op.user == e.creator || op.admin) && e.released <= 0)
      || (op.Timeout? && e.deadline != None && e.deadline.value <= op.now)
      || (op == ResolveDispute(true) && e.status == Disputed)
    case Disputed => op.FlagDispute? && (op.user == e.creator || op.user in e.approvals)
    case Cancelled => e.status == Pending && op.Cancel? && (op.user == e.creator || op.admin)
    case _ => false
  }

  lemma StepKeepsTerms(e: Account, op: Operation)
    ensures SameTerms(e, Next(e, op)) && FlagsAreTheirs(e, op, Next(e, op))
    ensures Next(e, op).released != e.released ==> op.Release? || op.TimeLockSettle?
  {
    hide Approving;
  }

  lemma StepBringsAbout(e: Account, op: Operation)
    ensures Next(e, op).status != e.status ==> BroughtAbout(e, op, Next(e, op))
  {
    SignedIff(Next(e, op));
    hide Approving, Signed;
  }

  /** No operation changes the terms, and every change of a signature, a mark, a payment or the status has its cause. */
  lemma StepIsAuthorised(e: Account, op: Operation)
    ensures var e' := Next(e, op);
            && SameTerms(e, e') && FlagsAreTheirs(e, op, e')
            && (e'.released != e.released ==> op.Release? || op.TimeLockSettle?)
            && (e'.status != e.status ==> BroughtAbout(e, op, e'))
  {
    hide Next, SameTerms, FlagsAreTheirs, BroughtAbout;
    StepKeepsTerms(e, op);
    StepBringsAbout(e, op);
  }

  lemma {:induction false} RunKeepsTerms(e: Account, ops: seq<Operation>)
    ensures SameTerms(e, Run(e, ops))
  {
    if ops != [] {
      hide Next;
      RunKeepsTerms(e, ops[..|ops| - 1]);
      StepIsAuthorised(Run(e, ops[..|ops| - 1]), ops[|ops| - 1]);
    }
  }

  /** In every run the status is the one at the start, or some operation of the run has brought it about. */
  lemma {:induction false} StatusWasBroughtAbout(e: Account, ops: seq<Operation>) returns (n: nat)
    requires Run(e, ops).status != e.status
    ensures n < |ops| && BroughtAbout(Run(e, ops[..n]), ops[n], Run(e, ops[..n + 1]))
    ensures Run(e, ops[..n + 1]).status == Run(e, ops).status != Run(e, ops[..n]).status
  {
    hide Next, BroughtAbout, FlagsAreTheirs;
    var last := |ops| - 1;
    StepIsAuthorised(Run(e, ops[..last]), ops[last]);
    assert ops[..last + 1] == ops;
    n := last;
    if Run(e, ops[..last]).status == Run(e, ops).status {
      n := StatusWasBroughtAbout(e, ops[..last]);
      assert ops[..last][..n] == ops[..n] && ops[..last][..n + 1] == ops[..n + 1];
    }
  }

  /** Who has signed in a run from creation signed in person, and has not withdrawn since. */
  lemma {:induction false} SignedInPerson(d: Draft, pending: nat, ops: seq<Operation>, user: nat) returns (n: nat)
    requires Create(d, pending).Ok? && user in Run(Create(d, pending).value, ops).approvals
    requires Run(Create(d, pending).value, ops).approvals[user]
    ensures n < |ops| && ops[n] == Approve(user) && Permitted(Run(Create(d, pending).value, ops[..n]), ops[n])
    ensures forall k :: n < k < |ops| && ops[k] == Revoke(user) ==>
                          !Permitted(Run(Create(d, pending).value, ops[..k]), ops[k])
  {
    hide Next, BroughtAbout, Permitted;
    var e, last := Create(d, pending).value, |ops| - 1;
    assert ops != [];
    var before := Run(e, ops[..last]);
    StepIsAuthorised(before, ops[last]);
    PermittedIff(before, ops[last]);
    n := last;
    if before.approvals[user] {
      n := SignedInPerson(d, pending, ops[..last], user);
      forall k | n < k < |ops| && ops[k] == Revoke(user) ensures !Permitted(Run(e, ops[..k]), ops[k]) {
        if k < last {
          assert ops[..last][..k] == ops[..k] && ops[..last][k] == Revoke(user);
        } else {
          RevokeTakesBack(before, user);
        }
      }
      assert ops[..last][..n] == ops[..n];
    }
  }

  lemma RevokeTakesBack(e: Account, user: nat)
    requires user in e.approvals && Next(e, Revoke(user)).approvals[user]
    ensures e.approvals[user] ==> !Permitted(e, Revoke(user))
  {
  }

  // ---------------------------------------------------------------- milestones

  /** A marked milestone was marked in the run, and no administrator has unset it since. */
  lemma {:induction false} MarkedInTheRun(d: Draft, pending: nat, ops: seq<Operation>, m: nat) returns (n: nat)
    requires Create(d, pending).Ok? && m in Run(Create(d, pending).value, ops).milestones
    requires Run(Create(d, pending).value, ops).milestones[m]
    ensures n < |ops| && ops[n].SetMilestone? && ops[n].id == m && ops[n].completed
    ensures Permitted(Run(Create(d, pending).value, ops[..n]), ops[n])
    ensures forall k :: n < k < |ops| && ops[k].SetMilestone? && ops[k].id == m && !ops[k].completed ==>
                          !Permitted(Run(Create(d, pending).value, ops[..k]), ops[k])
  {
    hide Next, BroughtAbout, Permitted;
    NothingIsMarked(|d.milestones|);
    var e, last := Create(d, pending).value, |ops| - 1;
    assert ops != [];
    var before := Run(e, ops[..last]);
    StepIsAuthorised(before, ops[last]);
    PermittedIff(before, ops[last]);
    n := last;
    if before.milestones[m] {
      n := MarkedInTheRun(d, pending, ops[..last], m);
      forall k | n < k < |ops| && ops[k].SetMilestone? && ops[k].id == m && !ops[k].completed
        ensures !Permitted(Run(e, ops[..k]), ops[k])
      {
        if k < last {
          assert ops[..last][..k] == ops[..k] && ops[..last][k] == ops[k];
        } else {
          UnsetTakesBack(before, ops[k]);
        }
      }
      assert ops[..last][..n] == ops[..n];
    }
  }

  lemma UnsetTakesBack(e: Account, op: Operation)
    requires op.SetMilestone? && !op.completed && op.id in e.milestones && Next(e, op).milestones[op.id]
    ensures !Permitted(e, op)
  {
  }

  /** In every run, forced releases included, a release for a milestone is paid only while the milestone is marked. */
  lemma PaidWhenMarked(d: Draft, pending: nat, ops: seq<Operation>, n: nat) returns (k: nat)
    requires Create(d, pending).Ok? && n < |ops| && ops[n].Release? && ops[n].milestone != None
    requires Apply(Run(Create(d, pending).value, ops[..n]), ops[n]).Ok?
    ensures k < n && ops[k].SetMilestone? && ops[k].id == ops[n].milestone.value && ops[k].completed
    ensures Permitted(Run(Create(d, pending).value, ops[..k]), ops[k])
    ensures forall l :: k < l < n && ops[l].SetMilestone? && ops[l].id == ops[k].id && !ops[l].completed ==>
                          !Permitted(Run(Create(d, pending).value, ops[..l]), ops[l])
  {
    var e, m := Run(Create(d, pending).value, ops[..n]), ops[n].milestone.value;
    assert m in e.milestones && e.milestones[m] by {
      PermittedIff(e, ops[n]);
    }
    hide Run, Permitted, Create, Apply;
    k := MarkedInTheRun(d, pending, ops[..n], m);
    assert ops[..n][..k] == ops[..k];
    forall l | k < l < n && ops[l].SetMilestone? && ops[l].id == ops[k].id && !ops[l].completed
      ensures !Permitted(Run(Create(d, pending).value, ops[..l]), ops[l])
    {
      assert ops[..n][..l] == ops[..l] && ops[..n][l] == ops[l];
    }
  }
}
