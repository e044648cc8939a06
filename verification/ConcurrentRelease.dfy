/**
 releaseFunds as concurrent clients run it, between all other operations on the account: read the
 row, compute the new amount, then write it under the condition that the released amount is still
 the one that was read. Any number of clients take these steps in any order. The condition is on
 the released amount only, not on the status. Amounts are integers of 1e-7; stored texts compare
 as their amounts (`EscrowService.TextsCompareAsAmounts`).
 */
module ConcurrentRelease {
  import opened Options
  import opened Escrow

  /** Where a client stands. `seen` is how many releases had been committed when it read the row. */
  datatype Phase =
    | Idle
    | HasRead(released: int, forced: bool, seen: nat)
    | Ready(expected: int, quantity: int, forced: bool, seen: nat)

  /** A release by a client, or the settlement of a time lock. */
  datatype Commit = Commit(client: Option<nat>, quantity: int, settles: bool)

  /** `resolved` remembers whether a dispute was ever resolved. */
  datatype World = World(account: Account, clients: map<nat, Phase>, commits: seq<Commit>, resolved: bool) {
    function PhaseOf(c: nat): Phase {
      if c in clients then clients[c] else Idle
    }
  }

  datatype Step =
    | Read(client: nat, forced: bool)
    | Compute(client: nat, requested: Option<int>, milestone: Option<nat>)
    | Write(client: nat)
    | Other(op: Operation)

  predicate IsNew(e: Account) {
    e.status == Pending && e.released == 0
  }

  function Start(e: Account): World {
    World(e, map[], [], false)
  }

  function Put(w: World, c: nat, p: Phase): World {
    w.(clients := w.clients[c := p])
  }

  /** The guards on the status and the signatures, at the time the row is read. */
  predicate MayRead(e: Account, forced: bool) {
    forced || ((e.status == Approved || e.status == PartiallyReleased) && e.ThresholdMet())
  }

  function Computed(e: Account, p: Phase, requested: Option<int>, milestone: Option<nat>): Phase
    requires p.HasRead?
  {
    var remaining := e.amount - p.released;
    var quantity := if requested.Some? then requested.value else remaining;
    if milestone.Some? && (milestone.value !in e.milestones || !e.milestones[milestone.value]) then Idle
    else if quantity <= 0 || quantity > remaining then Idle
    else Ready(p.released, quantity, p.forced, p.seen)
  }

  /** The conditional update affects the row. */
  predicate Commits(w: World, c: nat) {
    w.PhaseOf(c).Ready? && w.account.released == w.PhaseOf(c).expected
  }

  function Written(w: World, c: nat): World
    requires w.PhaseOf(c).Ready?
  {
    if !Commits(w, c) then Put(w, c, Idle)
    else
      var p := w.PhaseOf(c);
      var released := p.expected + p.quantity;
      var settles := released == w.account.amount;
      var account := w.account.(released := released, status := if settles then Settled else PartiallyReleased);
      Put(w.(account := account, commits := w.commits + [Commit(Some(c), p.quantity, settles)]), c, Idle)
  }

  /** Any operation but a release, as one step. */
  function Operated(w: World, op: Operation): World {
    if op.Release? || Apply(w.account, op).Err? then w
    else
      World(Apply(w.account, op).value, w.clients,
            if op.TimeLockSettle? then w.commits + [Commit(None, w.account.amount - w.account.released, true)]
            else w.commits,
            w.resolved || op.ResolveDispute?)
  }

  /** A step out of turn does nothing; a refused quantity or a lost race ends the request. */
  function NextWorld(w: World, step: Step): World {
    match step
    case Read(c, forced) =>
      Put(w, c, if MayRead(w.account, forced) then HasRead(w.account.released, forced, |w.commits|) else Idle)
    case Compute(c, requested, milestone) =>
      if w.PhaseOf(c).HasRead? then Put(w, c, Computed(w.account, w.PhaseOf(c), requested, milestone)) else w
    case Write(c) => if w.PhaseOf(c).Ready? then Written(w, c) else w
    case Other(op) => Operated(w, op)
  }

  function RunWorld(e: Account, steps: seq<Step>): World {
    if steps == [] then Start(e) else NextWorld(RunWorld(e, steps[..|steps| - 1]), steps[|steps| - 1])
  }

  function Total(commits: seq<Commit>): int {
    if commits == [] then 0 else Total(commits[..|commits| - 1]) + commits[|commits| - 1].quantity
  }

  // ---------------------------------------------------------------- what every step keeps

  /** A client knows the released amount of a past moment, and asks for no more than was left then. */
  ghost predicate PhaseOk(w: World, p: Phase) {
    match p
    case Idle => true
    case HasRead(released, _, seen) => seen <= |w.commits| && released == Total(w.commits[..seen])
    case Ready(expected, quantity, _, seen) =>
      && seen <= |w.commits| && expected == Total(w.commits[..seen])
      && 0 < quantity <= w.account.amount - expected
  }

  ghost predicate CommitOk(w: World, i: nat)
    requires i < |w.commits|
  {
    && (0 < w.account.amount ==> 0 < w.commits[i].quantity)
    && (w.commits[i].settles <==> Total(w.commits[..i + 1]) == w.account.amount)
  }

  /** What the status tells about the releases. */
  ghost predicate StatusOk(w: World) {
    var e := w.account;
    && e.status != AwaitingFunding && e.status != Escrow.Status.Expired
    && (e.status == Pending || e.status == Funded || e.status == Approved || e.status == Cancelled ==> w.commits == [])
    && (e.status == PartiallyReleased ==> 0 < e.released < e.amount)
    && (0 < e.amount ==> 0 <= e.released <= e.amount)
    && (e.amount <= 0 ==>
          w.commits == [] || (|w.commits| == 1 && w.commits[0].client == None && e.released == e.amount))
  }

  ghost predicate WorldOk(w: World) {
    && w.account.released == Total(w.commits)
    && StatusOk(w)
    && (forall i :: 0 <= i < |w.commits| ==> CommitOk(w, i))
    && (forall c :: c in w.clients ==> PhaseOk(w, w.clients[c]))
  }

  /** Totals of prefixes grow strictly, since every commit releases something. */
  lemma {:induction false} TotalsGrow(commits: seq<Commit>, i: nat, j: nat)
    requires i < j <= |commits| && forall k :: 0 <= k < |commits| ==> 0 < commits[k].quantity
    ensures Total(commits[..i]) < Total(commits[..j])
  {
    assert commits[..j][..j - 1] == commits[..j - 1];
    if i < j - 1 {
      TotalsGrow(commits, i, j - 1);
    }
  }

  lemma WholePrefix(commits: seq<Commit>)
    ensures Total(commits[..|commits|]) == Total(commits) && Total(commits[..0]) == 0
  {
    assert commits[..|commits|] == commits;
  }

  /** Only escrows of positive amount ever have a client ready to write. */
  lemma ReadyMeansPositive(w: World, p: Phase)
    requires WorldOk(w) && PhaseOk(w, p) && p.Ready?
    ensures 0 < w.account.amount
  {
    WholePrefix(w.commits);
  }

  /** A write takes effect exactly when no release was committed since its client read the row. */
  lemma CommitsIffFresh(w: World, c: nat)
    requires WorldOk(w) && w.PhaseOf(c).Ready?
    ensures Commits(w, c) <==> w.PhaseOf(c).seen == |w.commits|
  {
    var p := w.clients[c];
    assert PhaseOk(w, p);
    ReadyMeansPositive(w, p);
    WholePrefix(w.commits);
    if p.seen < |w.commits| {
      forall k | 0 <= k < |w.commits| ensures 0 < w.commits[k].quantity {
        assert CommitOk(w, k);
      }
      TotalsGrow(w.commits, p.seen, |w.commits|);
    }
  }

  lemma PhaseKept(w: World, v: World, p: Phase)
    requires PhaseOk(w, p) && v.account.amount == w.account.amount && w.commits <= v.commits
    ensures PhaseOk(v, p)
  {
    if !p.Idle? {
      assert v.commits[..p.seen] == w.commits[..p.seen];
    }
  }

  lemma CommitKept(w: World, v: World, i: nat)
    requires i < |w.commits| && CommitOk(w, i) && v.account.amount == w.account.amount && w.commits <= v.commits
    ensures CommitOk(v, i)
  {
    assert v.commits[..i + 1] == w.commits[..i + 1];
  }

  lemma OneMoreCommit(commits: seq<Commit>, c: Commit)
    ensures Total(commits + [c]) == Total(commits) + c.quantity
  {
    assert (commits + [c])[..|commits|] == commits;
  }

  /** Everything a step without a commit has to show. */
  lemma SameCommits(w: World, v: World)
    requires WorldOk(w) && StatusOk(v) && v.commits == w.commits
    requires v.account.amount == w.account.amount && v.account.released == w.account.released
    requires forall c :: c in v.clients ==> PhaseOk(v, v.clients[c])
    ensures WorldOk(v)
  {
    forall i | 0 <= i < |v.commits| ensures CommitOk(v, i) {
      assert CommitOk(w, i);
    }
  }

  lemma NewCommit(w: World, v: World, commit: Commit)
    requires WorldOk(w) && StatusOk(v) && v.commits == w.commits + [commit] && v.account.amount == w.account.amount
    requires v.account.released == w.account.released + commit.quantity
    requires 0 < v.account.amount ==> 0 < commit.quantity
    requires commit.settles <==> v.account.released == v.account.amount
    requires forall c :: c in v.clients ==> v.clients[c].Idle? || (c in w.clients && v.clients[c] == w.clients[c])
    ensures WorldOk(v)
  {
    OneMoreCommit(w.commits, commit);
    WholePrefix(v.commits);
    forall i | 0 <= i < |v.commits| ensures CommitOk(v, i) {
      if i < |w.commits| {
        CommitKept(w, v, i);
      }
    }
    forall c | c in v.clients ensures PhaseOk(v, v.clients[c]) {
      if !v.clients[c].Idle? {
        PhaseKept(w, v, w.clients[c]);
      }
    }
  }

  /** A client nobody interferes with does what the operation does in one step, and is done. */
  lemma AloneIsRelease(w: World, c: nat, forced: bool, requested: Option<int>, milestone: Option<nat>)
    ensures var v := NextWorld(NextWorld(NextWorld(w, Read(c, forced)), Compute(c, requested, milestone)), Write(c));
            v.account == Next(w.account, Release(forced, requested, milestone)) && v.PhaseOf(c).Idle?
  {
    hide Approving;
  }

  lemma WriteKeepsWorld(w: World, c: nat)
    requires WorldOk(w) && w.PhaseOf(c).Ready?
    ensures WorldOk(Written(w, c))
  {
    var v, p := Written(w, c), w.PhaseOf(c);
    assert PhaseOk(w, p);
    ReadyMeansPositive(w, p);
    if Commits(w, c) {
      NewCommit(w, v, v.commits[|w.commits|]);
    } else {
      forall d | d in v.clients ensures PhaseOk(v, v.clients[d]) {
        if d != c {
          PhaseKept(w, v, w.clients[d]);
        }
      }
      SameCommits(w, v);
    }
  }

  lemma OperationKeepsWorld(w: World, op: Operation)
    requires WorldOk(w)
    ensures WorldOk(Operated(w, op))
  {
    hide Total;
    var v := Operated(w, op);
    if !op.Release? && Apply(w.account, op).Ok? {
      if op.TimeLockSettle? {
        WholePrefix(w.commits);
        NewCommit(w, v, v.commits[|w.commits|]);
      } else {
        forall d | d in v.clients ensures PhaseOk(v, v.clients[d]) {
          PhaseKept(w, v, w.clients[d]);
        }
        SameCommits(w, v);
      }
    }
  }

  lemma ClientKeepsWorld(w: World, c: nat, p: Phase)
    requires WorldOk(w) && PhaseOk(w, p)
    ensures WorldOk(Put(w, c, p))
  {
    var v := Put(w, c, p);
    forall d | d in v.clients ensures PhaseOk(v, v.clients[d]) {
      PhaseKept(w, v, if d == c then p else w.clients[d]);
    }
    SameCommits(w, v);
  }

  lemma StepKeepsWorld(w: World, step: Step)
    requires WorldOk(w)
    ensures WorldOk(NextWorld(w, step))
    ensures w.commits <= NextWorld(w, step).commits && NextWorld(w, step).account.amount == w.account.amount
  {
    hide WorldOk, StatusOk, Approving;
    match step
    case Read(c, forced) =>
      WholePrefix(w.commits);
      var p := if MayRead(w.account, forced) then HasRead(w.account.released, forced, |w.commits|) else Idle;
      ReadsTotal(w);
      ClientKeepsWorld(w, c, p);
    case Compute(c, requested, milestone) =>
      if w.PhaseOf(c).HasRead? {
        ClientIsOk(w, c);
        ClientKeepsWorld(w, c, Computed(w.account, w.PhaseOf(c), requested, milestone));
      }
    case Write(c) =>
      if w.PhaseOf(c).Ready? {
        WriteKeepsWorld(w, c);
      }
    case Other(op) => OperationKeepsWorld(w, op);
  }

  lemma ReadsTotal(w: World)
    requires WorldOk(w)
    ensures w.account.released == Total(w.commits)
  {
  }

  lemma ClientIsOk(w: World, c: nat)
    requires WorldOk(w)
    ensures PhaseOk(w, w.PhaseOf(c))
  {
  }

  /** What every interleaving keeps, of clients and of all other operations. */
  lemma {:induction false} RunKeepsWorld(e: Account, steps: seq<Step>)
    requires IsNew(e)
    ensures WorldOk(RunWorld(e, steps)) && RunWorld(e, steps).account.amount == e.amount
  {
    if steps != [] {
      hide NextWorld, WorldOk;
      RunKeepsWorld(e, steps[..|steps| - 1]);
      StepKeepsWorld(RunWorld(e, steps[..|steps| - 1]), steps[|steps| - 1]);
    } else {
      assert Start(e).commits == [];
    }
  }

  // ---------------------------------------------------------------- the released amount

  /**
   In every interleaving the stored amount is the sum of the committed releases; it grew with each
   of them, it never passed the escrow amount, and only the last commit can have settled. An
   escrow without a positive amount never releases anything to a client.
   */
  lemma ReleasesAreExact(e: Account, steps: seq<Step>, i: nat)
    requires IsNew(e)
    ensures var w := RunWorld(e, steps);
            && w.account.released == Total(w.commits)
            && (0 < e.amount && w.commits != [] ==> 0 < w.account.released <= e.amount)
            && (i < |w.commits| ==>
                  if 0 < e.amount then
                    Total(w.commits[..i]) < Total(w.commits[..i + 1])
                    && (w.commits[i].settles <==> i == |w.commits| - 1 && w.account.released == e.amount)
                  else w.commits[i].client == None)
  {
    RunKeepsWorld(e, steps);
    hide RunWorld, CommitOk, PhaseOk, Total;
    var w := RunWorld(e, steps);
    if 0 < e.amount {
      if w.commits != [] {
        AtLeastOne(w);
      }
      if i < |w.commits| {
        OneCommit(w, i);
      }
    }
  }

  lemma CommitsArePositive(w: World)
    requires WorldOk(w) && 0 < w.account.amount
    ensures forall k :: 0 <= k < |w.commits| ==> 0 < w.commits[k].quantity
  {
    hide Total, StatusOk;
    forall k | 0 <= k < |w.commits| ensures 0 < w.commits[k].quantity {
      assert CommitOk(w, k);
    }
  }

  lemma AtLeastOne(w: World)
    requires WorldOk(w) && 0 < w.account.amount && w.commits != []
    ensures 0 < w.account.released
  {
    hide CommitOk, PhaseOk, StatusOk;
    WholePrefix(w.commits);
    CommitsArePositive(w);
    TotalsGrow(w.commits, 0, |w.commits|);
  }

  lemma OneCommit(w: World, i: nat)
    requires WorldOk(w) && 0 < w.account.amount && i < |w.commits|
    ensures Total(w.commits[..i]) < Total(w.commits[..i + 1])
    ensures w.commits[i].settles <==> i == |w.commits| - 1 && w.account.released == w.account.amount
  {
    hide PhaseOk, Total;
    var n := |w.commits|;
    WholePrefix(w.commits);
    CommitsArePositive(w);
    assert CommitOk(w, i);
    TotalsGrow(w.commits, i, i + 1);
    if i < n - 1 {
      TotalsGrow(w.commits, i + 1, n);
    }
  }

  /** Once the whole amount is released, no client can commit any more. */
  lemma NothingAfterSettlement(e: Account, steps: seq<Step>, c: nat)
    requires IsNew(e) && RunWorld(e, steps).account.released == e.amount
    ensures !Commits(RunWorld(e, steps), c)
  {
    var w := RunWorld(e, steps);
    RunKeepsWorld(e, steps);
    ClientIsOk(w, c);
  }

  // ---------------------------------------------------------------- final statuses

  /** A client that was let in by the status and the signatures. */
  predicate IsRegularClient(p: Phase) {
    !p.Idle? && !p.forced
  }

  /**
   While a regular client is under way the escrow has been approved; it can be final only by
   releasing everything or by the resolution of a dispute.
   */
  ghost predicate PastApproval(w: World) {
    var e := w.account;
    && (e.status == Approved || e.status == PartiallyReleased || e.status == Disputed || e.status == Settled
        || e.status == Refunded)
    && (e.status == Refunded ==> w.resolved)
    && (e.status == Settled ==> w.resolved || e.released == e.amount)
  }

  ghost predicate ClientsArePast(w: World) {
    forall c :: c in w.clients && IsRegularClient(w.clients[c]) ==> PastApproval(w)
  }

  lemma StepStaysPast(w: World, step: Step)
    requires WorldOk(w) && PastApproval(w)
    ensures PastApproval(NextWorld(w, step))
  {
    hide Total, Approving, Computed;
  }

  lemma StepKeepsPast(w: World, step: Step)
    requires WorldOk(w) && ClientsArePast(w)
    ensures ClientsArePast(NextWorld(w, step))
  {
    hide WorldOk, Apply, Approving;
    var v := NextWorld(w, step);
    if PastApproval(w) {
      StepStaysPast(w, step);
    } else {
      forall c | c in v.clients && IsRegularClient(v.clients[c]) ensures PastApproval(v) {
      }
    }
  }

  lemma {:induction false} RunKeepsPast(e: Account, steps: seq<Step>)
    requires IsNew(e)
    ensures ClientsArePast(RunWorld(e, steps))
  {
    if steps != [] {
      hide NextWorld, WorldOk, ClientsArePast;
      RunKeepsWorld(e, steps[..|steps| - 1]);
      RunKeepsPast(e, steps[..|steps| - 1]);
      StepKeepsPast(RunWorld(e, steps[..|steps| - 1]), steps[|steps| - 1]);
    }
  }

  /**
   A regular client's write overrides a final status exactly when a dispute was resolved and no
   release was committed since the client read the row: the condition of the write does not ask
   for the status.
   */
  lemma OverridesFinalIff(e: Account, steps: seq<Step>, c: nat)
    requires IsNew(e) && RunWorld(e, steps).PhaseOf(c).Ready? && !RunWorld(e, steps).PhaseOf(c).forced
    ensures var w := RunWorld(e, steps);
            w.account.IsFinal() && Commits(w, c) <==>
            w.account.IsFinal() && w.resolved && w.PhaseOf(c).seen == |w.commits|
  {
    var w := RunWorld(e, steps);
    hide RunWorld, Total;
    RunKeepsWorld(e, steps);
    RunKeepsPast(e, steps);
    CommitsIffFresh(w, c);
    ClientIsOk(w, c);
    assert PastApproval(w);
  }

  /** No release is forced and no dispute is resolved. */
  ghost predicate NoOverride(steps: seq<Step>) {
    forall i :: 0 <= i < |steps| ==>
                  !(steps[i].Read? && steps[i].forced) && !(steps[i].Other? && steps[i].op.ResolveDispute?)
  }

  ghost predicate NobodyForces(w: World) {
    !w.resolved && forall c :: c in w.clients && !w.clients[c].Idle? ==> !w.clients[c].forced
  }

  lemma {:induction false} RunIsUnforced(e: Account, steps: seq<Step>)
    requires NoOverride(steps)
    ensures NobodyForces(RunWorld(e, steps))
  {
    if steps != [] {
      RunIsUnforced(e, steps[..|steps| - 1]);
    }
  }

  /** Without forced releases and resolved disputes no interleaving leaves a final status. */
  lemma {:induction false} FinalIsForeverBesideClients(e: Account, steps: seq<Step>, n: nat)
    requires IsNew(e) && NoOverride(steps) && n <= |steps| && RunWorld(e, steps[..n]).account.IsFinal()
    ensures RunWorld(e, steps).account == RunWorld(e, steps[..n]).account
    decreases |steps|
  {
    if n == |steps| {
      assert steps[..n] == steps;
    } else {
      var front, step := steps[..|steps| - 1], steps[|steps| - 1];
      assert front[..n] == steps[..n];
      FinalIsForeverBesideClients(e, front, n);
      FinalStep(e, front, step);
    }
  }

  lemma FinalStep(e: Account, front: seq<Step>, step: Step)
    requires IsNew(e) && NoOverride(front + [step]) && RunWorld(e, front).account.IsFinal()
    ensures NextWorld(RunWorld(e, front), step).account == RunWorld(e, front).account
  {
    var w := RunWorld(e, front);
    assert (front + [step])[..|front|] == front;
    assert NoOverride(front) by {
      assert forall i :: 0 <= i < |front| ==> (front + [step])[i] == front[i];
    }
    RunIsUnforced(e, front);
    match step
    case Write(c) =>
      if w.PhaseOf(c).Ready? {
        OverridesFinalIff(e, front, c);
      }
    case Other(op) => FinalChangesIff(w.account, op);
    case _ =>
  }

  /** A client reads an approved escrow, a dispute refunds it, and the client's write still pays out. */
  function RefundedThenPaid(a: nat, b: nat): seq<Step> {
    [Other(Fund(a)), Other(Approve(a)), Other(Approve(b)), Read(7, false), Compute(7, Some(4), None),
     Other(FlagDispute(a)), Other(ResolveDispute(true)), Write(7)]
  }

  lemma RunStep(e: Account, steps: seq<Step>, k: nat)
    requires k < |steps|
    ensures RunWorld(e, steps[..k + 1]) == NextWorld(RunWorld(e, steps[..k]), steps[k])
  {
    assert steps[..k + 1][..k] == steps[..k];
  }

  /** Both signatories sign the funded escrow, which is then approved. */
  lemma FundedAndSigned(e: Account, a: nat, b: nat)
    requires a != b && e.creator == a && e.status == Pending && e.approvals == map[a := false, b := false]
    requires e.required == 2
    ensures var w := RunWorld(e, RefundedThenPaid(a, b)[..3]);
            w == Start(e.(approvals := map[a := true, b := true], status := Approved)) && w.account.Approvals() == 2
  {
    hide RunWorld, Approving, NextWorld, Next;
    var steps := RefundedThenPaid(a, b);
    var once := e.(status := Funded, approvals := map[a := true, b := false]);
    BothCount(e, a, b);
    BothCount(once, a, b);
    NoStepYet(e, steps);
    Plainly(e, Fund(a));
    RunStep(e, steps, 0);
    Plainly(Next(e, Fund(a)), Approve(a));
    RunStep(e, steps, 1);
    Plainly(once, Approve(b));
    RunStep(e, steps, 2);
    SignsInTurn(e, a, b);
  }

  lemma Plainly(e: Account, op: Operation)
    requires op.Fund? || op.Approve?
    ensures NextWorld(Start(e), Other(op)) == Start(Next(e, op))
  {
    hide Approving;
  }

  lemma SignsInTurn(e: Account, a: nat, b: nat)
    requires a != b && e.creator == a && e.status == Pending && e.approvals == map[a := false, b := false]
    requires e.required == 2
    ensures var once := e.(status := Funded, approvals := map[a := true, b := false]);
            && Next(Next(e, Fund(a)), Approve(a)) == once
            && Next(once, Approve(b)) == e.(approvals := map[a := true, b := true], status := Approved)
  {
    hide Approving;
    var funded := e.(status := Funded);
    var once := e.(status := Funded, approvals := map[a := true, b := false]);
    BothCount(funded, a, b);
    BothCount(once, a, b);
    assert funded.approvals[a := true] == once.approvals && once.approvals[b := true] == map[a := true, b := true];
  }

  lemma BothCount(e: Account, a: nat, b: nat)
    requires a != b
    ensures e.(approvals := map[a := true, b := false]).Approvals() == 1
    ensures e.(approvals := map[a := true, b := true]).Approvals() == 2
  {
    assert e.(approvals := map[a := true, b := false]).Approvers() == {a};
    assert e.(approvals := map[a := true, b := true]).Approvers() == {a, b};
  }

  lemma NoStepYet(e: Account, steps: seq<Step>)
    ensures RunWorld(e, steps[..0]) == Start(e)
  {
  }

  /** The client reads the approved escrow and computes a release of 4 out of 10. */
  lemma Paying(e: Account)
    requires e.status == Approved && e.amount == 10 && e.released == 0
    requires e.Approvals() == 2 && e.required == 2
    ensures var w := NextWorld(NextWorld(Start(e), Read(7, false)), Compute(7, Some(4), None));
            w.account == e && w.PhaseOf(7) == Ready(0, 4, false, 0)
  {
  }

  lemma Refunding(w: World, user: nat)
    requires w.account.status == Approved && w.account.creator == user && w.account.dispute == None
    requires w.account.released == 0 && w.PhaseOf(7) == Ready(0, 4, false, 0)
    ensures var w' := NextWorld(NextWorld(w, Other(FlagDispute(user))), Other(ResolveDispute(true)));
            w'.account.status == Refunded && w'.account.released == 0 && w'.PhaseOf(7) == Ready(0, 4, false, 0)
            && w'.account.amount == w.account.amount
  {
  }

  lemma PaidAfterAll(w: World)
    requires w.account.status == Refunded && w.account.amount == 10 && w.account.released == 0
    requires w.PhaseOf(7) == Ready(0, 4, false, 0)
    ensures NextWorld(w, Write(7)).account.status == PartiallyReleased && NextWorld(w, Write(7)).account.released == 4
  {
  }

  lemma RefundIsOverridden(a: nat, b: nat)
    requires a != b
    ensures var d := Draft(a, Standard, 2, [a, b], [], 10, None, None);
            && Create(d, 0).Ok?
            && var e, steps := Create(d, 0).value, RefundedThenPaid(a, b);
            && RunWorld(e, steps[..7]).account.status == Refunded
            && RunWorld(e, steps).account.status == PartiallyReleased
            && RunWorld(e, steps).account.released == 4
  {
    hide RunWorld, Approving, NextWorld;
    var d := Draft(a, Standard, 2, [a, b], [], 10, None, None);
    var e, steps := Create(d, 0).value, RefundedThenPaid(a, b);
    assert e.approvals == map[a := false, b := false];
    FundedAndSigned(e, a, b);
    Paying(e.(approvals := map[a := true, b := true], status := Approved));
    RunStep(e, steps, 3);
    RunStep(e, steps, 4);
    Refunding(RunWorld(e, steps[..5]), a);
    RunStep(e, steps, 5);
    RunStep(e, steps, 6);
    PaidAfterAll(RunWorld(e, steps[..7]));
    RunStep(e, steps, 7);
    assert steps[..8] == steps;
  }
}
