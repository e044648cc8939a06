/**
 approveEscrow as concurrent clients run it: read the escrow, read its signatories, then save the
 signature and, when the signatures that were read suffice, the escrow as approved. Any number of
 clients take these steps in any order, between all other operations. Saving an entity writes back
 every column as it was read.
 */
module ConcurrentApproval {
  import opened Options
  import opened Escrow

  /** Where a client stands: what it read of the escrow, and who had signed when it read the signatories. */
  datatype Phase =
    | Idle
    | HasRead(status: Status, released: int)
    | Signing(user: nat, status: Status, released: int, signed: set<nat>)

  datatype World = World(account: Account, clients: map<nat, Phase>) {
    function PhaseOf(c: nat): Phase {
      if c in clients then clients[c] else Idle
    }
  }

  datatype Step =
    | ReadEscrow(client: nat)
    | ReadSignatories(client: nat, user: nat)
    | Sign(client: nat)
    | Other(op: Operation)

  predicate IsNew(e: Account) {
    e.status == Pending && e.released == 0 && e.Approvals() == 0 && 1 <= e.required
  }

  function Put(w: World, c: nat, p: Phase): World {
    w.(clients := w.clients[c := p])
  }

  function Listed(e: Account, p: Phase, user: nat): Phase
    requires p.HasRead?
  {
    if user !in e.approvals || e.approvals[user] then Idle
    else Signing(user, p.status, p.released, e.Approvers())
  }

  /** Does a client find the threshold met by the signatures it has read and its own? */
  predicate FindsThreshold(e: Account, p: Phase)
    requires p.Signing?
  {
    |p.signed + {p.user}| >= e.required
  }

  function Signed(e: Account, p: Phase): Account
    requires p.Signing?
  {
    var e' := e.(approvals := e.approvals[p.user := true]);
    if FindsThreshold(e, p) && p.status != Approved then e'.(status := Approved, released := p.released) else e'
  }

  /** A step out of turn does nothing, and a refusal ends the request. */
  function NextWorld(w: World, step: Step): World {
    match step
    case ReadEscrow(c) =>
      var e := w.account;
      Put(w, c, if e.status == Funded || e.status == Approved then HasRead(e.status, e.released) else Idle)
    case ReadSignatories(c, user) =>
      if w.PhaseOf(c).HasRead? then Put(w, c, Listed(w.account, w.PhaseOf(c), user)) else w
    case Sign(c) =>
      if w.PhaseOf(c).Signing? then Put(w.(account := Signed(w.account, w.PhaseOf(c))), c, Idle) else w
    case Other(op) => if op.Approve? then w else w.(account := Next(w.account, op))
  }

  function RunWorld(e: Account, steps: seq<Step>): World {
    if steps == [] then World(e, map[]) else NextWorld(RunWorld(e, steps[..|steps| - 1]), steps[|steps| - 1])
  }

  lemma RunStep(e: Account, steps: seq<Step>, k: nat)
    requires k < |steps|
    ensures RunWorld(e, steps[..k + 1]) == NextWorld(RunWorld(e, steps[..k]), steps[k])
  {
    assert steps[..k + 1][..k] == steps[..k];
  }

  /** A client nobody interferes with does what the operation does in one step. */
  lemma AloneIsApprove(w: World, c: nat, user: nat)
    ensures NextWorld(NextWorld(NextWorld(w, ReadEscrow(c)), ReadSignatories(c, user)), Sign(c)).account ==
            Next(w.account, Approve(user))
  {
    var e := w.account;
    assert e.(approvals := e.approvals[user := true]).Approvers() == e.Approvers() + {user};
  }

  // ---------------------------------------------------------------- a threshold nobody noticed

  /** The escrow is still waiting for signatures it has. */
  predicate Missed(e: Account) {
    e.status == Funded && e.ThresholdMet()
  }

  /** A client about to complete the signatures without having read enough of them. */
  predicate SignsBlindly(w: World, step: Step) {
    && step.Sign? && w.PhaseOf(step.client).Signing? && w.account.status == Funded
    && var p := w.PhaseOf(step.client);
    !FindsThreshold(w.account, p) && |w.account.Approvers() + {p.user}| >= w.account.required
  }

  /** Who has read an escrow as approved does not find it waiting later; a waiting one has released nothing. */
  ghost predicate WorldOk(w: World) {
    && 1 <= w.account.required
    && (w.account.status == Pending ==> w.account.Approvals() == 0)
    && (w.account.status == Pending || w.account.status == Funded ==> w.account.released == 0)
    && forall c :: c in w.clients && !w.clients[c].Idle? ==>
                     && w.account.status != Pending
                     && (w.clients[c].status == Approved ==> w.account.status != Funded)
                     && (w.clients[c].status == Funded || w.clients[c].status == Approved)
                     && (w.clients[c].status == Funded ==> w.clients[c].released == 0)
  }

  lemma NobodyHasSigned(e: Account)
    requires forall u :: u in e.approvals ==> !e.approvals[u]
    ensures e.Approvers() == {}
  {
  }

  lemma SignersAfter(e: Account, user: nat)
    ensures e.(approvals := e.approvals[user := true]).Approvers() == e.Approvers() + {user}
  {
  }

  lemma StepKeepsWorld(w: World, step: Step)
    requires WorldOk(w)
    ensures WorldOk(NextWorld(w, step))
  {
    match step
    case Other(op) =>
      if !op.Approve? {
        OperationKeepsWorld(w, op);
      }
    case _ =>
  }

  lemma OperationKeepsWorld(w: World, op: Operation)
    requires WorldOk(w) && !op.Approve?
    ensures WorldOk(w.(account := Next(w.account, op)))
  {
    hide Approving;
    var e := Next(w.account, op);
    assert e.status == Pending ==> e == w.account;
    assert e.status == Funded ==> w.account.status == Funded || w.account.status == Pending;
  }

  lemma {:induction false} RunKeepsWorld(e: Account, steps: seq<Step>)
    requires IsNew(e)
    ensures WorldOk(RunWorld(e, steps))
  {
    if steps != [] {
      hide NextWorld, WorldOk;
      RunKeepsWorld(e, steps[..|steps| - 1]);
      StepKeepsWorld(RunWorld(e, steps[..|steps| - 1]), steps[|steps| - 1]);
    }
  }

  /** Of all steps only such a signature makes an escrow wait for signatures it has. */
  lemma StepMissesIff(w: World, step: Step)
    requires WorldOk(w) && !Missed(w.account)
    ensures Missed(NextWorld(w, step).account) <==> SignsBlindly(w, step)
  {
    match step
    case Sign(c) =>
      if w.PhaseOf(c).Signing? {
        SignersAfter(w.account, w.PhaseOf(c).user);
      }
    case Other(op) =>
      if !op.Approve? {
        OperationMissesNone(w, op);
      }
    case _ =>
  }

  lemma OperationMissesNone(w: World, op: Operation)
    requires WorldOk(w) && !Missed(w.account) && !op.Approve?
    ensures !Missed(Next(w.account, op))
  {
    if op.Revoke? && Apply(w.account, op).Ok? {
      RevocationCounts(w.account, op.user);
    }
  }

  ghost predicate EverMissed(e: Account, steps: seq<Step>) {
    exists n :: 0 <= n <= |steps| && Missed(RunWorld(e, steps[..n]).account)
  }

  ghost predicate EverBlind(e: Account, steps: seq<Step>) {
    exists n :: 0 <= n < |steps| && SignsBlindly(RunWorld(e, steps[..n]), steps[n])
  }

  lemma PrefixOfFront(steps: seq<Step>, n: nat)
    requires n < |steps|
    ensures steps[..|steps| - 1][..n] == steps[..n] && (n < |steps| - 1 ==> steps[..|steps| - 1][n] == steps[n])
  {
  }

  lemma OneMoreMissed(e: Account, steps: seq<Step>)
    requires steps != []
    ensures EverMissed(e, steps) <==> EverMissed(e, steps[..|steps| - 1]) || Missed(RunWorld(e, steps).account)
  {
    hide Missed, RunWorld;
    var front := steps[..|steps| - 1];
    assert steps[..|steps|] == steps;
    if EverMissed(e, front) {
      var n :| 0 <= n <= |front| && Missed(RunWorld(e, front[..n]).account);
      PrefixOfFront(steps, n);
      assert Missed(RunWorld(e, steps[..n]).account);
    } else if EverMissed(e, steps) {
      var n :| 0 <= n <= |steps| && Missed(RunWorld(e, steps[..n]).account);
      if n < |steps| {
        PrefixOfFront(steps, n);
      }
    }
  }

  lemma OneMoreBlind(e: Account, steps: seq<Step>)
    requires steps != []
    ensures var k := |steps| - 1;
            EverBlind(e, steps) <==> EverBlind(e, steps[..k]) || SignsBlindly(RunWorld(e, steps[..k]), steps[k])
  {
    hide SignsBlindly, RunWorld;
    var front := steps[..|steps| - 1];
    if EverBlind(e, front) {
      var n :| 0 <= n < |front| && SignsBlindly(RunWorld(e, front[..n]), front[n]);
      PrefixOfFront(steps, n);
      assert SignsBlindly(RunWorld(e, steps[..n]), steps[n]);
    } else if EverBlind(e, steps) {
      var n :| 0 <= n < |steps| && SignsBlindly(RunWorld(e, steps[..n]), steps[n]);
      PrefixOfFront(steps, n);
    }
  }

  lemma LastOfPrefixes(e: Account, steps: seq<Step>)
    ensures Missed(RunWorld(e, steps).account) ==> EverMissed(e, steps)
  {
    hide Missed, RunWorld;
    assert steps[..|steps|] == steps;
  }

  /**
   In a run of any interleaving an escrow comes to wait for signatures it has exactly when some client
   completes the signatures without having read enough of them.
   */
  lemma {:induction false} MissedIff(e: Account, steps: seq<Step>)
    requires IsNew(e)
    ensures EverMissed(e, steps) <==> EverBlind(e, steps)
  {
    hide Missed, SignsBlindly, NextWorld, WorldOk, IsNew, EverMissed, EverBlind;
    if steps == [] {
      NothingYet(e);
    } else {
      var front, step := steps[..|steps| - 1], steps[|steps| - 1];
      MissedIff(e, front);
      OneMoreMissed(e, steps);
      OneMoreBlind(e, steps);
      LastOfPrefixes(e, front);
      RunKeepsWorld(e, front);
      if !Missed(RunWorld(e, front).account) {
        StepMissesIff(RunWorld(e, front), step);
      }
    }
  }

  lemma NothingYet(e: Account)
    requires IsNew(e)
    ensures !EverMissed(e, []) && !EverBlind(e, [])
  {
  }

  /** It takes another signature between a client's reading and its signing. */
  lemma BlindMeansOverlap(w: World, step: Step)
    requires SignsBlindly(w, step)
    ensures exists u :: u in w.account.Approvers() && u !in w.PhaseOf(step.client).signed
  {
    hide Approving;
    var user, signed, approvers := w.PhaseOf(step.client).user, w.PhaseOf(step.client).signed, w.account.Approvers();
    if approvers <= signed {
      NoMoreSigners(approvers, signed, user);
      assert false;
    } else {
      var u :| u in approvers && u !in signed;
    }
  }

  lemma NoMoreSigners(approvers: set<nat>, signed: set<nat>, user: nat)
    requires approvers <= signed
    ensures |approvers + {user}| <= |signed + {user}|
  {
    var fewer, more := approvers + {user}, signed + {user};
    assert more == fewer + (more - fewer);
  }

  /** When all have signed nobody can approve any more; revoking and signing again approves. */
  lemma AllHaveSigned(e: Account, user: nat, other: nat)
    requires Missed(e) && 1 <= e.required && user in e.approvals && forall u :: u in e.approvals ==> e.approvals[u]
    ensures Apply(e, Approve(other)).Err?
    ensures Next(Next(e, Revoke(user)), Approve(user)).status == Approved
  {
    var revoked := Next(e, Revoke(user));
    assert revoked.approvals[user := true] == e.approvals;
  }

  /** Two signatories read before either signs. */
  function BothRead(a: nat, b: nat): seq<Step> {
    [Other(Fund(a)), ReadEscrow(1), ReadEscrow(2), ReadSignatories(1, a), ReadSignatories(2, b), Sign(1), Sign(2)]
  }

  lemma BothHaveRead(e: Account, a: nat, b: nat)
    requires a != b && e.status == Pending && e.creator == a && e.released == 0
    requires e.approvals == map[a := false, b := false]
    ensures RunWorld(e, BothRead(a, b)[..5]) ==
            World(e.(status := Funded), map[1 := Signing(a, Funded, 0, {}), 2 := Signing(b, Funded, 0, {})])
  {
    hide RunWorld, Approving;
    var steps := BothRead(a, b);
    NobodyHasSigned(e.(status := Funded));
    NoStepYet(e, steps);
    RunStep(e, steps, 0);
    RunStep(e, steps, 1);
    RunStep(e, steps, 2);
    RunStep(e, steps, 3);
    RunStep(e, steps, 4);
  }

  lemma NoStepYet(e: Account, steps: seq<Step>)
    ensures RunWorld(e, steps[..0]) == World(e, map[])
  {
  }

  lemma BothSign(e: Account, a: nat, b: nat)
    requires a != b && e.status == Funded && e.approvals == map[a := false, b := false] && e.required == 2
    ensures var clients := map[1 := Signing(a, Funded, 0, {}), 2 := Signing(b, Funded, 0, {})];
            Missed(NextWorld(NextWorld(World(e, clients), Sign(1)), Sign(2)).account)
  {
    hide Approving;
    var once := e.(approvals := e.approvals[a := true]);
    NobodyHasSigned(e);
    SignersAfter(e, a);
    SignersAfter(once, b);
    assert |{} + {a}| == 1 && |{} + {b}| == 1 && |{} + {a} + {b}| == 2;
  }

  /** Both sign, each without the other's signature: the escrow keeps waiting for what it has. */
  lemma BothSignBlindly(a: nat, b: nat)
    requires a != b
    ensures var d := Draft(a, Standard, 2, [a, b], [], 10, None, None);
            Create(d, 0).Ok? && Missed(RunWorld(Create(d, 0).value, BothRead(a, b)).account)
  {
    hide RunWorld, NextWorld, Missed;
    var e, steps := Create(Draft(a, Standard, 2, [a, b], [], 10, None, None), 0).value, BothRead(a, b);
    assert e.approvals == map[a := false, b := false];
    BothHaveRead(e, a, b);
    BothSign(e.(status := Funded), a, b);
    RunStep(e, steps, 5);
    RunStep(e, steps, 6);
    assert steps[..7] == steps;
  }

  // ---------------------------------------------------------------- an escrow approved anew

  /**
   A signature changes the status of a final escrow exactly when its client read the escrow as funded
   and finds the threshold met: saving the escrow does not ask what has become of it.
   */
  lemma OverridesFinalIff(e: Account, steps: seq<Step>, c: nat)
    requires IsNew(e)
    ensures var w := RunWorld(e, steps);
            w.account.IsFinal() && NextWorld(w, Sign(c)).account.status != w.account.status <==>
            w.account.IsFinal() && w.PhaseOf(c).Signing? && w.PhaseOf(c).status == Funded
            && FindsThreshold(w.account, w.PhaseOf(c))
  {
    hide RunWorld, Approving;
    RunKeepsWorld(e, steps);
  }

  /** The creator takes the escrow back between the last signatory's reading and signing. */
  function SignedAfterRefund(a: nat, b: nat): seq<Step> {
    [Other(Fund(a)), ReadEscrow(1), ReadSignatories(1, a), Sign(1), ReadEscrow(2), ReadSignatories(2, b),
     Other(Refund(a, false)), Sign(2)]
  }

  lemma FirstSigns(e: Account, a: nat, b: nat)
    requires a != b && e.status == Pending && e.creator == a && e.released == 0 && e.required == 2
    requires e.approvals == map[a := false, b := false]
    ensures RunWorld(e, SignedAfterRefund(a, b)[..4]) ==
            World(e.(status := Funded, approvals := map[a := true, b := false]), map[1 := Idle])
  {
    hide RunWorld, Approving;
    var steps := SignedAfterRefund(a, b);
    NobodyHasSigned(e.(status := Funded));
    NoStepYet(e, steps);
    RunStep(e, steps, 0);
    RunStep(e, steps, 1);
    RunStep(e, steps, 2);
    RunStep(e, steps, 3);
    assert |{} + {a}| == 1;
    assert e.approvals[a := true] == map[a := true, b := false];
  }

  lemma SecondSigns(e: Account, a: nat, b: nat)
    requires a != b && e.status == Funded && e.creator == a && e.released == 0 && e.required == 2
    requires e.approvals == map[a := true, b := false]
    ensures var w := NextWorld(NextWorld(World(e, map[1 := Idle]), ReadEscrow(2)), ReadSignatories(2, b));
            var refunded := NextWorld(w, Other(Refund(a, false)));
            refunded.account.status == Refunded && NextWorld(refunded, Sign(2)).account.status == Approved
  {
    assert e.Approvers() == {a};
    assert {a} + {b} == {a, b};
  }

  /** A refunded escrow becomes approved. */
  lemma RefundIsApproved(a: nat, b: nat)
    requires a != b
    ensures var d := Draft(a, Standard, 2, [a, b], [], 10, None, None);
            && Create(d, 0).Ok?
            && var e, steps := Create(d, 0).value, SignedAfterRefund(a, b);
            RunWorld(e, steps[..7]).account.status == Refunded && RunWorld(e, steps).account.status == Approved
  {
    hide RunWorld, NextWorld;
    var e, steps := Create(Draft(a, Standard, 2, [a, b], [], 10, None, None), 0).value, SignedAfterRefund(a, b);
    assert e.approvals == map[a := false, b := false];
    FirstSigns(e, a, b);
    SecondSigns(e.(status := Funded, approvals := map[a := true, b := false]), a, b);
    RunStep(e, steps, 4);
    RunStep(e, steps, 5);
    RunStep(e, steps, 6);
    RunStep(e, steps, 7);
    assert steps[..8] == steps;
  }

  // ---------------------------------------------------------------- a release forgotten

  /**
   A signature changes the released amount exactly when its client read the escrow as funded, finds the
   threshold met, and something was released since: the amount goes back to nothing.
   */
  lemma ForgetsReleasesIff(e: Account, steps: seq<Step>, c: nat)
    requires IsNew(e)
    ensures var w := RunWorld(e, steps);
            var v := NextWorld(w, Sign(c));
            && (v.account.released != w.account.released <==>
                w.PhaseOf(c).Signing? && w.PhaseOf(c).status == Funded && FindsThreshold(w.account, w.PhaseOf(c))
                && w.account.released != 0)
            && (v.account.released != w.account.released ==> v.account.released == 0)
  {
    hide RunWorld, Approving;
    RunKeepsWorld(e, steps);
  }

  /**
   Two of three signatures are needed; the third signatory reads before the second signs, and signs
   after a release.
   */
  function SignedAfterRelease(a: nat, b: nat, c: nat): seq<Step> {
    [Other(Fund(a)), ReadEscrow(1), ReadSignatories(1, a), Sign(1), ReadEscrow(2), ReadSignatories(2, b), ReadEscrow(3),
     ReadSignatories(3, c), Sign(2), Other(Release(false, Some(4), None)), Sign(3), Other(Release(false, None, None))]
  }

  lemma OneOfThreeSigns(e: Account, a: nat, b: nat, c: nat)
    requires a != b && a != c && b != c && e.status == Pending && e.creator == a && e.released == 0 && e.required == 2
    requires e.approvals == map[a := false, b := false, c := false]
    ensures RunWorld(e, SignedAfterRelease(a, b, c)[..4]) ==
            World(e.(status := Funded, approvals := map[a := true, b := false, c := false]), map[1 := Idle])
  {
    hide RunWorld, Approving;
    var steps := SignedAfterRelease(a, b, c);
    NobodyHasSigned(e.(status := Funded));
    NoStepYet(e, steps);
    RunStep(e, steps, 0);
    RunStep(e, steps, 1);
    RunStep(e, steps, 2);
    RunStep(e, steps, 3);
    assert |{} + {a}| == 1;
    assert e.approvals[a := true] == map[a := true, b := false, c := false];
  }

  lemma TwoRead(e: Account, a: nat, b: nat, c: nat)
    requires a != b && a != c && b != c && e.status == Funded && e.released == 0
    requires e.approvals == map[a := true, b := false, c := false]
    ensures var w := NextWorld(NextWorld(World(e, map[1 := Idle]), ReadEscrow(2)), ReadSignatories(2, b));
            NextWorld(NextWorld(w, ReadEscrow(3)), ReadSignatories(3, c)) ==
            World(e, map[1 := Idle, 2 := Signing(b, Funded, 0, {a}), 3 := Signing(c, Funded, 0, {a})])
  {
    assert e.Approvers() == {a};
  }

  lemma ThirdForgets(e: Account, a: nat, b: nat, c: nat)
    requires a != b && a != c && b != c && e.status == Funded && e.released == 0 && e.amount == 10 && e.required == 2
    requires e.approvals == map[a := true, b := false, c := false]
    ensures var w := World(e, map[1 := Idle, 2 := Signing(b, Funded, 0, {a}), 3 := Signing(c, Funded, 0, {a})]);
            var four := NextWorld(NextWorld(w, Sign(2)), Other(Release(false, Some(4), None)));
            var signed := NextWorld(four, Sign(3));
            && four.account.released == 4 && signed.account.released == 0 && signed.account.status == Approved
            && NextWorld(signed, Other(Release(false, None, None))).account.released == 10
  {
    hide Approving;
    assert e.Approvers() == {a} by {
      OnlyOne(e, a, b, c);
    }
    var twice := e.(approvals := e.approvals[b := true]);
    SignersAfter(e, b);
    SignersAfter(twice, c);
    assert |{a} + {b}| == 2 && |{a} + {c}| == 2 && |{a} + {b} + {c}| == 3;
  }

  lemma OnlyOne(e: Account, a: nat, b: nat, c: nat)
    requires a != b && a != c && b != c && e.approvals == map[a := true, b := false, c := false]
    ensures e.Approvers() == {a}
  {
  }

  /** Of an escrow of 10 first 4 are released and then 10. */
  lemma ReleasedTwice(a: nat, b: nat, c: nat)
    requires a != b && a != c && b != c
    ensures var d := Draft(a, Standard, 2, [a, b, c], [], 10, None, None);
            && Create(d, 0).Ok?
            && var e, steps := Create(d, 0).value, SignedAfterRelease(a, b, c);
            && RunWorld(e, steps[..10]).account.released == 4
            && RunWorld(e, steps[..11]).account.released == 0
            && RunWorld(e, steps).account.released == 10
  {
    hide RunWorld, NextWorld;
    var d := Draft(a, Standard, 2, [a, b, c], [], 10, None, None);
    var e, steps := Create(d, 0).value, SignedAfterRelease(a, b, c);
    assert e.approvals == map[a := false, b := false, c := false];
    OneOfThreeSigns(e, a, b, c);
    var once := e.(status := Funded, approvals := map[a := true, b := false, c := false]);
    TwoRead(once, a, b, c);
    ThirdForgets(once, a, b, c);
    RunStep(e, steps, 4);
    RunStep(e, steps, 5);
    RunStep(e, steps, 6);
    RunStep(e, steps, 7);
    RunStep(e, steps, 8);
    RunStep(e, steps, 9);
    RunStep(e, steps, 10);
    RunStep(e, steps, 11);
    assert steps[..12] == steps;
  }
}
