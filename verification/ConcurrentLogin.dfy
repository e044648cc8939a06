/**
 Logins, new challenges and cleanups in any interleaving: each query of a login is a step of its
 own, and nothing relies on the row lock.
 */
module ConcurrentLogin {
  import opened Options
  import C = Challenge

  /** How far a login has come; `at` is the time of its second look, `seen` what the search for newer ones saw. */
  datatype Phase =
    | Found(q: C.Request, id: nat)
    | Locked(q: C.Request, id: nat, at: int)
    | Checked(q: C.Request, id: nat, at: int, seen: C.Table)
    | Signed(q: C.Request, id: nat, at: int, seen: C.Table)
    | Rejected
    | Accepted

  datatype Success = Success(login: nat, q: C.Request, id: nat, at: int, seen: C.Table)

  /** `issued` remembers every challenge as it was created, deleted or not. */
  datatype World = World(
    table: C.Table, issued: C.Table, nextId: nat, logins: map<nat, Phase>, successes: seq<Success>)

  datatype Step =
    | Create(nonce: string, publicKey: string, createdAt: int, expiresAt: int)
    | Cleanup(now: int)
    | Find(login: nat, q: C.Request, now: int, pick: nat)
    | Lock(login: nat, now: int)
    | CheckNewest(login: nat, pick: nat)
    | Sign(login: nat)
    | Consume(login: nat)

  function Init(): World {
    World(map[], map[], 0, map[], [])
  }

  function To(w: World, login: nat, p: Phase): World {
    w.(logins := w.logins[login := p])
  }

  /** A nonce is never drawn twice. */
  predicate IsNew(w: World, nonce: string) {
    forall id :: id in w.issued ==> w.issued[id].nonce != nonce
  }

  function FindPhase(r: C.Rules, w: World, login: nat, q: C.Request, now: int, pick: nat): Option<Phase> {
    var matching := C.Matching(w.table, q.nonce, q.publicKey);
    if login in w.logins then None
    else if !r.isKey(q.publicKey) || matching == {} then Some(Rejected)
    else if pick !in matching then None
    else if w.table[pick].isUsed || now > w.table[pick].expiresAt then Some(Rejected)
    else Some(Found(q, pick))
  }

  function LockPhase(w: World, p: Phase, now: int): Option<Phase> {
    if !p.Found? then None
    else if p.id !in w.table || w.table[p.id].isUsed || now > w.table[p.id].expiresAt then Some(Rejected)
    else Some(Locked(p.q, p.id, now))
  }

  function NewestPhase(w: World, p: Phase, pick: nat): Option<Phase> {
    if !p.Locked? then None
    else
      var newest := C.Newest(w.table, p.q.publicKey);
      if newest == {} then Some(Rejected)
      else if pick !in newest then None
      else if pick != p.id then Some(Rejected)
      else Some(Checked(p.q, p.id, p.at, w.table))
  }

  function SignPhase(r: C.Rules, p: Phase): Option<Phase> {
    if !p.Checked? then None
    else if r.verifies(p.q.publicKey, p.q.nonce, p.q.signature) then Some(Signed(p.q, p.id, p.at, p.seen))
    else Some(Rejected)
  }

  /** The phase a step brings its login to, when the step is possible and only looks at the table. */
  function NewPhase(r: C.Rules, w: World, step: Step): Option<Phase> {
    match step
    case Find(login, q, now, pick) => FindPhase(r, w, login, q, now, pick)
    case Lock(login, now) => if login in w.logins then LockPhase(w, w.logins[login], now) else None
    case CheckNewest(login, pick) => if login in w.logins then NewestPhase(w, w.logins[login], pick) else None
    case Sign(login) => if login in w.logins then SignPhase(r, w.logins[login]) else None
    case _ => None
  }

  /** The conditional update that consumes a challenge. */
  function Consumed(w: World, login: nat, p: Phase): World
    requires p.Signed?
  {
    if p.id !in w.table || w.table[p.id].isUsed then To(w, login, Rejected)
    else
      To(w.(table := w.table[p.id := w.table[p.id].(isUsed := true)],
         successes := w.successes + [Success(login, p.q, p.id, p.at, p.seen)]), login, Accepted)
  }

  function Created(w: World, row: C.Row): World {
    w.(table := w.table[w.nextId := row], issued := w.issued[w.nextId := row], nextId := w.nextId + 1)
  }

  /** A step that is not possible changes nothing; `pick` is the row a query returns. */
  function Apply(r: C.Rules, w: World, step: Step): World {
    match step
    case Create(nonce, publicKey, createdAt, expiresAt) =>
      if r.isKey(publicKey) && IsNew(w, nonce) then Created(w, C.Row(nonce, publicKey, createdAt, expiresAt, false))
      else w
    case Cleanup(now) => w.(table := C.AfterCleanup(w.table, now))
    case Consume(login) =>
      if login in w.logins && w.logins[login].Signed? then Consumed(w, login, w.logins[login]) else w
    case _ => Looked(w, step.login, NewPhase(r, w, step))
  }

  function Looked(w: World, login: nat, p: Option<Phase>): World {
    if p.Some? then To(w, login, p.value) else w
  }

  function Run(r: C.Rules, steps: seq<Step>): World {
    if steps == [] then Init() else Apply(r, Run(r, steps[..|steps| - 1]), steps[|steps| - 1])
  }

  // ---------------------------------------------------------------- what every step keeps

  /** The challenge a login works on is the one its request names. */
  ghost predicate Names(w: World, q: C.Request, id: nat) {
    id in w.issued && w.issued[id].nonce == q.nonce && w.issued[id].publicKey == q.publicKey
  }

  ghost predicate Fresh(w: World, q: C.Request, id: nat, at: int) {
    Names(w, q, id) && at <= w.issued[id].expiresAt
  }

  ghost predicate PhaseOk(r: C.Rules, w: World, p: Phase) {
    match p
    case Found(q, id) => Names(w, q, id)
    case Locked(q, id, at) => Fresh(w, q, id, at)
    case Checked(q, id, at, seen) => Fresh(w, q, id, at) && id in C.Newest(seen, q.publicKey)
    case Signed(q, id, at, seen) =>
      && Fresh(w, q, id, at) && id in C.Newest(seen, q.publicKey)
      && r.verifies(q.publicKey, q.nonce, q.signature)
    case _ => true
  }

  ghost predicate SuccessOk(r: C.Rules, w: World, s: Success) {
    && PhaseOk(r, w, Signed(s.q, s.id, s.at, s.seen))
    && (s.id in w.table ==> w.table[s.id].isUsed)
  }

  ghost predicate TableOk(w: World) {
    && (forall id :: id in w.issued ==> id < w.nextId)
    && (forall a, b :: a in w.issued && b in w.issued && a != b ==> w.issued[a].nonce != w.issued[b].nonce)
    && (forall id :: id in w.table ==>
                       id in w.issued && w.table[id].(isUsed := false) == w.issued[id].(isUsed := false))
  }

  ghost predicate Inv(r: C.Rules, w: World) {
    && TableOk(w)
    && (forall l :: l in w.logins ==> PhaseOk(r, w, w.logins[l]))
    && (forall i :: 0 <= i < |w.successes| ==> SuccessOk(r, w, w.successes[i]))
    && (forall i, j :: 0 <= i < j < |w.successes| ==> w.successes[i].id != w.successes[j].id)
  }

  /** The history of challenges only grows. */
  ghost predicate Extends(w: World, v: World) {
    forall id :: id in w.issued ==> id in v.issued && v.issued[id] == w.issued[id]
  }

  lemma PhaseKept(r: C.Rules, w: World, v: World, p: Phase)
    requires PhaseOk(r, w, p) && Extends(w, v)
    ensures PhaseOk(r, v, p)
  {
  }

  lemma StepKeepsTable(r: C.Rules, w: World, step: Step)
    requires TableOk(w)
    ensures TableOk(Apply(r, w, step)) && Extends(w, Apply(r, w, step))
  {
    hide NewPhase;
    match step
    case Create(nonce, publicKey, createdAt, expiresAt) =>
      if IsNew(w, nonce) {
        CreationKeepsTable(w, C.Row(nonce, publicKey, createdAt, expiresAt, false));
      }
    case Consume(login) => ConsumptionKeepsTable(r, w, login);
    case Cleanup(now) => CleanupKeepsTable(w, now);
    case _ =>
  }

  lemma CreationKeepsTable(w: World, row: C.Row)
    requires TableOk(w) && IsNew(w, row.nonce)
    ensures TableOk(Created(w, row)) && Extends(w, Created(w, row))
  {
  }

  lemma ConsumptionKeepsTable(r: C.Rules, w: World, login: nat)
    requires TableOk(w)
    ensures TableOk(Apply(r, w, Consume(login))) && Extends(w, Apply(r, w, Consume(login)))
  {
    hide NewPhase, C.AfterCleanup;
  }

  lemma CleanupKeepsTable(w: World, now: int)
    requires TableOk(w)
    ensures TableOk(w.(table := C.AfterCleanup(w.table, now)))
  {
  }

  lemma NewPhaseOk(r: C.Rules, w: World, step: Step)
    requires TableOk(w) && NewPhase(r, w, step).Some?
    requires !step.Find? && step.login in w.logins ==> PhaseOk(r, w, w.logins[step.login])
    ensures PhaseOk(r, w, NewPhase(r, w, step).value)
  {
    hide C.Newest;
  }

  lemma StepKeepsLogins(r: C.Rules, w: World, step: Step, l: nat)
    requires Inv(r, w) && l in Apply(r, w, step).logins
    ensures PhaseOk(r, Apply(r, w, step), Apply(r, w, step).logins[l])
  {
    hide NewPhase, PhaseOk, SuccessOk, TableOk;
    var v := Apply(r, w, step);
    StepKeepsTable(r, w, step);
    if l in w.logins {
      PhaseKept(r, w, v, w.logins[l]);
    }
    if NewPhase(r, w, step).Some? {
      NewPhaseOk(r, w, step);
      PhaseKept(r, w, v, NewPhase(r, w, step).value);
    }
    EndedIsOk(r, v);
  }

  lemma EndedIsOk(r: C.Rules, w: World)
    ensures PhaseOk(r, w, Accepted) && PhaseOk(r, w, Rejected)
  {
  }

  /** A used challenge stays used until it is deleted, and a deleted one never comes back. */
  lemma StepKeepsUsed(r: C.Rules, w: World, step: Step, id: nat)
    requires TableOk(w) && id in w.issued && (id in w.table ==> w.table[id].isUsed)
    ensures id in Apply(r, w, step).table ==> Apply(r, w, step).table[id].isUsed
  {
    hide NewPhase;
  }

  lemma SuccessKept(r: C.Rules, w: World, step: Step, s: Success)
    requires TableOk(w) && SuccessOk(r, w, s)
    ensures SuccessOk(r, Apply(r, w, step), s)
  {
    hide Apply, TableOk, C.Newest;
    StepKeepsTable(r, w, step);
    StepKeepsUsed(r, w, step, s.id);
    PhaseKept(r, w, Apply(r, w, step), Signed(s.q, s.id, s.at, s.seen));
  }

  /** A new success is of a challenge that was unused, so no earlier success was of the same one. */
  lemma NewSuccess(r: C.Rules, w: World, login: nat)
    requires Inv(r, w) && login in w.logins && w.logins[login].Signed?
    ensures var v := Consumed(w, login, w.logins[login]);
            v.successes != w.successes ==>
              && v.successes == w.successes + [v.successes[|w.successes|]]
              && SuccessOk(r, v, v.successes[|w.successes|])
              && forall i :: 0 <= i < |w.successes| ==> w.successes[i].id != v.successes[|w.successes|].id
  {
    hide C.Newest;
    var v, p := Consumed(w, login, w.logins[login]), w.logins[login];
    assert PhaseOk(r, w, p);
    forall i | 0 <= i < |w.successes| && v.successes != w.successes ensures w.successes[i].id != p.id {
      assert SuccessOk(r, w, w.successes[i]);
    }
  }

  lemma StepKeepsSuccesses(r: C.Rules, w: World, step: Step)
    requires Inv(r, w)
    ensures var v := Apply(r, w, step);
            && (forall i :: 0 <= i < |v.successes| ==> SuccessOk(r, v, v.successes[i]))
            && (forall i, j :: 0 <= i < j < |v.successes| ==> v.successes[i].id != v.successes[j].id)
  {
    hide NewPhase, PhaseOk, SuccessOk, TableOk, Consumed;
    var v := Apply(r, w, step);
    forall i | 0 <= i < |w.successes| ensures SuccessOk(r, v, w.successes[i]) {
      SuccessKept(r, w, step, w.successes[i]);
    }
    if step.Consume? && step.login in w.logins && w.logins[step.login].Signed? {
      NewSuccess(r, w, step.login);
    }
  }

  lemma StepKeepsInv(r: C.Rules, w: World, step: Step)
    requires Inv(r, w)
    ensures Inv(r, Apply(r, w, step))
  {
    hide Apply, TableOk, PhaseOk, SuccessOk;
    StepKeepsTable(r, w, step);
    StepKeepsSuccesses(r, w, step);
    forall l | l in Apply(r, w, step).logins ensures PhaseOk(r, Apply(r, w, step), Apply(r, w, step).logins[l]) {
      StepKeepsLogins(r, w, step, l);
    }
  }

  lemma {:induction false} RunKeepsInv(r: C.Rules, steps: seq<Step>)
    ensures Inv(r, Run(r, steps))
  {
    if steps != [] {
      RunKeepsInv(r, steps[..|steps| - 1]);
      StepKeepsInv(r, Run(r, steps[..|steps| - 1]), steps[|steps| - 1]);
    }
  }

  /**
   In every interleaving each nonce succeeds at most once, and what succeeds was correctly signed
   by the key it was issued for and had not expired at its second look.
   */
  lemma NonceSucceedsOnce(r: C.Rules, steps: seq<Step>, i: nat, j: nat)
    requires i < |Run(r, steps).successes| && j < |Run(r, steps).successes|
    ensures var w := Run(r, steps);
            var s := w.successes[i];
            && (s.q.nonce == w.successes[j].q.nonce ==> i == j)
            && r.verifies(s.q.publicKey, s.q.nonce, s.q.signature)
            && s.id in w.issued && w.issued[s.id].nonce == s.q.nonce && w.issued[s.id].publicKey == s.q.publicKey
            && s.at <= w.issued[s.id].expiresAt
  {
    hide Apply;
    RunKeepsInv(r, steps);
    var w := Run(r, steps);
    assert SuccessOk(r, w, w.successes[i]) && SuccessOk(r, w, w.successes[j]);
  }

  // ---------------------------------------------------------------- a login that does not succeed

  predicate IsOf(step: Step, login: nat) {
    !step.Create? && !step.Cleanup? && step.login == login
  }

  /** The run without the steps of a login. */
  function Without(steps: seq<Step>, login: nat): seq<Step> {
    if steps == [] then []
    else
      var n := |steps| - 1;
      Without(steps[..n], login) + if IsOf(steps[n], login) then [] else [steps[n]]
  }

  function Forget(w: World, login: nat): World {
    w.(logins := w.logins - {login})
  }

  predicate HasSucceeded(w: World, login: nat) {
    login in w.logins && w.logins[login].Accepted?
  }

  lemma ForgetOther(w: World, other: nat, p: Phase, login: nat)
    ensures other != login ==> Forget(To(w, other, p), login) == To(Forget(w, login), other, p)
    ensures other == login ==> Forget(To(w, other, p), login) == Forget(w, login)
  {
    if other != login {
      assert w.logins[other := p] - {login} == (w.logins - {login})[other := p];
    } else {
      assert w.logins[other := p] - {login} == w.logins - {login};
    }
  }

  lemma SamePhase(r: C.Rules, w: World, step: Step, login: nat)
    requires !IsOf(step, login)
    ensures NewPhase(r, Forget(w, login), step) == NewPhase(r, w, step)
  {
    hide C.Newest, C.Matching;
  }

  lemma OthersDoNotCare(r: C.Rules, w: World, step: Step, login: nat)
    requires !IsOf(step, login)
    ensures Apply(r, Forget(w, login), step) == Forget(Apply(r, w, step), login)
  {
    hide NewPhase, C.AfterCleanup, IsNew, To, Forget;
    match step
    case Create(_, _, _, _) => ForgetCreates(r, w, step, login);
    case Cleanup(_) => ForgetCreates(r, w, step, login);
    case Consume(other) => ForgetConsumes(r, w, other, login);
    case _ =>
      SamePhase(r, w, step, login);
      var p := NewPhase(r, w, step);
      if p.Some? {
        ForgetOther(w, step.login, p.value, login);
      }
  }

  lemma ForgetCreates(r: C.Rules, w: World, step: Step, login: nat)
    requires step.Create? || step.Cleanup?
    ensures Apply(r, Forget(w, login), step) == Forget(Apply(r, w, step), login)
  {
    hide C.AfterCleanup, NewPhase;
  }

  lemma ForgetConsumes(r: C.Rules, w: World, other: nat, login: nat)
    requires other != login
    ensures Apply(r, Forget(w, login), Consume(other)) == Forget(Apply(r, w, Consume(other)), login)
  {
    hide To, NewPhase;
    if other in w.logins && w.logins[other].Signed? {
      var p := w.logins[other];
      if p.id !in w.table || w.table[p.id].isUsed {
        ForgetOther(w, other, Rejected, login);
      } else {
        var v := w.(table := w.table[p.id := w.table[p.id].(isUsed := true)],
        successes := w.successes + [Success(other, p.q, p.id, p.at, p.seen)]);
        ForgetOther(v, other, Accepted, login);
      }
    }
  }

  lemma OwnStepsAreInvisible(r: C.Rules, w: World, step: Step, login: nat)
    requires IsOf(step, login) && !HasSucceeded(Apply(r, w, step), login)
    ensures Forget(Apply(r, w, step), login) == Forget(w, login)
  {
    hide NewPhase;
    if step.Consume? {
      ForgetOther(w, login, Rejected, login);
    } else {
      var p := NewPhase(r, w, step);
      if p.Some? {
        ForgetOther(w, login, p.value, login);
      }
    }
  }

  lemma SuccessIsFinal(r: C.Rules, w: World, step: Step, login: nat)
    requires HasSucceeded(w, login)
    ensures HasSucceeded(Apply(r, w, step), login)
  {
    hide C.Newest, C.Matching, C.AfterCleanup, IsNew;
  }

  lemma RunAppends(r: C.Rules, steps: seq<Step>, step: Step)
    ensures Run(r, steps + [step]) == Apply(r, Run(r, steps), step)
  {
    hide Apply;
    assert (steps + [step])[..|steps|] == steps;
  }

  /**
   In every interleaving a login that has not succeeded leaves no trace: the tables, the successes and
   all other logins are as if none of its steps had been taken.
   */
  lemma {:induction false} OnlySuccessChanges(r: C.Rules, steps: seq<Step>, login: nat)
    requires !HasSucceeded(Run(r, steps), login)
    ensures Run(r, Without(steps, login)) == Forget(Run(r, steps), login)
  {
    hide Apply, HasSucceeded;
    if steps == [] {
      assert Forget(Init(), login) == Init();
    } else {
      var n := |steps| - 1;
      var w, step := Run(r, steps[..n]), steps[n];
      if HasSucceeded(w, login) {
        SuccessIsFinal(r, w, step, login);
      }
      OnlySuccessChanges(r, steps[..n], login);
      if IsOf(step, login) {
        OwnStepsAreInvisible(r, w, step, login);
        assert Without(steps, login) == Without(steps[..n], login);
      } else {
        OthersDoNotCare(r, w, step, login);
        RunAppends(r, Without(steps[..n], login), step);
      }
    }
  }

  // ---------------------------------------------------------------- the checks really happened

  /** At some earlier step of the login the challenge was looked at a second time, unused and in time. */
  ghost predicate WasLocked(r: C.Rules, steps: seq<Step>, login: nat, id: nat, at: int) {
    exists k :: 0 <= k < |steps| && steps[k] == Lock(login, at)
                && id in Run(r, steps[..k]).table && !Run(r, steps[..k]).table[id].isUsed
                && at <= Run(r, steps[..k]).table[id].expiresAt
  }

  /** At some earlier step the login searched for newer challenges in the table `seen`. */
  ghost predicate WasNewest(r: C.Rules, steps: seq<Step>, login: nat, id: nat, seen: C.Table) {
    exists k :: 0 <= k < |steps| && steps[k] == CheckNewest(login, id) && Run(r, steps[..k]).table == seen
  }

  ghost predicate Happened(r: C.Rules, steps: seq<Step>, login: nat, p: Phase) {
    match p
    case Locked(_, id, at) => WasLocked(r, steps, login, id, at)
    case Checked(_, id, at, seen) => WasLocked(r, steps, login, id, at) && WasNewest(r, steps, login, id, seen)
    case Signed(_, id, at, seen) => WasLocked(r, steps, login, id, at) && WasNewest(r, steps, login, id, seen)
    case _ => true
  }

  lemma StillHappened(r: C.Rules, steps: seq<Step>, n: nat, login: nat, p: Phase)
    requires n <= |steps| && Happened(r, steps[..n], login, p)
    ensures Happened(r, steps, login, p)
  {
    hide Run;
    assert forall k :: 0 <= k <= n ==> steps[..n][..k] == steps[..k];
    if p.Locked? || p.Checked? || p.Signed? {
      var k :| 0 <= k < n && steps[..n][k] == Lock(login, p.at)
               && p.id in Run(r, steps[..n][..k]).table && !Run(r, steps[..n][..k]).table[p.id].isUsed
               && p.at <= Run(r, steps[..n][..k]).table[p.id].expiresAt;
      assert steps[k] == Lock(login, p.at) && steps[..n][..k] == steps[..k];
    }
    if p.Checked? || p.Signed? {
      var k :| 0 <= k < n && steps[..n][k] == CheckNewest(login, p.id) && Run(r, steps[..n][..k]).table == p.seen;
      assert steps[k] == CheckNewest(login, p.id) && steps[..n][..k] == steps[..k];
    }
  }

  lemma {:induction false} LoginsHappened(r: C.Rules, steps: seq<Step>, l: nat)
    ensures l in Run(r, steps).logins ==> Happened(r, steps, l, Run(r, steps).logins[l])
  {
    if steps != [] {
      var n := |steps| - 1;
      var w, step := Run(r, steps[..n]), steps[n];
      LoginsHappened(r, steps[..n], l);
      LastStepHappened(r, steps, w, step, l);
    }
  }

  lemma LastStepHappened(r: C.Rules, steps: seq<Step>, w: World, step: Step, l: nat)
    requires steps != [] && step == steps[|steps| - 1] && w == Run(r, steps[..|steps| - 1])
    requires l in w.logins ==> Happened(r, steps[..|steps| - 1], l, w.logins[l])
    ensures l in Apply(r, w, step).logins ==> Happened(r, steps, l, Apply(r, w, step).logins[l])
  {
    hide Run, C.Newest;
    var n := |steps| - 1;
    if l in w.logins {
      StillHappened(r, steps, n, l, w.logins[l]);
    }
    assert steps[n] == step;
  }

  /** Every success was unused and in time when it was looked at, and the newest when that was checked. */
  lemma {:induction false} SuccessesHappened(r: C.Rules, steps: seq<Step>, i: nat)
    requires i < |Run(r, steps).successes|
    ensures var s := Run(r, steps).successes[i];
            && WasLocked(r, steps, s.login, s.id, s.at) && WasNewest(r, steps, s.login, s.id, s.seen)
            && s.id in C.Newest(s.seen, s.q.publicKey)
  {
    hide C.Newest, NewPhase, WasLocked, WasNewest;
    var n := |steps| - 1;
    var w, step := Run(r, steps[..n]), steps[n];
    RunKeepsInv(r, steps);
    var s := Run(r, steps).successes[i];
    assert SuccessOk(r, Run(r, steps), s);
    if i < |w.successes| {
      SuccessesHappened(r, steps[..n], i);
    } else {
      LoginsHappened(r, steps[..n], step.login);
      assert w.logins[step.login] == Signed(s.q, s.id, s.at, s.seen);
    }
    StillHappened(r, steps, n, s.login, Signed(s.q, s.id, s.at, s.seen));
  }

  // ---------------------------------------------------------------- without interference

  /** The five steps of a login with nothing in between. */
  function Alone(r: C.Rules, w: World, login: nat, q: C.Request, now: int): World {
    var found := Apply(r, w, Find(login, q, now, r.pick(C.Matching(w.table, q.nonce, q.publicKey))));
    var locked := Apply(r, found, Lock(login, now));
    var checked := Apply(r, locked, CheckNewest(login, r.pick(C.Newest(w.table, q.publicKey))));
    Apply(r, Apply(r, checked, Sign(login)), Consume(login))
  }

  /** A login that nothing interferes with does what the login as one transaction does. */
  lemma AloneIsVerify(r: C.Rules, w: World, login: nat, q: C.Request, now: int)
    requires C.Picks(r) && login !in w.logins
    ensures var v := Alone(r, w, login, q, now);
            && v.table == C.AfterVerify(r, w.table, q, now) && login in v.logins
            && v.logins[login] == if C.Verify(r, w.table, q, now).Ok? then Accepted else Rejected
  {
    hide C.Newest, C.Matching, Apply;
    var matching := C.Matching(w.table, q.nonce, q.publicKey);
    var found := Apply(r, w, Find(login, q, now, r.pick(matching)));
    MatchingIsStored(w.table, q.nonce, q.publicKey);
    Finds(r, w, login, q, now);
    if found.logins[login].Found? {
      FoundIsVerify(r, found, login, q, r.pick(matching), now);
    } else {
      RejectedStays(r, found, Lock(login, now), login);
      RejectedStays(r, found, CheckNewest(login, r.pick(C.Newest(w.table, q.publicKey))), login);
      RejectedStays(r, found, Sign(login), login);
      RejectedStays(r, found, Consume(login), login);
    }
  }

  lemma RejectedStays(r: C.Rules, w: World, step: Step, login: nat)
    requires login in w.logins && w.logins[login].Rejected? && IsOf(step, login)
    ensures Apply(r, w, step) == w
  {
    hide C.Newest, C.Matching;
  }

  lemma Finds(r: C.Rules, w: World, login: nat, q: C.Request, now: int)
    requires C.Picks(r) && login !in w.logins
    ensures var matching := C.Matching(w.table, q.nonce, q.publicKey);
            var id := r.pick(matching);
            var found := Apply(r, w, Find(login, q, now, id));
            && found.table == w.table && login in found.logins
            && if r.isKey(q.publicKey) && matching != {} && id in w.table && !w.table[id].isUsed
                  && now <= w.table[id].expiresAt
               then found.logins[login] == Found(q, id)
               else found.logins[login].Rejected?
  {
    hide C.Newest, C.Matching;
    var matching := C.Matching(w.table, q.nonce, q.publicKey);
    assert matching != {} ==> r.pick(matching) in matching;
    MatchingIsStored(w.table, q.nonce, q.publicKey);
  }

  /** From the first look on. */
  lemma FoundIsVerify(r: C.Rules, w: World, login: nat, q: C.Request, id: nat, now: int)
    requires C.Picks(r) && login in w.logins && w.logins[login] == Found(q, id)
    requires id in w.table && !w.table[id].isUsed && now <= w.table[id].expiresAt
    ensures var newest := C.Newest(w.table, q.publicKey);
            var checked := Apply(r, Apply(r, w, Lock(login, now)), CheckNewest(login, r.pick(newest)));
            var v := Apply(r, Apply(r, checked, Sign(login)), Consume(login));
            var ok := newest != {} && r.pick(newest) == id && r.verifies(q.publicKey, q.nonce, q.signature);
            && login in v.logins && v.logins[login] == (if ok then Accepted else Rejected)
            && v.table == if ok then w.table[id := w.table[id].(isUsed := true)] else w.table
  {
    hide C.Newest, C.Matching;
    var newest := C.Newest(w.table, q.publicKey);
    assert newest != {} ==> r.pick(newest) in newest;
    var locked := Apply(r, w, Lock(login, now));
    assert locked == To(w, login, Locked(q, id, now));
    var checked := Apply(r, locked, CheckNewest(login, r.pick(newest)));
    if newest == {} || r.pick(newest) != id {
      assert checked == To(locked, login, Rejected);
    } else {
      assert checked == To(locked, login, Checked(q, id, now, w.table));
    }
  }

  lemma MatchingIsStored(t: C.Table, nonce: string, publicKey: string)
    ensures forall id :: id in C.Matching(t, nonce, publicKey) ==> id in t
  {
  }
}
