/** All escrow accounts: creation counts the pending ones of a creator, each operation works on one account. */
module EscrowAccounts {
  import opened Options
  import opened Escrow

  datatype Store = Store(accounts: map<nat, Account>, nextId: nat)

  datatype Request = Open(draft: Draft) | Operate(id: nat, op: Operation)

  function PendingOf(s: Store, creator: nat): set<nat> {
    set id | id in s.accounts && s.accounts[id].creator == creator && s.accounts[id].status == Pending
  }

  function Serve(s: Store, request: Request): Store {
    match request
    case Open(draft) =>
      (match Create(draft, |PendingOf(s, draft.creator)|)
       case Err(_) => s
       case Ok(e) => Store(s.accounts[s.nextId := e], s.nextId + 1))
    case Operate(id, op) =>
      if id in s.accounts then s.(accounts := s.accounts[id := Next(s.accounts[id], op)]) else s
  }

  function ServeAll(requests: seq<Request>): Store {
    if requests == [] then Store(map[], 0)
    else Serve(ServeAll(requests[..|requests| - 1]), requests[|requests| - 1])
  }

  ghost predicate WithinLimit(s: Store) {
    && (forall id :: id in s.accounts ==> id < s.nextId)
    && (forall creator :: |PendingOf(s, creator)| <= 50)
  }

  /** No operation makes an escrow pending again or gives it another creator. */
  lemma NeverPendingAgain(e: Account, op: Operation)
    ensures Next(e, op).creator == e.creator
    ensures Next(e, op).status == Pending ==> e.status == Pending
  {
  }

  lemma OneMorePending(s: Store, e: Account, creator: nat)
    requires s.nextId !in s.accounts && e.status == Pending
    ensures PendingOf(Store(s.accounts[s.nextId := e], s.nextId + 1), creator) ==
            PendingOf(s, creator) + if creator == e.creator then {s.nextId} else {}
  {
  }

  lemma OpeningKeepsLimit(s: Store, draft: Draft, creator: nat)
    requires WithinLimit(s)
    ensures |PendingOf(Serve(s, Open(draft)), creator)| <= 50
  {
    hide Create, PendingOf;
    var created := Create(draft, |PendingOf(s, draft.creator)|);
    CreatedIsPending(draft, |PendingOf(s, draft.creator)|);
    if created.Ok? {
      OneMorePending(s, created.value, creator);
    }
  }

  lemma OperatingKeepsLimit(s: Store, id: nat, op: Operation, creator: nat)
    requires WithinLimit(s)
    ensures |PendingOf(Serve(s, Operate(id, op)), creator)| <= 50
  {
    hide Next;
    if id in s.accounts {
      NeverPendingAgain(s.accounts[id], op);
    }
    var left, before := PendingOf(Serve(s, Operate(id, op)), creator), PendingOf(s, creator);
    assert before == left + (before - left);
  }

  lemma ServeKeepsLimit(s: Store, request: Request)
    requires WithinLimit(s)
    ensures WithinLimit(Serve(s, request))
  {
    hide Create, Next, PendingOf;
    forall creator ensures |PendingOf(Serve(s, request), creator)| <= 50 {
      match request
      case Open(draft) => OpeningKeepsLimit(s, draft, creator);
      case Operate(id, op) => OperatingKeepsLimit(s, id, op, creator);
    }
  }

  lemma CreatedIsPending(d: Draft, pending: nat)
    ensures Create(d, pending).Ok? ==>
              var e := Create(d, pending).value;
              pending < 50 && e.creator == d.creator && e.status == Pending
  {
  }

  /** In every run of creations and operations no creator ever has more than fifty pending escrows. */
  lemma AtMostFiftyPending(requests: seq<Request>, creator: nat)
    ensures |PendingOf(ServeAll(requests), creator)| <= 50
  {
    RunWithinLimit(requests);
  }

  lemma {:induction false} RunWithinLimit(requests: seq<Request>)
    ensures WithinLimit(ServeAll(requests))
  {
    hide Serve;
    if requests != [] {
      RunWithinLimit(requests[..|requests| - 1]);
      ServeKeepsLimit(ServeAll(requests[..|requests| - 1]), requests[|requests| - 1]);
    }
  }
}
