/**
 Wallet login by signed challenge: the table of challenges, with each operation as one
 transaction. Times are milliseconds.
 */
module Challenge {
  import opened Options

  datatype Row = Row(nonce: string, publicKey: string, createdAt: int, expiresAt: int, isUsed: bool)

  type Table = map<nat, Row>

  datatype Request = Request(nonce: string, publicKey: string, signature: string)

  datatype Rejection = BadKey | Invalid | AlreadyUsed | Expired | Superseded | BadSignature

  /** What is decided elsewhere: key syntax, signatures, and the row a query returns among equal ones. */
  datatype Rules = Rules(isKey: string -> bool, verifies: (string, string, string) -> bool, pick: set<nat> -> nat)

  ghost predicate Picks(r: Rules) {
    forall s: set<nat> :: s != {} ==> r.pick(s) in s
  }

  function Matching(t: Table, nonce: string, publicKey: string): set<nat> {
    set id | id in t && t[id].nonce == nonce && t[id].publicKey == publicKey
  }

  function Unused(t: Table, publicKey: string): set<nat> {
    set id | id in t && t[id].publicKey == publicKey && !t[id].isUsed
  }

  /** The unused challenges of a key that no other one is newer than. */
  function Newest(t: Table, publicKey: string): set<nat> {
    set id | id in Unused(t, publicKey) && forall o :: o in Unused(t, publicKey) ==> t[o].createdAt <= t[id].createdAt
  }

  /** verifyChallenge: the challenge it consumes, or why it rejects. */
  function Verify(r: Rules, t: Table, q: Request, now: int): (result: Result<nat, Rejection>)
    requires Picks(r)
    ensures result.Ok? ==> result.value in t
  {
    var matching := Matching(t, q.nonce, q.publicKey);
    if !r.isKey(q.publicKey) then Err(BadKey)
    else if matching == {} then Err(Invalid)
    else
      var id := r.pick(matching);
      if t[id].isUsed then Err(AlreadyUsed)
      else if now > t[id].expiresAt then Err(Expired)
      else
        var newest := Newest(t, q.publicKey);
        if newest == {} || r.pick(newest) != id then Err(Superseded)
        else if !r.verifies(q.publicKey, q.nonce, q.signature) then Err(BadSignature)
        else Ok(id)
  }

  function AfterVerify(r: Rules, t: Table, q: Request, now: int): Table
    requires Picks(r)
  {
    match Verify(r, t, q, now)
    case Ok(id) => t[id := t[id].(isUsed := true)]
    case Err(_) => t
  }

  /** createChallenge: a challenge lives for two minutes. */
  function AfterCreate(r: Rules, t: Table, id: nat, nonce: string, publicKey: string, now: int): Table {
    if r.isKey(publicKey) then t[id := Row(nonce, publicKey, now, now + 120_000, false)] else t
  }

  /** What the cleanup keeps of the challenges. */
  function AfterCleanup(t: Table, now: int): Table {
    map id | id in t && !(t[id].expiresAt <= now || t[id].isUsed) :: t[id]
  }

  // ---------------------------------------------------------------- who can log in

  ghost predicate NoncesDiffer(t: Table) {
    forall a, b :: a in t && b in t && a != b ==> t[a].nonce != t[b].nonce
  }

  lemma OnlyMatch(r: Rules, t: Table, q: Request, id: nat)
    requires Picks(r) && NoncesDiffer(t) && id in Matching(t, q.nonce, q.publicKey)
    ensures r.pick(Matching(t, q.nonce, q.publicKey)) == id
  {
    assert r.pick(Matching(t, q.nonce, q.publicKey)) in Matching(t, q.nonce, q.publicKey);
  }

  /** The one challenge of a key that can be consumed, until it expires. */
  function Winner(r: Rules, t: Table, publicKey: string): (id: Option<nat>)
    requires Picks(r)
    ensures id.Some? ==> id.value in Newest(t, publicKey) && id.value in t
  {
    var newest := Newest(t, publicKey);
    if newest == {} then None else Some(r.pick(newest))
  }

  /** A login succeeds exactly when it signs the winner of its key in time, and it consumes the winner. */
  lemma VerifyIff(r: Rules, t: Table, q: Request, now: int)
    requires Picks(r) && NoncesDiffer(t)
    ensures var w := Winner(r, t, q.publicKey);
            && (Verify(r, t, q, now).Ok? <==>
                && r.isKey(q.publicKey) && w.Some? && t[w.value].nonce == q.nonce && now <= t[w.value].expiresAt
                && r.verifies(q.publicKey, q.nonce, q.signature))
            && (Verify(r, t, q, now).Ok? ==> Verify(r, t, q, now) == Ok(w.value))
  {
    var w := Winner(r, t, q.publicKey);
    if w.Some? && t[w.value].nonce == q.nonce {
      assert w.value in Matching(t, q.nonce, q.publicKey);
      OnlyMatch(r, t, q, w.value);
    } else if Matching(t, q.nonce, q.publicKey) != {} {
      assert r.pick(Matching(t, q.nonce, q.publicKey)) in Matching(t, q.nonce, q.publicKey);
    }
  }

  // ---------------------------------------------------------------- when a cleanup changes a later login

  /** From a time on the same logins of a key succeed on both tables. */
  ghost predicate SameLogins(r: Rules, t: Table, u: Table, publicKey: string, from: int)
    requires Picks(r)
  {
    forall q: Request, now :: q.publicKey == publicKey && from <= now ==>
                                (Verify(r, t, q, now).Ok? <==> Verify(r, u, q, now).Ok?)
  }

  /** The owner of the key can sign its unused challenges. */
  ghost predicate Signable(r: Rules, t: Table, publicKey: string) {
    forall id :: id in Unused(t, publicKey) ==> exists signature :: r.verifies(publicKey, t[id].nonce, signature)
  }

  predicate Lives(r: Rules, t: Table, publicKey: string, from: int)
    requires Picks(r)
  {
    Winner(r, t, publicKey).Some? && from <= t[Winner(r, t, publicKey).value].expiresAt
  }

  ghost predicate PartOf(u: Table, t: Table) {
    forall id :: id in u ==> id in t && u[id] == t[id]
  }

  lemma SomebodyLogsIn(r: Rules, t: Table, publicKey: string, from: int) returns (q: Request)
    requires Picks(r) && NoncesDiffer(t) && r.isKey(publicKey)
    requires Signable(r, t, publicKey) && Lives(r, t, publicKey, from)
    ensures q.publicKey == publicKey && q.nonce == t[Winner(r, t, publicKey).value].nonce
    ensures r.verifies(publicKey, q.nonce, q.signature) && Verify(r, t, q, from).Ok?
  {
    var w := Winner(r, t, publicKey).value;
    var signature :| r.verifies(publicKey, t[w].nonce, signature);
    q := Request(t[w].nonce, publicKey, signature);
    VerifyIff(r, t, q, from);
  }

  /** The same winner lives on, or none does. */
  ghost predicate SameWinner(r: Rules, t: Table, u: Table, publicKey: string, from: int)
    requires Picks(r)
  {
    && (Lives(r, t, publicKey, from) <==> Lives(r, u, publicKey, from))
    && (Lives(r, t, publicKey, from) ==> Winner(r, t, publicKey) == Winner(r, u, publicKey))
  }

  lemma SameWinnerSameLogins(r: Rules, t: Table, u: Table, publicKey: string, from: int)
    requires Picks(r) && NoncesDiffer(t) && PartOf(u, t) && SameWinner(r, t, u, publicKey, from)
    ensures SameLogins(r, t, u, publicKey, from)
  {
    hide Newest, Verify;
    forall q: Request, now | q.publicKey == publicKey && from <= now
      ensures Verify(r, t, q, now).Ok? <==> Verify(r, u, q, now).Ok?
    {
      VerifyIff(r, t, q, now);
      VerifyIff(r, u, q, now);
    }
  }

  /** Forgetting rows changes no login from a time on exactly when the same winner lives on, or none does. */
  lemma SameLoginsIff(r: Rules, t: Table, u: Table, publicKey: string, from: int)
    requires Picks(r) && NoncesDiffer(t) && PartOf(u, t) && r.isKey(publicKey) && Signable(r, t, publicKey)
    ensures SameLogins(r, t, u, publicKey, from) <==> SameWinner(r, t, u, publicKey, from)
  {
    hide Newest, Verify;
    assert NoncesDiffer(u) && Signable(r, u, publicKey) by {
      assert forall id :: id in Unused(u, publicKey) ==> id in Unused(t, publicKey);
    }
    if SameWinner(r, t, u, publicKey, from) {
      SameWinnerSameLogins(r, t, u, publicKey, from);
    }
    if SameLogins(r, t, u, publicKey, from) {
      if Lives(r, t, publicKey, from) {
        var q := SomebodyLogsIn(r, t, publicKey, from);
        VerifyIff(r, u, q, from);
      }
      if Lives(r, u, publicKey, from) {
        var q := SomebodyLogsIn(r, u, publicKey, from);
        VerifyIff(r, t, q, from);
      }
    }
  }

  /** No two unused challenges of a key were created at the same time. */
  ghost predicate CreatedApart(t: Table, publicKey: string) {
    forall a, b :: a in Unused(t, publicKey) && b in Unused(t, publicKey) && a != b ==> t[a].createdAt != t[b].createdAt
  }

  /** The newest challenges of a key outlive a time. */
  predicate NewestOutlive(t: Table, publicKey: string, c: int) {
    forall id :: id in Newest(t, publicKey) ==> c < t[id].expiresAt
  }

  /** No unused challenge of a key outlives a time, and the newest are gone from `from` on. */
  predicate NoneOutlive(t: Table, publicKey: string, c: int, from: int) {
    && (forall id :: id in Unused(t, publicKey) ==> t[id].expiresAt <= c)
    && (forall id :: id in Newest(t, publicKey) ==> t[id].expiresAt < from)
  }

  lemma UnusedAfterCleanup(t: Table, publicKey: string, c: int)
    ensures forall id :: id in Unused(AfterCleanup(t, c), publicKey) <==>
                         id in Unused(t, publicKey) && c < t[id].expiresAt
  {
  }

  lemma NewestKept(t: Table, publicKey: string, c: int)
    requires NewestOutlive(t, publicKey, c) && Newest(t, publicKey) != {}
    ensures Newest(AfterCleanup(t, c), publicKey) == Newest(t, publicKey)
  {
    UnusedAfterCleanup(t, publicKey, c);
    var n :| n in Newest(t, publicKey);
    assert n in Unused(AfterCleanup(t, c), publicKey);
  }

  /** Any set of unused challenges has a newest one. */
  lemma {:induction false} SomeNewest(t: Table, ids: set<nat>) returns (n: nat)
    requires ids != {} && forall id :: id in ids ==> id in t
    ensures n in ids && forall o :: o in ids ==> t[o].createdAt <= t[n].createdAt
    decreases ids
  {
    var id :| id in ids;
    if ids == {id} {
      n := id;
    } else {
      var m := SomeNewest(t, ids - {id});
      n := if t[m].createdAt < t[id].createdAt then id else m;
      assert forall o :: o in ids ==> o == id || o in ids - {id};
    }
  }

  lemma NewestExists(t: Table, publicKey: string)
    ensures Unused(t, publicKey) != {} ==> Newest(t, publicKey) != {}
  {
    if Unused(t, publicKey) != {} {
      var n := SomeNewest(t, Unused(t, publicKey));
      assert n in Newest(t, publicKey);
    }
  }

  /** Either way a cleanup keeps the winner, or there is none to keep. */
  lemma CleanupKeepsWinner(r: Rules, t: Table, publicKey: string, c: int, from: int)
    requires Picks(r) && c <= from
    requires NewestOutlive(t, publicKey, c) || NoneOutlive(t, publicKey, c, from)
    ensures SameWinner(r, t, AfterCleanup(t, c), publicKey, from)
  {
    var u := AfterCleanup(t, c);
    UnusedAfterCleanup(t, publicKey, c);
    NewestExists(t, publicKey);
    if Newest(t, publicKey) == {} || !NewestOutlive(t, publicKey, c) {
      assert Unused(u, publicKey) == {};
    } else {
      NewestKept(t, publicKey, c);
    }
  }

  /**
   A cleanup at time `c` changes no login of a key from time `c`, or from the next millisecond, on
   exactly when the newest unused challenge outlives `c`, or no unused one does and the newest is
   out of time as well. Otherwise it either removes what can still be consumed or uncovers an older
   challenge that the newest one had superseded.
   */
  lemma CleanupChangesNothingIff(r: Rules, t: Table, publicKey: string, c: int, from: int)
    requires Picks(r) && NoncesDiffer(t) && CreatedApart(t, publicKey)
    requires r.isKey(publicKey) && Signable(r, t, publicKey)
    requires from == c || from == c + 1
    ensures SameLogins(r, t, AfterCleanup(t, c), publicKey, from) <==>
            NewestOutlive(t, publicKey, c) || NoneOutlive(t, publicKey, c, from)
  {
    hide Verify, SameLogins, Signable, NoncesDiffer;
    var u := AfterCleanup(t, c);
    SameLoginsIff(r, t, u, publicKey, from);
    if NewestOutlive(t, publicKey, c) || NoneOutlive(t, publicKey, c, from) {
      CleanupKeepsWinner(r, t, publicKey, c, from);
    } else {
      UnusedAfterCleanup(t, publicKey, c);
      NewestExists(u, publicKey);
      var w := Winner(r, t, publicKey).value;
      assert Newest(t, publicKey) == {w};
      assert Winner(r, u, publicKey) != Some(w);
    }
  }

  /** Later challenges of a key expire no earlier. */
  ghost predicate Aligned(t: Table, publicKey: string) {
    forall a, b :: a in Unused(t, publicKey) && b in Unused(t, publicKey) && t[a].createdAt <= t[b].createdAt ==>
                     t[a].expiresAt <= t[b].expiresAt
  }

  /** Where later challenges expire later a cleanup changes no later login. */
  lemma SameOutcome(r: Rules, t: Table, c: int, publicKey: string)
    requires Picks(r) && NoncesDiffer(t) && Aligned(t, publicKey)
    ensures SameLogins(r, t, AfterCleanup(t, c), publicKey, c + 1)
  {
    if !NewestOutlive(t, publicKey, c) {
      var n :| n in Newest(t, publicKey) && t[n].expiresAt <= c;
      assert forall id :: id in Unused(t, publicKey) ==> t[id].expiresAt <= t[n].expiresAt;
    }
    CleanupKeepsWinner(r, t, publicKey, c, c + 1);
    SameWinnerSameLogins(r, t, AfterCleanup(t, c), publicKey, c + 1);
  }

  // ---------------------------------------------------------------- whole runs

  datatype Event =
    | Create(nonce: string, publicKey: string, now: int)
    | Login(q: Request, now: int)
    | Cleanup(now: int)

  /** The table after a run, with the cleanups done or left out. */
  function TableAfter(r: Rules, events: seq<Event>, cleaning: bool): Table
    requires Picks(r)
  {
    if events == [] then map[]
    else
      var n := |events| - 1;
      var t := TableAfter(r, events[..n], cleaning);
      match events[n]
      case Create(nonce, publicKey, now) => AfterCreate(r, t, n, nonce, publicKey, now)
      case Login(q, now) => AfterVerify(r, t, q, now)
      case Cleanup(now) => if cleaning then AfterCleanup(t, now) else t
  }

  /** Time does not run backwards, and has not passed `now`. */
  ghost predicate Timely(events: seq<Event>, now: int) {
    && (forall i, j :: 0 <= i < j < |events| ==> events[i].now <= events[j].now)
    && (forall i :: 0 <= i < |events| ==> events[i].now <= now)
  }

  ghost predicate FreshNonces(events: seq<Event>) {
    forall i, j :: 0 <= i < j < |events| && events[i].Create? && events[j].Create? ==>
                     events[i].nonce != events[j].nonce
  }

  function LastCleanup(events: seq<Event>): Option<int> {
    if events == [] then None
    else if events[|events| - 1].Cleanup? then Some(events[|events| - 1].now)
    else LastCleanup(events[..|events| - 1])
  }

  predicate Outlives(row: Row, c: Option<int>) {
    c.Some? ==> c.value < row.expiresAt
  }

  /** A cleaned table holds just the unused challenges that outlive the last cleanup, and some used ones. */
  ghost predicate Swept(t: Table, kept: Table, c: Option<int>) {
    PartOf(kept, t) && forall id :: id in t && !t[id].isUsed ==> (id in kept <==> Outlives(t[id], c))
  }

  ghost predicate AllAligned(t: Table) {
    forall publicKey :: Aligned(t, publicKey)
  }

  lemma {:induction false} RowsAreCreated(r: Rules, events: seq<Event>, id: nat)
    requires Picks(r) && id in TableAfter(r, events, false)
    ensures id < |events| && events[id].Create?
    ensures var row := TableAfter(r, events, false)[id];
            row.nonce == events[id].nonce && row.createdAt == events[id].now && row.expiresAt == row.createdAt + 120_000
  {
    var n := |events| - 1;
    if events == [] || (events[n].Create? && id == n && r.isKey(events[n].publicKey)) {
    } else {
      RowsAreCreated(r, events[..n], id);
    }
  }

  lemma CreatedTable(r: Rules, events: seq<Event>)
    requires Picks(r) && FreshNonces(events)
    ensures AllAligned(TableAfter(r, events, false)) && NoncesDiffer(TableAfter(r, events, false))
  {
    var t := TableAfter(r, events, false);
    forall a, b | a in t && b in t
      ensures (t[a].createdAt <= t[b].createdAt ==> t[a].expiresAt <= t[b].expiresAt)
              && (a != b ==> t[a].nonce != t[b].nonce)
    {
      RowsAreCreated(r, events, a);
      RowsAreCreated(r, events, b);
    }
  }

  lemma PrefixIsTimely(events: seq<Event>, n: nat, now: int)
    requires n < |events| && Timely(events, now) && FreshNonces(events)
    ensures Timely(events[..n], events[n].now) && FreshNonces(events[..n])
  {
    assert forall i :: 0 <= i < n ==> events[..n][i] == events[i];
  }

  lemma {:induction false} CleanupIsPast(events: seq<Event>, now: int)
    requires Timely(events, now)
    ensures LastCleanup(events).Some? ==> LastCleanup(events).value <= now
  {
    if events != [] && !events[|events| - 1].Cleanup? {
      var front := events[..|events| - 1];
      assert forall i :: 0 <= i < |front| ==> front[i] == events[i];
      CleanupIsPast(front, now);
    }
  }

  /** The winner of a swept table is that of the whole one when it outlives the last cleanup; else there is none. */
  lemma SweptWinner(r: Rules, t: Table, kept: Table, c: Option<int>, publicKey: string)
    requires Picks(r) && Swept(t, kept, c) && Aligned(t, publicKey)
    ensures var w := Winner(r, t, publicKey);
            Winner(r, kept, publicKey) == if w.Some? && Outlives(t[w.value], c) then w else None
  {
    var w := Winner(r, t, publicKey);
    assert forall id :: id in Unused(kept, publicKey) <==> id in Unused(t, publicKey) && Outlives(t[id], c);
    NewestExists(t, publicKey);
    if w.Some? && Outlives(t[w.value], c) {
      forall id | id in Newest(t, publicKey) ensures Outlives(t[id], c) {
        assert t[w.value].createdAt <= t[id].createdAt;
      }
      assert Newest(kept, publicKey) == Newest(t, publicKey);
    } else if w.Some? {
      forall id | id in Unused(t, publicKey) ensures !Outlives(t[id], c) {
        assert t[id].expiresAt <= t[w.value].expiresAt;
      }
      assert Newest(kept, publicKey) == {};
    } else {
      assert Newest(kept, publicKey) == {};
    }
  }

  /** A login on the swept table: as on the whole one, if what it consumes there outlives the last cleanup. */
  lemma SweptLogin(r: Rules, t: Table, kept: Table, c: Option<int>, q: Request, now: int)
    requires Picks(r) && Swept(t, kept, c) && Aligned(t, q.publicKey) && NoncesDiffer(t)
    ensures Verify(r, kept, q, now).Ok? <==>
            Verify(r, t, q, now).Ok? && Outlives(t[Verify(r, t, q, now).value], c)
    ensures Verify(r, kept, q, now).Ok? ==> Verify(r, kept, q, now) == Verify(r, t, q, now)
  {
    hide Verify, Winner, Newest;
    SweptWinner(r, t, kept, c, q.publicKey);
    VerifyIff(r, t, q, now);
    VerifyIff(r, kept, q, now);
  }

  lemma LoginKeepsSwept(r: Rules, t: Table, kept: Table, c: Option<int>, q: Request, now: int)
    requires Picks(r) && Swept(t, kept, c) && Aligned(t, q.publicKey) && NoncesDiffer(t)
    ensures Swept(AfterVerify(r, t, q, now), AfterVerify(r, kept, q, now), c)
  {
    hide Verify;
    SweptLogin(r, t, kept, c, q, now);
    if Verify(r, t, q, now).Ok? {
      assert !t[Verify(r, t, q, now).value].isUsed by {
        VerifyIff(r, t, q, now);
      }
    }
  }

  /** After every run the cleaned table is the other one, swept at the time of the last cleanup. */
  lemma {:induction false} RunIsSwept(r: Rules, events: seq<Event>, now: int)
    requires Picks(r) && Timely(events, now) && FreshNonces(events)
    ensures Swept(TableAfter(r, events, false), TableAfter(r, events, true), LastCleanup(events))
    decreases |events|
  {
    if events != [] {
      var n := |events| - 1;
      var front, e := events[..n], events[n];
      PrefixIsTimely(events, n, now);
      RunIsSwept(r, front, e.now);
      CleanupIsPast(front, e.now);
      var t, kept, c := TableAfter(r, front, false), TableAfter(r, front, true), LastCleanup(front);
      match e
      case Create(_, _, _) =>
        if n in t {
          RowsAreCreated(r, front, n);
        }
      case Login(q, at) =>
        CreatedTable(r, front);
        LoginKeepsSwept(r, t, kept, c, q, at);
      case Cleanup(at) =>
        assert Swept(t, AfterCleanup(kept, at), Some(at));
    }
  }

  /** What a login answers after a run. */
  function Outcome(r: Rules, events: seq<Event>, q: Request, now: int, cleaning: bool): Option<nat>
    requires Picks(r)
  {
    match Verify(r, TableAfter(r, events, cleaning), q, now)
    case Ok(id) => Some(id)
    case Err(_) => None
  }

  /**
   After any run, a login is answered as if there had been no cleanups, with one exception: what it
   would consume expires in this very millisecond, and a cleanup has already run in it.
   */
  lemma OutcomeWithCleanups(r: Rules, events: seq<Event>, q: Request, now: int)
    requires Picks(r) && Timely(events, now) && FreshNonces(events)
    ensures var plain := Outcome(r, events, q, now, false);
            && (plain.Some? ==> plain.value in TableAfter(r, events, false))
            && Outcome(r, events, q, now, true) ==
               if plain.Some? && TableAfter(r, events, false)[plain.value].expiresAt == now
                  && LastCleanup(events) == Some(now)
               then None else plain
  {
    hide Verify, TableAfter;
    var t := TableAfter(r, events, false);
    RunIsSwept(r, events, now);
    CreatedTable(r, events);
    CleanupIsPast(events, now);
    SweptLogin(r, t, TableAfter(r, events, true), LastCleanup(events), q, now);
    VerifyIff(r, t, q, now);
  }

  /**
   After any run, cleanups are invisible to all logins of a key at a time exactly when no cleanup has
   run in this very millisecond or the newest unused challenge of the key does not expire in it.
   */
  lemma CleanupIsUnobservableIff(r: Rules, events: seq<Event>, publicKey: string, now: int)
    requires Picks(r) && Timely(events, now) && FreshNonces(events) && r.isKey(publicKey)
    requires Signable(r, TableAfter(r, events, false), publicKey)
    ensures (forall q: Request :: q.publicKey == publicKey ==>
                                    Outcome(r, events, q, now, true) == Outcome(r, events, q, now, false)) <==>
            LastCleanup(events) != Some(now)
            || forall id :: id in Newest(TableAfter(r, events, false), publicKey) ==>
                              TableAfter(r, events, false)[id].expiresAt != now
  {
    hide Verify, TableAfter;
    var t := TableAfter(r, events, false);
    CreatedTable(r, events);
    forall q: Request | q.publicKey == publicKey
      ensures Outcome(r, events, q, now, true) ==
              if Outcome(r, events, q, now, false).Some? && LastCleanup(events) == Some(now)
                 && Winner(r, t, publicKey).Some? && t[Winner(r, t, publicKey).value].expiresAt == now
              then None else Outcome(r, events, q, now, false)
    {
      OutcomeWithCleanups(r, events, q, now);
      VerifyIff(r, t, q, now);
    }
    if id :| id in Newest(t, publicKey) && t[id].expiresAt == now {
      var w := Winner(r, t, publicKey).value;
      assert Aligned(t, publicKey) && id in Unused(t, publicKey) && w in Unused(t, publicKey);
      assert t[w].createdAt == t[id].createdAt && t[w].expiresAt == now;
      var q := SomebodyLogsIn(r, t, publicKey, now);
      assert Outcome(r, events, q, now, false).Some?;
    }
  }

  // ---------------------------------------------------------------- where it would be observable

  lemma OneCreate(r: Rules, nonce: string, publicKey: string, cleaning: bool)
    requires Picks(r) && r.isKey(publicKey)
    ensures TableAfter(r, [Create(nonce, publicKey, 0)], cleaning) == map[0 := Row(nonce, publicKey, 0, 120_000, false)]
  {
    var events := [Create(nonce, publicKey, 0)];
    assert events[..0] == [];
    assert TableAfter(r, events[..0], cleaning) == map[];
  }

  /**
   A cleanup in the very millisecond a challenge expires removes it, although a login in that
   millisecond still accepts it.
   */
  lemma SameInstantIsObservable(r: Rules, nonce: string, publicKey: string, signature: string)
    requires Picks(r) && r.isKey(publicKey) && r.verifies(publicKey, nonce, signature)
    ensures var q := Request(nonce, publicKey, signature);
            var events := [Create(nonce, publicKey, 0), Cleanup(120_000)];
            Outcome(r, events, q, 120_000, true) == None && Outcome(r, events, q, 120_000, false) == Some(0)
  {
    var events := [Create(nonce, publicKey, 0), Cleanup(120_000)];
    var row := Row(nonce, publicKey, 0, 120_000, false);
    var t := map[0 := row];
    OneCreate(r, nonce, publicKey, true);
    OneCreate(r, nonce, publicKey, false);
    assert events[..1] == [Create(nonce, publicKey, 0)];
    assert TableAfter(r, events[..1], true) == t && TableAfter(r, events[..1], false) == t;
    assert AfterCleanup(t, 120_000) == map[];
    assert |events| == 2 && events[1] == Cleanup(120_000);
    assert TableAfter(r, events, true) == AfterCleanup(TableAfter(r, events[..1], true), 120_000) == map[];
    assert TableAfter(r, events, false) == TableAfter(r, events[..1], false) == t;
    assert Matching(t, nonce, publicKey) == {0} && Unused(t, publicKey) == {0};
    assert Newest(t, publicKey) == {0};
    assert r.pick({0}) in {0};
  }

  /**
   The cleanup relies on later challenges expiring later: when a challenge is stored later than
   one that expires after it, removing it lets the older one in.
   */
  lemma UnalignedIsObservable(r: Rules, publicKey: string, signature: string)
    requires Picks(r) && r.isKey(publicKey) && r.verifies(publicKey, "b", signature)
    ensures var t := map[0 := Row("a", publicKey, 10, 120_000, false), 1 := Row("b", publicKey, 6, 120_005, false)];
            var q := Request("b", publicKey, signature);
            Verify(r, t, q, 120_003) == Err(Superseded) && Verify(r, AfterCleanup(t, 120_002), q, 120_003) == Ok(1)
  {
    var a, b := Row("a", publicKey, 10, 120_000, false), Row("b", publicKey, 6, 120_005, false);
    var t := map[0 := a, 1 := b];
    assert "a"[0] != "b"[0];
    assert Matching(t, "b", publicKey) == {1};
    assert 0 in Unused(t, publicKey) && 1 in Unused(t, publicKey);
    assert Newest(t, publicKey) == {0};
    assert r.pick({1}) in {1} && r.pick({0}) in {0};
    var kept := AfterCleanup(t, 120_002);
    assert kept == map[1 := b];
    assert Matching(kept, "b", publicKey) == {1} && Unused(kept, publicKey) == {1};
    assert Newest(kept, publicKey) == {1};
  }
}
