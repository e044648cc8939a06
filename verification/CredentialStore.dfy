/** The credential tables: challenges, refresh tokens and password-reset tokens. */
module CredentialStore {
  import opened Options
  import opened Challenge

  datatype RefreshToken = RefreshToken(expiresAt: int, isRevoked: bool, revokedAt: Option<int>)

  datatype ResetToken = ResetToken(expiresAt: int, isUsed: bool)

  datatype CleanupResult = CleanupResult(refreshTokens: nat, passwordResetTokens: nat, stellarChallenges: nat)

  /** Revoked tokens are kept for seven days; a missing revocation time compares to nothing. */
  predicate RefreshIsStale(t: RefreshToken, now: int) {
    || t.expiresAt <= now
    || (t.isRevoked && t.revokedAt.Some? && t.revokedAt.value <= now - 604_800_000)
  }

  predicate ResetIsStale(t: ResetToken, now: int) {
    t.expiresAt <= now || t.isUsed
  }

  function FreshRefreshTokens(tokens: map<nat, RefreshToken>, now: int): map<nat, RefreshToken> {
    map id | id in tokens && !RefreshIsStale(tokens[id], now) :: tokens[id]
  }

  function FreshResetTokens(tokens: map<nat, ResetToken>, now: int): map<nat, ResetToken> {
    map id | id in tokens && !ResetIsStale(tokens[id], now) :: tokens[id]
  }

  // ---------------------------------------------------------------- which tokens survive

  /** The tables of tokens after clean-ups at these times. */
  function RefreshAfter(tokens: map<nat, RefreshToken>, times: seq<int>): map<nat, RefreshToken> {
    if times == [] then tokens
    else FreshRefreshTokens(RefreshAfter(tokens, times[..|times| - 1]), times[|times| - 1])
  }

  function ResetAfter(tokens: map<nat, ResetToken>, times: seq<int>): map<nat, ResetToken> {
    if times == [] then tokens
    else FreshResetTokens(ResetAfter(tokens, times[..|times| - 1]), times[|times| - 1])
  }

  /**
   A refresh token survives clean-ups exactly when all of them ran before it expired and, if it was
   revoked at a known time, less than seven days after that. No other token is ever deleted or changed.
   */
  lemma {:induction false} RefreshSurvivesIff(tokens: map<nat, RefreshToken>, times: seq<int>, id: nat)
    requires id in tokens
    ensures id in RefreshAfter(tokens, times) <==>
            forall i :: 0 <= i < |times| ==>
                          && times[i] < tokens[id].expiresAt
                          && (tokens[id].isRevoked && tokens[id].revokedAt != None ==>
                                times[i] < tokens[id].revokedAt.value + 7 * 24 * 60 * 60 * 1000)
    ensures id in RefreshAfter(tokens, times) ==> RefreshAfter(tokens, times)[id] == tokens[id]
  {
    if times != [] {
      RefreshSurvivesIff(tokens, times[..|times| - 1], id);
    }
  }

  /** A reset token survives exactly when it is unused and all clean-ups ran before it expired. */
  lemma {:induction false} ResetSurvivesIff(tokens: map<nat, ResetToken>, times: seq<int>, id: nat)
    requires id in tokens
    ensures id in ResetAfter(tokens, times) <==>
            forall i :: 0 <= i < |times| ==> times[i] < tokens[id].expiresAt && !tokens[id].isUsed
    ensures id in ResetAfter(tokens, times) ==> ResetAfter(tokens, times)[id] == tokens[id]
  {
    if times != [] {
      ResetSurvivesIff(tokens, times[..|times| - 1], id);
    }
  }

  // The three deletions, with the number of rows each affects.

  method DeleteRefreshTokens(tokens: map<nat, RefreshToken>, now: int)
    returns (kept: map<nat, RefreshToken>, affected: nat)
    ensures kept == FreshRefreshTokens(tokens, now) && affected == |tokens| - |kept|
  {
    var cutoff := now - 604_800_000;
    var stale := set id | id in tokens && (tokens[id].expiresAt <= now
                                           || (tokens[id].isRevoked && tokens[id].revokedAt.Some?
                                               && tokens[id].revokedAt.value <= cutoff));
    Removed(tokens, stale);
    kept, affected := tokens - stale, |stale|;
  }

  method DeleteResetTokens(tokens: map<nat, ResetToken>, now: int) returns (kept: map<nat, ResetToken>, affected: nat)
    ensures kept == FreshResetTokens(tokens, now) && affected == |tokens| - |kept|
  {
    var stale := set id | id in tokens && (tokens[id].expiresAt <= now || tokens[id].isUsed);
    Removed(tokens, stale);
    kept, affected := tokens - stale, |stale|;
  }

  method DeleteChallenges(challenges: Table, now: int) returns (kept: Table, affected: nat)
    ensures kept == AfterCleanup(challenges, now) && affected == |challenges| - |kept|
  {
    var stale := set id | id in challenges && (challenges[id].expiresAt <= now || challenges[id].isUsed);
    Removed(challenges, stale);
    kept, affected := challenges - stale, |stale|;
  }

  lemma SplitSize<T>(whole: set<T>, kept: set<T>)
    requires kept <= whole
    ensures |whole - kept| == |whole| - |kept|
  {
    assert whole == kept + (whole - kept);
  }

  class CredentialService {
    const rules: Rules
    var challenges: Table
    var refreshTokens: map<nat, RefreshToken>
    var resetTokens: map<nat, ResetToken>
    var nextId: nat

    constructor (rules: Rules)
      requires Picks(rules)
      ensures Valid() && challenges == map[]
    {
      this.rules := rules;
      challenges, refreshTokens, resetTokens, nextId := map[], map[], map[], 0;
    }

    ghost predicate Valid()
      reads this
    {
      Picks(rules) && forall id :: id in challenges ==> id < nextId
    }

    /** createChallenge; older challenges are superseded, not deleted. */
    method CreateChallenge(nonce: string, publicKey: string, now: int) returns (expiresAt: Result<int, Rejection>)
      requires Valid()
      modifies this`challenges, this`nextId
      ensures Valid()
      ensures challenges == AfterCreate(rules, old(challenges), old(nextId), nonce, publicKey, now)
      ensures expiresAt == if rules.isKey(publicKey) then Ok(now + 120_000) else Err(BadKey)
      // The new challenge is a newest one unless the clock ran backwards.
      ensures expiresAt.Ok? && (forall id :: id in old(challenges) ==> old(challenges)[id].createdAt <= now) ==>
                old(nextId) in Newest(challenges, publicKey)
    {
      if !rules.isKey(publicKey) {
        return Err(BadKey);
      }
      var row := Row(nonce, publicKey, now, now + 120_000, false);
      challenges := challenges[nextId := row];
      nextId := nextId + 1;
      expiresAt := Ok(row.expiresAt);
    }

    /** verifyChallenge; the transaction is one step here. */
    method VerifyChallenge(nonce: string, publicKey: string, signature: string, now: int)
      returns (key: Result<string, Rejection>)
      requires Valid()
      modifies this`challenges
      ensures Valid()
      ensures var q := Request(nonce, publicKey, signature);
              && challenges == AfterVerify(rules, old(challenges), q, now)
              && match Verify(rules, old(challenges), q, now)
                 case Ok(_) => key == Ok(publicKey)
                 case Err(e) => key == Err(e) && challenges == old(challenges)
    {
      if !rules.isKey(publicKey) {
        return Err(BadKey);
      }
      var matching := Matching(challenges, nonce, publicKey);
      if matching == {} {
        return Err(Invalid);
      }
      var id := rules.pick(matching);
      if challenges[id].isUsed {
        return Err(AlreadyUsed);
      }
      if now > challenges[id].expiresAt {
        return Err(Expired);
      }
      var newest := Newest(challenges, publicKey);
      if newest == {} || rules.pick(newest) != id {
        return Err(Superseded);
      }
      if !rules.verifies(publicKey, nonce, signature) {
        return Err(BadSignature);
      }
      if challenges[id].isUsed {
        return Err(AlreadyUsed);
      }
      challenges := challenges[id := challenges[id].(isUsed := true)];
      key := Ok(publicKey);
    }

    /** cleanupExpiredCredentials: three deletions and how many rows each removed. */
    method CleanupExpiredCredentials(now: int) returns (result: CleanupResult)
      requires Valid()
      modifies this`challenges, this`refreshTokens, this`resetTokens
      ensures Valid()
      ensures challenges == AfterCleanup(old(challenges), now)
      ensures refreshTokens == FreshRefreshTokens(old(refreshTokens), now)
      ensures resetTokens == FreshResetTokens(old(resetTokens), now)
      ensures result.stellarChallenges == |old(challenges)| - |challenges|
      ensures result.refreshTokens == |old(refreshTokens)| - |refreshTokens|
      ensures result.passwordResetTokens == |old(resetTokens)| - |resetTokens|
    {
      var deletedTokens, deletedResets, deletedChallenges;
      refreshTokens, deletedTokens := DeleteRefreshTokens(refreshTokens, now);
      resetTokens, deletedResets := DeleteResetTokens(resetTokens, now);
      challenges, deletedChallenges := DeleteChallenges(challenges, now);
      result := CleanupResult(deletedTokens, deletedResets, deletedChallenges);
    }
  }

  lemma Removed<V>(table: map<nat, V>, stale: set<nat>)
    requires stale <= table.Keys
    ensures |table - stale| == |table| - |stale|
  {
    assert (table - stale).Keys == table.Keys - stale;
    SplitSize(table.Keys, stale);
    assert |table| == |table.Keys| && |table - stale| == |(table - stale).Keys|;
  }
}
