/**
  Registration and login as imperative code over the tables, each call at one clock reading. The random ID and
  nonce are parameters.
 */
module LoginService {
  import opened Prelude
  import opened ChatStore
  import opened Login

  /** The challenge is open to the account: issued to it, unused, unexpired, and answered by its registered key. */
  predicate Admits(config: Config, accounts: Accounts, challenges: map<Uuid, Challenge>,
                   accountId: AccountId, challengeId: Uuid, signature: Bytes, now: Time)
  {
    challengeId in challenges && accountId in accounts &&
    var c := challenges[challengeId];
    c.accountId == accountId && !c.used && now < c.expiresAt &&
    config.verifies(accounts[accountId].publicKey, c.nonce, signature)
  }

  function ClaimsFor(config: Config, accountId: AccountId, now: Time): Claims {
    Claims(accountId, now / SECOND, (now + Seconds(config.sessionTtl)) / SECOND)
  }

  /** The claims name the account, the second of issue, and an expiry the configured time later. */
  predicate ClaimsAre(claims: Claims, config: Config, accountId: AccountId, now: Time) {
    claims.sub == accountId && claims.issuedAt * 1_000_000_000 <= now < (claims.issuedAt + 1) * 1_000_000_000 &&
    claims.expiry == claims.issuedAt + config.sessionTtl
  }

  lemma ClaimsExact(config: Config, accountId: AccountId, now: Time)
    ensures ClaimsAre(ClaimsFor(config, accountId, now), config, accountId, now)
  {
    assert (now + Seconds(config.sessionTtl)) / SECOND == now / SECOND + config.sessionTtl;
  }

  class Service {
    const config: Config
    var accounts: Accounts
    var challenges: map<Uuid, Challenge>

    ghost predicate Valid()
      reads this
    {
      AccountsOk(config, accounts) && forall id | id in challenges :: challenges[id].accountId in accounts
    }

    constructor (config: Config)
      ensures Valid() && this.config == config && accounts == map[] && challenges == map[]
    {
      this.config, accounts, challenges := config, map[], map[];
    }

    method RegisterAccount(identitty: string, id: AccountId, publicKey: Bytes, now: Time) returns (answer: Registration)
      requires Valid()
      modifies this`accounts
      ensures Valid()
      ensures answer == RegisterAnswer(config, old(accounts), identitty, id, publicKey, now)
      ensures accounts == Registered(config, old(accounts), identitty, id, publicKey, now)
    {
      RegisterKeeps(config, accounts, identitty, id, publicKey, now);
      var name := Validation.Normalise(identitty);
      if name.None? {
        return InvalidIdentitty;
      }
      if |publicKey| != 32 {
        return InvalidRegistration;
      }
      if AccountIdOf(config, publicKey) != id {
        return InvalidRegistration;
      }
      var account := Account(name.value, publicKey, now);
      if !AccountFree(accounts, id, account) {
        return IdentittyTaken;
      }
      accounts := accounts[id := account];
      return Accepted(account);
    }

    method RequestChallenge(accountId: AccountId, id: Uuid, nonce: Bytes, now: Time)
      returns (challenge: Option<Challenge>)
      requires Valid() && id !in challenges
      modifies this`challenges
      ensures Valid() && (challenge.Some? <==> accountId in accounts)
      ensures challenge.Some? ==>
                challenge.value == Challenge(accountId, nonce, now + Seconds(config.challengeTtl), false) &&
                challenges == old(challenges)[id := challenge.value]
      ensures challenge.None? ==> challenges == old(challenges)
    {
      if accountId !in accounts {
        return None;
      }
      var expires := now + Seconds(config.challengeTtl);
      challenges := challenges[id := Challenge(accountId, nonce, expires, false)];
      return Some(challenges[id]);
    }

    /** None stands for INVALID_CHALLENGE and AUTHENTICATION_FAILED; the transaction is then rolled back. */
    method Authenticate(accountId: AccountId, challengeId: Uuid, signature: Bytes, now: Time)
      returns (claims: Option<Claims>)
      requires Valid()
      modifies this`challenges
      ensures Valid()
      ensures claims == if Admits(config, accounts, old(challenges), accountId, challengeId, signature, now)
                        then Some(ClaimsFor(config, accountId, now)) else None
      ensures challenges == if claims.Some? then Marked(old(challenges), challengeId) else old(challenges)
      ensures claims.Some? ==> ClaimsAre(claims.value, config, accountId, now)
      ensures claims.Some? ==> forall a, s, t :: !Admits(config, accounts, challenges, a, challengeId, s, t)
    {
      if challengeId !in challenges || accountId !in accounts ||
         challenges[challengeId].accountId != accountId || challenges[challengeId].used {
        return None;
      }
      var row := Row(challenges[challengeId].nonce, challenges[challengeId].expiresAt, accounts[accountId].publicKey);
      if row.expiresAt <= now {
        return None;
      }
      if !config.verifies(row.publicKey, row.nonce, signature) {
        return None;
      }
      challenges := challenges[challengeId := challenges[challengeId].(used := true)];
      ClaimsExact(config, accountId, now);
      return Some(ClaimsFor(config, accountId, now));
    }

    /** `remove_expired_challenges`, run at startup; CleanupExact says what it deletes. */
    method RemoveExpired(now: Time)
      requires Valid()
      modifies this`challenges
      ensures Valid()
      ensures forall id :: id in challenges <==> id in old(challenges) && !CleanupDeletes(old(challenges)[id], now)
      ensures forall id | id in challenges :: challenges[id] == old(challenges)[id]
    {
      challenges := map id | id in challenges && !CleanupDeletes(challenges[id], now) :: challenges[id];
    }
  }

  // ---------------------------------------------------------------- the machine without interference

  /** The session a call earns at `now` with an expiry check at `checkedAt`. */
  function SessionBy(config: Config, call: Call, now: Time, checkedAt: Time): Session
    requires call.Authenticating?
  {
    Session(ClaimsFor(config, call.accountId, now), call.challengeId, call.signature, checkedAt)
  }

  function Rank(call: Call): nat {
    match call
    case Returned => 0
    case Requesting(_, p) => (match p case CheckAccount => 2 case InsertChallenge(_, _, _) => 1)
    case Authenticating(_, _, _, p) =>
      (match p case ReadRow => 6 case CheckExpiry(_) => 5 case VerifySignature(_, _) => 4
               case MarkUsed(_) => 3 case Commit(_) => 2 case Issue(_) => 1)
  }

  lemma RankFalls(config: Config, s: Sys, c: nat, id: Uuid, nonce: Bytes)
    requires c in s.calls && !s.calls[c].Returned?
    ensures Rank(ExecNext(config, s, c, id, nonce).calls[c]) < Rank(s.calls[c])
  {
    hide SessionFor, NewChallenge, Marked, Found, InsertsChallenge;
    if s.calls[c].Requesting? {
      hide AuthNext;
    } else {
      hide RequestNext;
    }
  }

  /** The machine running one call's statements back to back. */
  function Alone(config: Config, s: Sys, c: nat, id: Uuid, nonce: Bytes): Sys
    requires c in s.calls
    decreases Rank(s.calls[c])
  {
    if s.calls[c].Returned? then s else
    RankFalls(config, s, c, id, nonce);
    Alone(config, ExecNext(config, s, c, id, nonce), c, id, nonce)
  }

  lemma {:induction false} AloneStep(config: Config, s: Sys, c: nat, id: Uuid, nonce: Bytes) returns (t: Sys)
    requires c in s.calls && !s.calls[c].Returned?
    ensures t == ExecNext(config, s, c, id, nonce) && Alone(config, s, c, id, nonce) == Alone(config, t, c, id, nonce)
    ensures t.calls[c].Returned? ==> Alone(config, s, c, id, nonce) == t
  {
    t := ExecNext(config, s, c, id, nonce);
  }

  /** The last two statements: commit, issue. */
  lemma CommitAlone(config: Config, s: Sys, c: nat, id: Uuid, nonce: Bytes)
    requires c in s.calls && s.calls[c].Authenticating? && s.calls[c].auth.Commit?
    ensures var call, t := s.calls[c], Alone(config, s, c, id, nonce);
            t.accounts == s.accounts && t.writer.None? && t.challenges == Marked(s.challenges, call.challengeId) &&
            t.sessions == s.sessions + [SessionBy(config, call, s.clock, call.auth.checkedAt)]
  {
    var t := AloneStep(config, s, c, id, nonce);
    t := AloneStep(config, t, c, id, nonce);
    hide Alone;
  }

  /** The last three statements: mark, commit, issue. */
  lemma MarkAlone(config: Config, s: Sys, c: nat, id: Uuid, nonce: Bytes)
    requires c in s.calls && s.calls[c].Authenticating? && s.calls[c].auth.MarkUsed?
    requires s.calls[c].challengeId in s.challenges && !s.challenges[s.calls[c].challengeId].used
    ensures var call, t := s.calls[c], Alone(config, s, c, id, nonce);
            t.accounts == s.accounts && t.writer.None? && t.challenges == Marked(s.challenges, call.challengeId) &&
            t.sessions == s.sessions + [SessionBy(config, call, s.clock, call.auth.checkedAt)]
  {
    var t := AloneStep(config, s, c, id, nonce);
    CommitAlone(config, t, c, id, nonce);
    hide Alone, Marked, ClaimsFor;
  }

  /** Statements that only read. */
  lemma QuietStep(config: Config, s: Sys, c: nat, id: Uuid, nonce: Bytes)
    requires c in s.calls && s.calls[c].Authenticating?
    requires s.calls[c].auth.ReadRow? || s.calls[c].auth.CheckExpiry? || s.calls[c].auth.VerifySignature?
    ensures ExecNext(config, s, c, id, nonce) ==
            s.(calls := s.calls[c := AuthNext(config, s, s.calls[c])], drawn := s.drawn + {id})
  {
    hide AuthNext;
  }

  /** An authentication whose statements run back to back does what the method Authenticate does. */
  lemma AuthenticateAlone(config: Config, s: Sys, c: nat, id: Uuid, nonce: Bytes)
    requires c in s.calls && s.calls[c].Authenticating? && s.calls[c].auth.ReadRow? && s.writer.None?
    ensures var call, t := s.calls[c], Alone(config, s, c, id, nonce);
            t.accounts == s.accounts && t.writer.None? &&
            if Admits(config, s.accounts, s.challenges, call.accountId, call.challengeId, call.signature, s.clock)
            then t.challenges == Marked(s.challenges, call.challengeId) &&
                 t.sessions == s.sessions + [SessionBy(config, call, s.clock, s.clock)] &&
                 ClaimsAre(t.sessions[|s.sessions|].claims, config, call.accountId, s.clock)
            else t.challenges == s.challenges && t.sessions == s.sessions
  {
    var t := AloneStep(config, s, c, id, nonce);
    QuietStep(config, s, c, id, nonce);
    if t.calls[c].Authenticating? {
      var u := AloneStep(config, t, c, id, nonce);
      QuietStep(config, t, c, id, nonce);
      if u.calls[c].Authenticating? {
        var v := AloneStep(config, u, c, id, nonce);
        QuietStep(config, u, c, id, nonce);
        if v.calls[c].Authenticating? {
          MarkAlone(config, v, c, id, nonce);
        }
      }
    }
    ClaimsExact(config, s.calls[c].accountId, s.clock);
    hide Alone, ExecNext, Marked, ClaimsFor, ClaimsAre;
  }

  /**
    A challenge request whose statements run back to back adds, for a registered account, the unused challenge with
    the nonce drawn and the configured lifetime, and nothing for another account.
   */
  lemma RequestAlone(config: Config, s: Sys, c: nat, id: Uuid, nonce: Bytes)
    requires c in s.calls && s.calls[c].Requesting? && s.calls[c].request.CheckAccount? && id !in s.challenges
    ensures var a, t := s.calls[c].accountId, Alone(config, s, c, id, nonce);
            t.accounts == s.accounts && t.writer == s.writer && t.sessions == s.sessions && t.clock == s.clock &&
            t.calls == s.calls[c := Returned] &&
            if a in s.accounts then
              var challenge := Challenge(a, nonce, s.clock + Seconds(config.challengeTtl), false);
              t.challenges == s.challenges[id := challenge] && t.issued == s.issued[id := challenge]
            else t.challenges == s.challenges && t.issued == s.issued
  {
    var t := AloneStep(config, s, c, id, nonce);
    if !t.calls[c].Returned? {
      var u := AloneStep(config, t, c, id, nonce);
      assert u.calls == s.calls[c := Returned];
    }
    hide Alone, AuthNext;
  }
}
