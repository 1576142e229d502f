/**
  Registration and challenge login. `authenticate` runs its statements in a transaction; here they interleave
  with those of other calls, with rollbacks and with the startup cleanup. A transaction's UPDATE takes SQLite's
  single write lock, sees the latest committed state, and is published by the commit. Hash and signature are
  ideal functions given as parameters.
 */
module Login {
  import opened Prelude
  import opened ChatStore
  import opened Validation
  import Timestamps

  /** SHA-256 in hexadecimal, Ed25519 verification (key, message, signature), and the configured lifetimes. */
  datatype Config = Config(
    digest: Bytes -> string,
    verifies: (Bytes, Bytes, Bytes) -> bool,
    challengeTtl: int,
    sessionTtl: int,
    leeway: nat)

  function AccountIdOf(config: Config, publicKey: Bytes): AccountId {
    "acct_" + config.digest(publicKey)
  }

  type Accounts = map<AccountId, Account>

  // ---------------------------------------------------------------- registration

  datatype Registration = Accepted(account: Account) | InvalidIdentitty | InvalidRegistration | IdentittyTaken

  function RegisterAnswer(config: Config, accounts: Accounts, identitty: string, id: AccountId, publicKey: Bytes,
                          now: Time): Registration
  {
    match Normalise(identitty)
    case None => InvalidIdentitty
    case Some(name) =>
      if |publicKey| != 32 || AccountIdOf(config, publicKey) != id then InvalidRegistration
      else if !AccountFree(accounts, id, Account(name, publicKey, now)) then IdentittyTaken
      else Accepted(Account(name, publicKey, now))
  }

  function Registered(config: Config, accounts: Accounts, identitty: string, id: AccountId, publicKey: Bytes,
                      now: Time): Accounts
  {
    match RegisterAnswer(config, accounts, identitty, id, publicKey, now)
    case Accepted(account) => accounts[id := account]
    case _ => accounts
  }

  /** `is_identitty_available`; None is the INVALID_IDENTITTY error. The column compares without case. */
  function Available(accounts: Accounts, identitty: string): Option<bool> {
    match Normalise(identitty)
    case None => None
    case Some(name) => Some(!exists a | a in accounts :: NoCaseEqual(accounts[a].identitty, name))
  }

  /** Account IDs derive from their keys, names are canonical, and the unique columns are unique. */
  ghost predicate AccountsOk(config: Config, accounts: Accounts) {
    (forall a | a in accounts ::
       a == AccountIdOf(config, accounts[a].publicKey) && |accounts[a].publicKey| == 32 &&
       Canonical(accounts[a].identitty)) &&
    (forall a, b | a in accounts && b in accounts &&
       NoCaseEqual(accounts[a].identitty, accounts[b].identitty) :: a == b) &&
    (forall a, b | a in accounts && b in accounts && accounts[a].publicKey == accounts[b].publicKey :: a == b)
  }

  lemma RegisterKeeps(config: Config, accounts: Accounts, identitty: string, id: AccountId, publicKey: Bytes, now: Time)
    requires AccountsOk(config, accounts)
    ensures AccountsOk(config, Registered(config, accounts, identitty, id, publicKey, now))
  {
    if Normalise(identitty).Some? {
      var name := Normalise(identitty).value;
      NormaliseExact(identitty, name);
      forall a | a in accounts
        ensures NoCaseEqual(accounts[a].identitty, name) <==> accounts[a].identitty == name
      {
        NoCaseIsEquality(accounts[a].identitty, name);
      }
    }
  }

  /** The value spells a canonical name. */
  ghost predicate SpellsName(value: string) {
    exists name :: Canonical(name) && Spells(value, name)
  }

  /** The account ID is the one that derives from the key, which has its 32 bytes. */
  predicate IdMatchesKey(config: Config, id: AccountId, publicKey: Bytes) {
    |publicKey| == 32 && id == "acct_" + config.digest(publicKey)
  }

  /** Some account has the ID, the name or the key already. */
  ghost predicate Taken(accounts: Accounts, id: AccountId, name: string, publicKey: Bytes) {
    exists a :: a in accounts && (a == id || accounts[a].identitty == name || accounts[a].publicKey == publicKey)
  }

  /**
    What a registration answers, in this order: INVALID_IDENTITTY exactly if the value spells no name,
    INVALID_REGISTRATION exactly if the account ID does not derive from a key of 32 bytes, IDENTITTY_TAKEN exactly if
    the ID, the name or the key is taken; and else it adds the account, with the name spelled, the key and the time.
   */
  lemma RegisterExact(config: Config, accounts: Accounts, identitty: string, id: AccountId, publicKey: Bytes, now: Time)
    ensures var answer := RegisterAnswer(config, accounts, identitty, id, publicKey, now);
            (answer == InvalidIdentitty <==> !SpellsName(identitty)) &&
            (answer == InvalidRegistration <==> SpellsName(identitty) && !IdMatchesKey(config, id, publicKey)) &&
            (answer == IdentittyTaken <==>
               IdMatchesKey(config, id, publicKey) &&
               exists name :: Canonical(name) && Spells(identitty, name) && Taken(accounts, id, name, publicKey)) &&
            (answer.Accepted? ==>
               Canonical(answer.account.identitty) && Spells(identitty, answer.account.identitty) &&
               answer.account.publicKey == publicKey && answer.account.createdAt == now) &&
            Registered(config, accounts, identitty, id, publicKey, now) ==
              (if answer.Accepted? then accounts[id := answer.account] else accounts)
  {
    forall name
      ensures Normalise(identitty) == Some(name) <==> Canonical(name) && Spells(identitty, name)
    {
      NormaliseExact(identitty, name);
    }
    hide Normalise, Canonical, Spells;
  }

  ghost predicate Injective(digest: Bytes -> string) {
    forall k, k' :: digest(k) == digest(k') ==> k == k'
  }

  /**
    For a valid account ID and a key not yet registered, availability answers true exactly when a registration
    right after it succeeds. SHA-256 is taken to be injective.
   */
  lemma AvailabilityExact(config: Config, accounts: Accounts, identitty: string, publicKey: Bytes, now: Time)
    requires AccountsOk(config, accounts) && Injective(config.digest) && Normalise(identitty).Some? && |publicKey| == 32
    requires forall a | a in accounts :: accounts[a].publicKey != publicKey
    ensures Available(accounts, identitty) == Some(true) <==>
            RegisterAnswer(config, accounts, identitty, AccountIdOf(config, publicKey), publicKey, now).Accepted?
  {
    var id, name := AccountIdOf(config, publicKey), Normalise(identitty).value;
    NormaliseExact(identitty, name);
    forall a | a in accounts
      ensures NoCaseEqual(accounts[a].identitty, name) <==> accounts[a].identitty == name
    {
      NoCaseIsEquality(accounts[a].identitty, name);
    }
    forall a | a in accounts
      ensures a != id
    {
      IdsInjective(config, accounts[a].publicKey, publicKey);
    }
  }

  lemma IdsInjective(config: Config, k: Bytes, k': Bytes)
    requires Injective(config.digest)
    ensures AccountIdOf(config, k) == AccountIdOf(config, k') ==> k == k'
  {
    assert AccountIdOf(config, k)[5..] == config.digest(k);
    assert AccountIdOf(config, k')[5..] == config.digest(k');
  }

  // ---------------------------------------------------------------- challenges and login calls

  datatype Challenge = Challenge(accountId: AccountId, nonce: Bytes, expiresAt: Time, used: bool)

  /** What the first SELECT of `authenticate` returns. */
  datatype Row = Row(nonce: Bytes, expiresAt: Time, publicKey: Bytes)

  datatype RequestPoint = CheckAccount | InsertChallenge(id: Uuid, nonce: Bytes, expiresAt: Time)

  datatype AuthPoint =
    | ReadRow
    | CheckExpiry(row: Row)
    | VerifySignature(row: Row, checkedAt: Time)
    | MarkUsed(checkedAt: Time)
    | Commit(checkedAt: Time)
    | Issue(checkedAt: Time)

  datatype Call =
    | Requesting(accountId: AccountId, request: RequestPoint)
    | Authenticating(accountId: AccountId, challengeId: Uuid, signature: Bytes, auth: AuthPoint)
    | Returned

  predicate Initial(call: Call) {
    (call.Requesting? && call.request == CheckAccount) || (call.Authenticating? && call.auth == ReadRow)
  }

  datatype Claims = Claims(sub: AccountId, issuedAt: int, expiry: int)

  /** An issued token, with the call that earned it. */
  datatype Session = Session(claims: Claims, challengeId: Uuid, signature: Bytes, checkedAt: Time)

  /** `issued` remembers every challenge ever inserted and `drawn` every random ID; the program keeps no record. */
  datatype Sys = Sys(
    accounts: Accounts,
    challenges: map<Uuid, Challenge>,
    writer: Option<nat>,
    calls: map<nat, Call>,
    sessions: seq<Session>,
    issued: map<Uuid, Challenge>,
    drawn: set<Uuid>,
    clock: Time)

  datatype Event =
    | Register(identitty: string, accountId: AccountId, publicKey: Bytes)
    | Start(c: nat, call: Call)
    | Exec(c: nat, id: Uuid, nonce: Bytes)
    | Fail(c: nat)
    | Cleanup
    | Tick(now: Time)

  /** The call's next statement writes, so it waits for the write lock. */
  predicate Writes(call: Call) {
    (call.Requesting? && call.request.InsertChallenge?) || (call.Authenticating? && call.auth.MarkUsed?)
  }

  ghost predicate Enabled(s: Sys, e: Event) {
    match e
    case Register(_, _, _) => s.writer.None?
    case Start(c, call) => c !in s.calls && Initial(call)
    case Exec(c, id, _) =>
      c in s.calls && !s.calls[c].Returned? && id !in s.drawn && (Writes(s.calls[c]) ==> s.writer.None?)
    case Fail(c) => c in s.calls
    case Cleanup => s.writer.None?
    case Tick(now) => s.clock <= now
  }

  function Found(s: Sys, accountId: AccountId, challengeId: Uuid): Option<Row> {
    if challengeId in s.challenges && s.challenges[challengeId].accountId == accountId &&
       !s.challenges[challengeId].used && accountId in s.accounts
    then
      var challenge := s.challenges[challengeId];
      Some(Row(challenge.nonce, challenge.expiresAt, s.accounts[accountId].publicKey))
    else None
  }

  function SessionFor(config: Config, call: Call, now: Time): Session
    requires call.Authenticating? && call.auth.Issue?
  {
    Session(Claims(call.accountId, now / SECOND, (now + Seconds(config.sessionTtl)) / SECOND),
            call.challengeId, call.signature, call.auth.checkedAt)
  }

  /** Where a call to `request_challenge` goes from its next statement. The ID and the nonce are random. */
  function RequestNext(config: Config, s: Sys, call: Call, id: Uuid, nonce: Bytes): Call
    requires call.Requesting?
  {
    match call.request
    case CheckAccount =>
      if call.accountId !in s.accounts then Returned
      else call.(request := InsertChallenge(id, nonce, s.clock + Seconds(config.challengeTtl)))
    case InsertChallenge(_, _, _) => Returned
  }

  /** The INSERT of `request_challenge` goes through: primary key and foreign key hold. */
  predicate InsertsChallenge(s: Sys, call: Call) {
    call.Requesting? && call.request.InsertChallenge? && call.request.id !in s.challenges &&
    call.accountId in s.accounts
  }

  function NewChallenge(call: Call): Challenge
    requires call.Requesting? && call.request.InsertChallenge?
  {
    Challenge(call.accountId, call.request.nonce, call.request.expiresAt, false)
  }

  /** Where a call to `authenticate` goes from its next statement; an error return rolls the transaction back. */
  function AuthNext(config: Config, s: Sys, call: Call): Call
    requires call.Authenticating?
  {
    match call.auth
    case ReadRow =>
      (match Found(s, call.accountId, call.challengeId)
       case None => Returned
       case Some(row) => call.(auth := CheckExpiry(row)))
    case CheckExpiry(row) =>
      if row.expiresAt <= s.clock then Returned else call.(auth := VerifySignature(row, s.clock))
    case VerifySignature(row, at) =>
      if !config.verifies(row.publicKey, row.nonce, call.signature) then Returned else call.(auth := MarkUsed(at))
    case MarkUsed(at) =>
      if call.challengeId !in s.challenges || s.challenges[call.challengeId].used then Returned
      else call.(auth := Commit(at))
    case Commit(at) => call.(auth := Issue(at))
    case Issue(_) => Returned
  }

  function Marked(challenges: map<Uuid, Challenge>, id: Uuid): map<Uuid, Challenge> {
    if id in challenges then challenges[id := challenges[id].(used := true)] else challenges
  }

  /** One statement of call `c`: INSERTs are visible at once, an UPDATE of `used_at` when its transaction commits. */
  function ExecNext(config: Config, s: Sys, c: nat, id: Uuid, nonce: Bytes): (t: Sys)
    requires c in s.calls && !s.calls[c].Returned?
    ensures c in t.calls && t.calls == s.calls[c := t.calls[c]]
  {
    var call := s.calls[c];
    var next := if call.Requesting? then RequestNext(config, s, call, id, nonce) else AuthNext(config, s, call);
    var t := s.(calls := s.calls[c := next], drawn := s.drawn + {id});
    if InsertsChallenge(s, call) then
      t.(challenges := s.challenges[call.request.id := NewChallenge(call)],
         issued := s.issued[call.request.id := NewChallenge(call)])
    else if call.Authenticating? && call.auth.MarkUsed? && next.Authenticating? then t.(writer := Some(c))
    else if call.Authenticating? && call.auth.Commit? then
      t.(challenges := Marked(s.challenges, call.challengeId), writer := None)
    else if call.Authenticating? && call.auth.Issue? then
      t.(sessions := s.sessions + [SessionFor(config, call, s.clock)])
    else t
  }

  /**
    `expires_at <= CURRENT_TIMESTAMP OR used_at IS NOT NULL`, the former a comparison of texts. SQLite's clock has no
    text outside the years 0 to 9999.
   */
  predicate CleanupDeletes(challenge: Challenge, now: Time) {
    challenge.used ||
    (Timestamps.InRange(now) &&
     Timestamps.CleanupSelects(Timestamps.StoredText(challenge.expiresAt), Timestamps.CivilOf(now)))
  }

  ghost function Apply(config: Config, s: Sys, e: Event): Sys
    requires Enabled(s, e)
  {
    match e
    case Register(identitty, id, key) => s.(accounts := Registered(config, s.accounts, identitty, id, key, s.clock))
    case Start(c, call) => s.(calls := s.calls[c := call])
    case Exec(c, id, nonce) => ExecNext(config, s, c, id, nonce)
    case Fail(c) => s.(calls := s.calls - {c}, writer := if s.writer == Some(c) then None else s.writer)
    case Cleanup =>
      s.(challenges := map id | id in s.challenges && !CleanupDeletes(s.challenges[id], s.clock) :: s.challenges[id])
    case Tick(now) => s.(clock := now)
  }

  ghost predicate Step(config: Config, s: Sys, t: Sys) {
    exists e :: Enabled(s, e) && t == Apply(config, s, e)
  }

  ghost predicate Fresh(s: Sys) {
    s.accounts == map[] && s.challenges == map[] && s.writer == None && s.calls == map[] && s.sessions == [] &&
    s.issued == map[] && s.drawn == {}
  }

  ghost predicate StepsAt(config: Config, run: seq<Sys>, i: nat)
    requires i + 1 < |run|
  {
    Step(config, run[i], run[i+1])
  }

  ghost predicate IsRun(config: Config, run: seq<Sys>) {
    |run| > 0 && Fresh(run[0]) && forall i | 0 <= i < |run| - 1 :: StepsAt(config, run, i)
  }

  // ---------------------------------------------------------------- what every step keeps

  /** The challenge cannot be marked any more: it is marked already, or deleted. */
  predicate Consumed(s: Sys, id: Uuid) {
    id in s.issued && (id !in s.challenges || s.challenges[id].used)
  }

  /** The account's registered key verified the signature over the challenge's nonce, before the challenge expired. */
  predicate Earned(config: Config, s: Sys, accountId: AccountId, challengeId: Uuid, signature: Bytes, checkedAt: Time) {
    challengeId in s.issued && accountId in s.accounts &&
    s.issued[challengeId].accountId == accountId && checkedAt < s.issued[challengeId].expiresAt &&
    config.verifies(s.accounts[accountId].publicKey, s.issued[challengeId].nonce, signature)
  }

  predicate RowMatches(s: Sys, accountId: AccountId, challengeId: Uuid, row: Row) {
    challengeId in s.issued && accountId in s.accounts && s.issued[challengeId].accountId == accountId &&
    row == Row(s.issued[challengeId].nonce, s.issued[challengeId].expiresAt, s.accounts[accountId].publicKey)
  }

  ghost predicate CallOk(config: Config, s: Sys, c: nat, call: Call) {
    match call
    case Returned => true
    case Requesting(_, CheckAccount) => true
    case Requesting(_, InsertChallenge(id, _, _)) => id in s.drawn && id !in s.issued
    case Authenticating(_, _, _, _) => AuthOk(config, s, c, call)
  }

  ghost predicate AuthOk(config: Config, s: Sys, c: nat, call: Call)
    requires call.Authenticating?
  {
      match call.auth
      case ReadRow => true
      case CheckExpiry(row) => RowMatches(s, call.accountId, call.challengeId, row)
      case VerifySignature(row, at) => RowMatches(s, call.accountId, call.challengeId, row) && at < row.expiresAt
      case MarkUsed(at) => Earned(config, s, call.accountId, call.challengeId, call.signature, at)
      case Commit(at) =>
        Earned(config, s, call.accountId, call.challengeId, call.signature, at) && s.writer == Some(c) &&
        call.challengeId in s.challenges && !s.challenges[call.challengeId].used
      case Issue(at) =>
        Earned(config, s, call.accountId, call.challengeId, call.signature, at) && Consumed(s, call.challengeId)
  }

  predicate Issues(call: Call, id: Uuid) {
    call.Authenticating? && call.auth.Issue? && call.challengeId == id
  }

  ghost predicate TablesOk(config: Config, s: Sys) {
    AccountsOk(config, s.accounts) &&
    (forall id | id in s.issued :: id in s.drawn && s.issued[id].accountId in s.accounts && !s.issued[id].used) &&
    forall id | id in s.challenges :: id in s.issued && s.challenges[id] == s.issued[id].(used := s.challenges[id].used)
  }

  ghost predicate CallsOk(config: Config, s: Sys) {
    forall c | c in s.calls :: CallOk(config, s, c, s.calls[c])
  }

  predicate Inserts(call: Call, id: Uuid) {
    call.Requesting? && call.request.InsertChallenge? && call.request.id == id
  }

  ghost predicate DrawsApart(s: Sys) {
    forall c, d, id | c in s.calls && d in s.calls && Inserts(s.calls[c], id) && Inserts(s.calls[d], id) :: c == d
  }

  ghost predicate SessionsOk(config: Config, s: Sys) {
    forall i | 0 <= i < |s.sessions| :: SessionOk(config, s, s.sessions[i])
  }

  predicate SessionOk(config: Config, s: Sys, session: Session) {
    Earned(config, s, session.claims.sub, session.challengeId, session.signature, session.checkedAt) &&
    Consumed(s, session.challengeId)
  }

  ghost predicate SessionsApart(s: Sys) {
    forall i, j | 0 <= i < j < |s.sessions| :: s.sessions[i].challengeId != s.sessions[j].challengeId
  }

  ghost predicate IssuesApart(s: Sys) {
    forall c, d, id | c in s.calls && d in s.calls && Issues(s.calls[c], id) && Issues(s.calls[d], id) :: c == d
  }

  ghost predicate NotYetIssued(s: Sys) {
    forall c, i | c in s.calls && 0 <= i < |s.sessions| :: !Issues(s.calls[c], s.sessions[i].challengeId)
  }

  /** A challenge has earned at most one session, counting the one a committed call is about to issue. */
  ghost predicate SingleUse(s: Sys) {
    SessionsApart(s) && IssuesApart(s) && NotYetIssued(s)
  }

  ghost predicate Inv(config: Config, s: Sys) {
    TablesOk(config, s) && CallsOk(config, s) && DrawsApart(s) && SessionsOk(config, s) && SingleUse(s)
  }

  /** What a step leaves in place for the calls and sessions it does not concern. */
  ghost predicate Extends(s: Sys, t: Sys) {
    (forall a | a in s.accounts :: a in t.accounts && t.accounts[a] == s.accounts[a]) &&
    (forall id | id in s.issued ::
       id in t.issued && t.issued[id] == s.issued[id] && (Consumed(s, id) ==> Consumed(t, id))) &&
    s.drawn <= t.drawn
  }

  lemma ExecExtends(config: Config, s: Sys, c: nat, id: Uuid, nonce: Bytes)
    requires c in s.calls && !s.calls[c].Returned? && CallOk(config, s, c, s.calls[c])
    ensures Extends(s, ExecNext(config, s, c, id, nonce))
  {
    hide RequestNext, AuthNext, SessionFor;
  }

  lemma OtherExtends(config: Config, s: Sys, e: Event)
    requires Enabled(s, e) && !e.Exec?
    ensures Extends(s, Apply(config, s, e))
  {
  }

  lemma StepExtends(config: Config, s: Sys, e: Event)
    requires Inv(config, s) && Enabled(s, e)
    ensures Extends(s, Apply(config, s, e))
  {
    if e.Exec? {
      ExecExtends(config, s, e.c, e.id, e.nonce);
    } else {
      OtherExtends(config, s, e);
    }
  }

  lemma ExecKeepsTables(config: Config, s: Sys, c: nat, id: Uuid, nonce: Bytes)
    requires TablesOk(config, s) && c in s.calls && !s.calls[c].Returned? && CallOk(config, s, c, s.calls[c])
    ensures TablesOk(config, ExecNext(config, s, c, id, nonce))
  {
    hide RequestNext, AuthNext, SessionFor, AccountsOk;
  }

  lemma OtherKeepsTables(config: Config, s: Sys, e: Event)
    requires TablesOk(config, s) && Enabled(s, e) && !e.Exec?
    ensures TablesOk(config, Apply(config, s, e))
  {
    if e.Register? {
      RegisterKeeps(config, s.accounts, e.identitty, e.accountId, e.publicKey, s.clock);
    }
    hide AccountsOk, CleanupDeletes;
  }

  lemma OwnLoginKept(config: Config, s: Sys, c: nat, id: Uuid, nonce: Bytes)
    requires TablesOk(config, s) && Enabled(s, Exec(c, id, nonce)) && s.calls[c].Authenticating?
    requires CallOk(config, s, c, s.calls[c])
    ensures var t := ExecNext(config, s, c, id, nonce); CallOk(config, t, c, t.calls[c])
  {
    hide AccountsOk, SessionFor;
    match s.calls[c].auth
    case Commit(_) =>
    case _ =>
  }

  lemma OwnRequestKept(config: Config, s: Sys, c: nat, id: Uuid, nonce: Bytes)
    requires TablesOk(config, s) && Enabled(s, Exec(c, id, nonce)) && s.calls[c].Requesting?
    ensures var t := ExecNext(config, s, c, id, nonce); CallOk(config, t, c, t.calls[c])
  {
    hide AccountsOk, AuthNext, AuthOk;
  }

  /** What a call knows after its own statement. */
  lemma OwnCallKept(config: Config, s: Sys, c: nat, id: Uuid, nonce: Bytes)
    requires TablesOk(config, s) && Enabled(s, Exec(c, id, nonce)) && CallOk(config, s, c, s.calls[c])
    ensures var t := ExecNext(config, s, c, id, nonce); CallOk(config, t, c, t.calls[c])
  {
    if s.calls[c].Requesting? {
      OwnRequestKept(config, s, c, id, nonce);
    } else {
      OwnLoginKept(config, s, c, id, nonce);
    }
  }

  /** While a transaction holds the write lock, nobody else's statement touches the challenges. */
  lemma LockProtects(config: Config, s: Sys, c: nat, id: Uuid, nonce: Bytes, d: nat)
    requires Enabled(s, Exec(c, id, nonce)) && CallOk(config, s, c, s.calls[c]) && s.writer == Some(d) && d != c
    ensures var t := ExecNext(config, s, c, id, nonce); t.writer == s.writer && t.challenges == s.challenges
  {
    hide RequestNext, AuthNext, SessionFor;
  }

  /** What another login knows: a transaction that holds the write lock still finds its challenge unused. */
  lemma OtherLoginKept(config: Config, s: Sys, c: nat, id: Uuid, nonce: Bytes, d: nat)
    requires Enabled(s, Exec(c, id, nonce)) && CallOk(config, s, c, s.calls[c])
    requires d in s.calls && d != c && s.calls[d].Authenticating? && CallOk(config, s, d, s.calls[d])
    ensures CallOk(config, ExecNext(config, s, c, id, nonce), d, s.calls[d])
  {
    ExecExtends(config, s, c, id, nonce);
    if s.calls[d].auth.Commit? {
      LockProtects(config, s, c, id, nonce, d);
    }
    hide ExecNext;
  }

  lemma OtherCallKept(config: Config, s: Sys, c: nat, id: Uuid, nonce: Bytes, d: nat)
    requires CallsOk(config, s) && DrawsApart(s) && Enabled(s, Exec(c, id, nonce)) && d in s.calls && d != c
    ensures CallOk(config, ExecNext(config, s, c, id, nonce), d, s.calls[d])
  {
    assert CallOk(config, s, c, s.calls[c]) && CallOk(config, s, d, s.calls[d]);
    if s.calls[d].Authenticating? {
      OtherLoginKept(config, s, c, id, nonce, d);
    } else if s.calls[d].Requesting? && s.calls[d].request.InsertChallenge? {
      assert Inserts(s.calls[d], s.calls[d].request.id);
      assert !Inserts(s.calls[c], s.calls[d].request.id);
      hide RequestNext, AuthNext, SessionFor, CallsOk;
    }
  }

  lemma DrawsKept(config: Config, s: Sys, c: nat, id: Uuid, nonce: Bytes)
    requires DrawsApart(s) && CallsOk(config, s) && Enabled(s, Exec(c, id, nonce))
    ensures DrawsApart(ExecNext(config, s, c, id, nonce))
  {
    forall d, other | d in s.calls && Inserts(s.calls[d], other)
      ensures other in s.drawn
    {
      assert CallOk(config, s, d, s.calls[d]);
    }
    assert s.calls[c].Authenticating? ==> !AuthNext(config, s, s.calls[c]).Requesting?;
    hide AuthNext, SessionFor;
  }

  lemma SessionExtends(config: Config, s: Sys, t: Sys, session: Session)
    requires Extends(s, t) && SessionOk(config, s, session)
    ensures SessionOk(config, t, session)
  {
  }

  lemma NewSession(config: Config, s: Sys, c: nat, id: Uuid, nonce: Bytes)
    requires Enabled(s, Exec(c, id, nonce)) && CallOk(config, s, c, s.calls[c])
    ensures var t := ExecNext(config, s, c, id, nonce);
            t.sessions == s.sessions ||
            (t.sessions[..|t.sessions|-1] == s.sessions && Issues(s.calls[c], t.sessions[|t.sessions|-1].challengeId) &&
             SessionOk(config, s, t.sessions[|t.sessions|-1]))
  {
    hide RequestNext, AuthNext;
  }

  lemma SessionsKept(config: Config, s: Sys, e: Event)
    requires Inv(config, s) && Enabled(s, e)
    ensures SessionsOk(config, Apply(config, s, e))
  {
    var t := Apply(config, s, e);
    StepExtends(config, s, e);
    if e.Exec? {
      assert CallOk(config, s, e.c, s.calls[e.c]);
      NewSession(config, s, e.c, e.id, e.nonce);
    }
    assert SessionsOk(config, s);
    hide ExecNext, SessionOk, Extends, Inv, CallOk, CleanupDeletes;
    forall i | 0 <= i < |t.sessions|
      ensures SessionOk(config, t, t.sessions[i])
    {
      if i < |s.sessions| {
        assert t.sessions[i] == s.sessions[i];
      }
      SessionExtends(config, s, t, t.sessions[i]);
    }
  }

  lemma NewIssue(config: Config, s: Sys, c: nat, id: Uuid, nonce: Bytes, earned: Uuid)
    requires Enabled(s, Exec(c, id, nonce)) && CallOk(config, s, c, s.calls[c])
    ensures var t := ExecNext(config, s, c, id, nonce);
            Issues(t.calls[c], earned) ==>
              !Consumed(s, earned) && t.sessions == s.sessions
    ensures Issues(s.calls[c], earned) ==> !ExecNext(config, s, c, id, nonce).calls[c].Authenticating?
  {
  }

  ghost predicate IssuesConsumed(s: Sys) {
    forall c, id | c in s.calls && Issues(s.calls[c], id) :: Consumed(s, id)
  }

  ghost predicate SessionsConsumed(s: Sys) {
    forall i | 0 <= i < |s.sessions| :: Consumed(s, s.sessions[i].challengeId)
  }

  /** A challenge gets its one session: only an unused challenge can be marked, and marking it is for good. */
  lemma ExecSingleUse(config: Config, s: Sys, c: nat, id: Uuid, nonce: Bytes)
    requires Enabled(s, Exec(c, id, nonce)) && CallOk(config, s, c, s.calls[c])
    requires SingleUse(s) && IssuesConsumed(s) && SessionsConsumed(s)
    ensures SingleUse(ExecNext(config, s, c, id, nonce))
  {
    var t := ExecNext(config, s, c, id, nonce);
    NewSession(config, s, c, id, nonce);
    forall earned
      ensures Issues(t.calls[c], earned) ==> !Consumed(s, earned) && t.sessions == s.sessions
      ensures Issues(s.calls[c], earned) ==> !t.calls[c].Authenticating?
    {
      NewIssue(config, s, c, id, nonce, earned);
    }
    hide ExecNext, CallOk, SessionOk, Consumed, Enabled;
  }

  lemma SingleUseKept(config: Config, s: Sys, e: Event)
    requires Inv(config, s) && Enabled(s, e)
    ensures SingleUse(Apply(config, s, e))
  {
    if e.Exec? {
      forall d, earned | d in s.calls && Issues(s.calls[d], earned)
        ensures Consumed(s, earned)
      {
        assert CallOk(config, s, d, s.calls[d]);
      }
      assert CallOk(config, s, e.c, s.calls[e.c]);
      assert SessionsConsumed(s);
      ExecSingleUse(config, s, e.c, e.id, e.nonce);
    }
    hide CleanupDeletes, ExecNext, TablesOk, CallsOk, DrawsApart, SessionsOk;
  }

  /** Outside a statement: a transaction keeps its lock, and the cleanup waits for it. */
  lemma EasyCallKept(config: Config, s: Sys, e: Event, c: nat, call: Call)
    requires Enabled(s, e) && !e.Exec? && CallOk(config, s, c, call) && !(e.Fail? && e.c == c)
    ensures CallOk(config, Apply(config, s, e), c, call)
  {
    OtherExtends(config, s, e);
    hide CleanupDeletes, Registered;
  }

  lemma OthersEasilyKept(config: Config, s: Sys, e: Event)
    requires CallsOk(config, s) && DrawsApart(s) && Enabled(s, e) && !e.Exec?
    ensures CallsOk(config, Apply(config, s, e)) && DrawsApart(Apply(config, s, e))
  {
    var t := Apply(config, s, e);
    forall c | c in t.calls
      ensures CallOk(config, t, c, t.calls[c])
    {
      if c in s.calls {
        assert CallOk(config, s, c, s.calls[c]);
        EasyCallKept(config, s, e, c, s.calls[c]);
      }
    }
    hide CleanupDeletes, Registered, CallOk;
  }

  lemma ExecCallsKept(config: Config, s: Sys, c: nat, id: Uuid, nonce: Bytes)
    requires TablesOk(config, s) && CallsOk(config, s) && DrawsApart(s) && Enabled(s, Exec(c, id, nonce))
    ensures CallsOk(config, ExecNext(config, s, c, id, nonce))
  {
    var t := ExecNext(config, s, c, id, nonce);
    assert CallOk(config, s, c, s.calls[c]);
    OwnCallKept(config, s, c, id, nonce);
    hide ExecNext, TablesOk, CallOk, DrawsApart, AuthNext, RequestNext;
    forall d | d in s.calls && d != c
      ensures CallOk(config, t, d, t.calls[d])
    {
      OtherCallKept(config, s, c, id, nonce, d);
    }
  }

  /** Statements, rollbacks, registrations, the startup cleanup and the clock all keep the invariant. */
  lemma InvKept(config: Config, s: Sys, e: Event)
    requires Inv(config, s) && Enabled(s, e)
    ensures Inv(config, Apply(config, s, e))
  {
    SessionsKept(config, s, e);
    SingleUseKept(config, s, e);
    if e.Exec? {
      assert CallOk(config, s, e.c, s.calls[e.c]);
      ExecKeepsTables(config, s, e.c, e.id, e.nonce);
      DrawsKept(config, s, e.c, e.id, e.nonce);
      ExecCallsKept(config, s, e.c, e.id, e.nonce);
    } else {
      OtherKeepsTables(config, s, e);
      OthersEasilyKept(config, s, e);
    }
    hide TablesOk, CallsOk, DrawsApart, SessionsOk, SingleUse, ExecNext, Registered, CleanupDeletes;
  }

  lemma StepInv(config: Config, s: Sys, t: Sys)
    requires Inv(config, s) && Step(config, s, t)
    ensures Inv(config, t)
  {
    var e :| Enabled(s, e) && t == Apply(config, s, e);
    hide Inv, Apply;
    InvKept(config, s, e);
  }

  lemma FreshInv(config: Config, s: Sys)
    requires Fresh(s)
    ensures Inv(config, s)
  {
  }

  lemma {:induction false} RunInv(config: Config, run: seq<Sys>, n: nat)
    requires IsRun(config, run) && n < |run|
    ensures Inv(config, run[n])
  {
    if n == 0 {
      FreshInv(config, run[0]);
    } else {
      RunInv(config, run, n-1);
      assert StepsAt(config, run, n-1);
      hide IsRun, Inv, Step;
      StepInv(config, run[n-1], run[n]);
    }
  }

  // ---------------------------------------------------------------- what holds in every run

  /** However authentications, rollbacks and cleanups interleave, no challenge earns two sessions. */
  lemma OneSessionPerChallenge(config: Config, run: seq<Sys>, n: nat, i: nat, j: nat)
    requires IsRun(config, run) && n < |run| && i < j < |run[n].sessions|
    ensures run[n].sessions[i].challengeId != run[n].sessions[j].challengeId
  {
    RunInv(config, run, n);
  }

  /**
    The subject of every session is a registered account; its account ID derives from its registered key, and that
    key verified the nonce of a challenge issued to the same account, which had not expired when the call checked.
   */
  lemma SessionsEarned(config: Config, run: seq<Sys>, n: nat, i: nat)
    requires IsRun(config, run) && n < |run| && i < |run[n].sessions|
    ensures var s, t := run[n], run[n].sessions[i];
            Earned(config, s, t.claims.sub, t.challengeId, t.signature, t.checkedAt) &&
            t.claims.sub == "acct_" + config.digest(s.accounts[t.claims.sub].publicKey)
  {
    RunInv(config, run, n);
    assert SessionOk(config, run[n], run[n].sessions[i]);
  }

  /** No two accounts ever have names that normalise to the same, nor the same key. */
  lemma AccountsApart(config: Config, run: seq<Sys>, n: nat, a: AccountId, b: AccountId)
    requires IsRun(config, run) && n < |run| && a in run[n].accounts && b in run[n].accounts && a != b
    ensures Normalise(run[n].accounts[a].identitty) != Normalise(run[n].accounts[b].identitty)
    ensures run[n].accounts[a].publicKey != run[n].accounts[b].publicKey
  {
    RunInv(config, run, n);
    var p, q := run[n].accounts[a].identitty, run[n].accounts[b].identitty;
    assert p == "" + p + "" && q == "" + q + "" && Blank("") && InAnyCase(p, p) && InAnyCase(q, q);
    NormaliseExact(p, p);
    NormaliseExact(q, q);
  }

  lemma SameDayNumber(t: Time)
    requires Timestamps.InRange(t)
    ensures Timestamps.DayNumber(Timestamps.CivilOf(t)) == Timestamps.DayOf(t)
  {
  }

  lemma EarlierDayEarlier(s: Time, t: Time)
    requires Timestamps.InRange(s) && Timestamps.InRange(t) && Timestamps.DayOf(s) < Timestamps.DayOf(t)
    ensures s < t
  {
  }

  /**
    The startup cleanup deletes an unused challenge exactly if it expires on an earlier UTC day or outside the years
    0 to 9999, whose texts sort first; what expired on the same day it leaves behind. So it deletes a challenge that
    has not expired exactly if that expires after the year 9999.
   */
  lemma CleanupExact(challenge: Challenge, now: Time)
    requires Timestamps.InRange(now) && !challenge.used
    ensures CleanupDeletes(challenge, now) <==>
            !Timestamps.InRange(challenge.expiresAt) || Timestamps.DayOf(challenge.expiresAt) < Timestamps.DayOf(now)
    ensures CleanupDeletes(challenge, now) && challenge.expiresAt > now <==>
            challenge.expiresAt >= Timestamps.END_OF_TIME
  {
    if Timestamps.InRange(challenge.expiresAt) {
      Timestamps.CleanupComparesDays(Timestamps.CivilOf(challenge.expiresAt), Timestamps.CivilOf(now));
      SameDayNumber(challenge.expiresAt);
      SameDayNumber(now);
      if CleanupDeletes(challenge, now) {
        EarlierDayEarlier(challenge.expiresAt, now);
      }
    } else {
      Timestamps.SignedSortsFirst(Timestamps.StoredText(challenge.expiresAt), Timestamps.CivilOf(now));
    }
  }

  /** So the machine's cleanup keeps exactly the unused challenges of the current and later UTC days up to year 9999. */
  lemma CleanupKeeps(config: Config, s: Sys, id: Uuid)
    requires Timestamps.InRange(s.clock) && s.writer.None? && id in s.challenges
    ensures var challenge, t := s.challenges[id], Apply(config, s, Cleanup);
            (id in t.challenges <==>
               !challenge.used && Timestamps.InRange(challenge.expiresAt) &&
               Timestamps.DayOf(challenge.expiresAt) >= Timestamps.DayOf(s.clock)) &&
            (id in t.challenges ==> t.challenges[id] == challenge)
  {
    if !s.challenges[id].used {
      CleanupExact(s.challenges[id], s.clock);
    }
  }

  // ---------------------------------------------------------------- bearer tokens

  /**
    `authenticate_bearer` accepts claims that carry the server's MAC and have not expired. The MAC is ideal: only
    issued claims carry it. The leeway is the token library's.
   */
  ghost predicate Accepts(config: Config, s: Sys, claims: Claims) {
    (exists i :: 0 <= i < |s.sessions| && s.sessions[i].claims == claims) &&
    s.clock / SECOND <= claims.expiry + config.leeway
  }
}
