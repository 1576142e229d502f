/**
  The login and the direct chat together. Both work on one accounts table and one clock; a direct-chat call may
  start only with a bearer token the server accepts, and its caller is the token's subject.
 */
module EndToEnd {
  import opened Prelude
  import opened ChatStore
  import Chat = ChatMachine
  import Login
  import LoginRuns

  datatype Sys = Sys(login: Login.Sys, chat: Chat.Sys)

  datatype Event =
    | LoginEvent(login: Login.Event)
    | ChatEvent(chat: Chat.Event)
    | ChatStart(c: nat, call: Chat.Call, bearer: Login.Claims)

  ghost predicate Enabled(config: Login.Config, s: Sys, e: Event) {
    match e
    case LoginEvent(l) => Login.Enabled(s.login, l)
    case ChatEvent(c) => (c.Exec? || c.Drop? || c.Sweep?) && Chat.Enabled(s.chat, c)
    case ChatStart(c, call, bearer) =>
      Chat.Enabled(s.chat, Chat.Start(c, call)) && Login.Accepts(config, s.login, bearer) && call.caller == bearer.sub
  }

  /** A login event may register an account or move the clock, and the direct chat sees both. */
  ghost function Apply(config: Login.Config, s: Sys, e: Event): Sys
    requires Enabled(config, s, e)
  {
    match e
    case LoginEvent(l) =>
      var login := Login.Apply(config, s.login, l);
      Sys(login, s.chat.(clock := login.clock, db := s.chat.db.(accounts := login.accounts)))
    case ChatEvent(c) => s.(chat := Chat.Apply(s.chat, c))
    case ChatStart(c, call, _) => s.(chat := Chat.Apply(s.chat, Chat.Start(c, call)))
  }

  ghost predicate Step(config: Login.Config, s: Sys, t: Sys) {
    exists e :: Enabled(config, s, e) && t == Apply(config, s, e)
  }

  ghost predicate StepsAt(config: Login.Config, run: seq<Sys>, i: nat)
    requires i + 1 < |run|
  {
    Step(config, run[i], run[i+1])
  }

  ghost predicate IsRun(config: Login.Config, run: seq<Sys>) {
    |run| > 0 && Login.Fresh(run[0].login) && Chat.Fresh(run[0].chat) && run[0].login.clock == run[0].chat.clock &&
    forall i | 0 <= i < |run| - 1 :: StepsAt(config, run, i)
  }

  /** The account has logged in: a session was issued to it. */
  ghost predicate LoggedIn(s: Login.Sys, a: AccountId) {
    exists i :: 0 <= i < |s.sessions| && s.sessions[i].claims.sub == a
  }

  ghost predicate CallersLoggedIn(s: Sys) {
    forall c | c in s.chat.calls && !s.chat.calls[c].Done? :: LoggedIn(s.login, s.chat.calls[c].caller)
  }

  ghost predicate SendersLoggedIn(s: Sys) {
    forall q | q in s.chat.db.requests :: LoggedIn(s.login, s.chat.db.requests[q].sender)
  }

  ghost predicate Inv(config: Login.Config, s: Sys) {
    Login.Inv(config, s.login) && Chat.Inv(s.chat) &&
    s.chat.db.accounts == s.login.accounts && s.chat.clock == s.login.clock &&
    CallersLoggedIn(s) && SendersLoggedIn(s)
  }

  /** To the direct chat a login event is a registration, a clock tick or nothing. */
  lemma LoginSeenByChat(config: Login.Config, s: Login.Sys, e: Login.Event)
    requires Login.Enabled(s, e)
    ensures var t := Login.Apply(config, s, e);
            s.clock <= t.clock &&
            (t.accounts == s.accounts ||
             (t.clock == s.clock && exists id, account ::
                AccountFree(s.accounts, id, account) && t.accounts == s.accounts[id := account]))
  {
    if e.Register? {
      var answer := Login.RegisterAnswer(config, s.accounts, e.identitty, e.accountId, e.publicKey, s.clock);
      if answer.Accepted? {
        assert AccountFree(s.accounts, e.accountId, answer.account);
      }
      hide Login.RegisterAnswer;
    }
  }

  lemma LoginKeepsChat(config: Login.Config, s: Sys, e: Login.Event)
    requires Inv(config, s) && Login.Enabled(s.login, e)
    ensures Chat.Inv(Apply(config, s, LoginEvent(e)).chat)
  {
    var login := Login.Apply(config, s.login, e);
    LoginSeenByChat(config, s.login, e);
    hide Login.Apply, Login.Inv, Login.Enabled, Chat.Inv;
    if login.accounts == s.login.accounts {
      Chat.InvKept(s.chat, Chat.Tick(login.clock));
    } else {
      var id, account :| AccountFree(s.login.accounts, id, account) &&
                         login.accounts == s.login.accounts[id := account];
      Chat.InvKept(s.chat, Chat.Register(id, account));
    }
  }

  lemma SessionsGrow(config: Login.Config, s: Login.Sys, e: Login.Event, a: AccountId)
    requires Login.Enabled(s, e) && LoggedIn(s, a)
    ensures LoggedIn(Login.Apply(config, s, e), a)
  {
    var i :| 0 <= i < |s.sessions| && s.sessions[i].claims.sub == a;
    var t := Login.Apply(config, s, e);
    assert s.sessions <= t.sessions by {
      hide Login.RequestNext, Login.AuthNext, Login.Registered, Login.CleanupDeletes;
    }
    assert t.sessions[i] == s.sessions[i];
  }

  lemma CallerKept(db: Db, call: Chat.Call, now: Time, q: Uuid, l: Uuid)
    requires !call.Done?
    ensures var next := Chat.Next(db, call, now, q, l).1; !next.Done? ==> next.caller == call.caller
  {
  }

  lemma SendersKept(config: Login.Config, s: Sys, c: nat, q: Uuid, l: Uuid)
    requires SendersLoggedIn(s) && CallersLoggedIn(s) && Chat.Enabled(s.chat, Chat.Exec(c, q, l))
    ensures SendersLoggedIn(s.(chat := Chat.Apply(s.chat, Chat.Exec(c, q, l))))
  {
    var call, after := s.chat.calls[c], Chat.Apply(s.chat, Chat.Exec(c, q, l)).db.requests;
    Chat.StatementChanges(s.chat.db, call, s.chat.clock, q, l);
    assert LoggedIn(s.login, call.caller);
    hide Chat.Next, LoggedIn, InsertRefused;
    forall p | p in after
      ensures LoggedIn(s.login, after[p].sender)
    {
      if p in s.chat.db.requests && after[p].sender == s.chat.db.requests[p].sender {
      } else {
        assert after[p].sender == call.caller;
      }
    }
  }

  lemma CallersKept(config: Login.Config, s: Sys, c: nat, q: Uuid, l: Uuid)
    requires CallersLoggedIn(s) && Chat.Enabled(s.chat, Chat.Exec(c, q, l))
    ensures CallersLoggedIn(s.(chat := Chat.Apply(s.chat, Chat.Exec(c, q, l))))
  {
    CallerKept(s.chat.db, s.chat.calls[c], s.chat.clock, q, l);
    hide Chat.Next, LoggedIn;
  }

  lemma ChatExecKeeps(config: Login.Config, s: Sys, c: nat, q: Uuid, l: Uuid)
    requires Inv(config, s) && Chat.Enabled(s.chat, Chat.Exec(c, q, l))
    ensures Inv(config, s.(chat := Chat.Apply(s.chat, Chat.Exec(c, q, l))))
  {
    Chat.InvKept(s.chat, Chat.Exec(c, q, l));
    Chat.StatementChanges(s.chat.db, s.chat.calls[c], s.chat.clock, q, l);
    SendersKept(config, s, c, q, l);
    CallersKept(config, s, c, q, l);
    hide Chat.Next, Login.Inv, Chat.Inv, SendersLoggedIn, CallersLoggedIn, Chat.RequestsChange;
  }

  lemma InvKept(config: Login.Config, s: Sys, e: Event)
    requires Inv(config, s) && Enabled(config, s, e)
    ensures Inv(config, Apply(config, s, e))
  {
    match e
    case LoginEvent(l) =>
      Login.InvKept(config, s.login, l);
      LoginKeepsChat(config, s, l);
      forall a | LoggedIn(s.login, a)
        ensures LoggedIn(Login.Apply(config, s.login, l), a)
      {
        SessionsGrow(config, s.login, l, a);
      }
      hide Login.Inv, Chat.Inv, LoggedIn, Login.Apply, Login.Enabled;
    case ChatEvent(c) =>
      if c.Exec? {
        ChatExecKeeps(config, s, c.c, c.requestId, c.leaseId);
      } else {
        Chat.InvKept(s.chat, c);
        hide Login.Inv, Chat.Inv, LoggedIn;
      }
    case ChatStart(c, call, bearer) =>
      Chat.InvKept(s.chat, Chat.Start(c, call));
      assert LoggedIn(s.login, call.caller);
      hide Login.Inv, Chat.Inv, LoggedIn;
  }

  lemma StepInv(config: Login.Config, s: Sys, t: Sys)
    requires Inv(config, s) && Step(config, s, t)
    ensures Inv(config, t)
  {
    var e :| Enabled(config, s, e) && t == Apply(config, s, e);
    hide Inv, Apply;
    InvKept(config, s, e);
  }

  lemma FreshInv(config: Login.Config, s: Sys)
    requires Login.Fresh(s.login) && Chat.Fresh(s.chat) && s.login.clock == s.chat.clock
    ensures Inv(config, s)
  {
    Login.FreshInv(config, s.login);
    Chat.FreshInv(s.chat);
    hide Login.Inv, Chat.Inv;
  }

  lemma {:induction false} RunInv(config: Login.Config, run: seq<Sys>, n: nat)
    requires IsRun(config, run) && n < |run|
    ensures Inv(config, run[n])
  {
    if n == 0 {
      FreshInv(config, run[0]);
    } else {
      RunInv(config, run, n-1);
      assert StepsAt(config, run, n-1);
      hide IsRun, Inv, Step;
      StepInv(config, run[n-1], run[n]);
    }
  }

  /** The account logged in with its registered key, from which its account ID derives. */
  ghost predicate KeyProved(config: Login.Config, s: Login.Sys, a: AccountId) {
    a in s.accounts && a == Login.AccountIdOf(config, s.accounts[a].publicKey) &&
    exists challengeId, signature ::
      challengeId in s.issued && s.issued[challengeId].accountId == a &&
      config.verifies(s.accounts[a].publicKey, s.issued[challengeId].nonce, signature)
  }

  lemma LoginProvesKey(config: Login.Config, s: Login.Sys, a: AccountId)
    requires Login.Inv(config, s) && LoggedIn(s, a)
    ensures KeyProved(config, s, a)
  {
    var i :| 0 <= i < |s.sessions| && s.sessions[i].claims.sub == a;
    assert Login.SessionOk(config, s, s.sessions[i]);
  }

  /**
    Every stored request carries the registered key of its sender, whose account ID derives from that key, and
    that key has verified a challenge issued to the sender.
   */
  lemma RequestsAuthentic(config: Login.Config, run: seq<Sys>, n: nat, q: Uuid)
    requires IsRun(config, run) && n < |run| && q in run[n].chat.db.requests
    ensures var r := run[n].chat.db.requests[q];
            KeyProved(config, run[n].login, r.sender) &&
            r.senderPublicKey == run[n].login.accounts[r.sender].publicKey
  {
    RunInv(config, run, n);
    var r := run[n].chat.db.requests[q];
    assert LoggedIn(run[n].login, r.sender);
    LoginProvesKey(config, run[n].login, r.sender);
    assert RowOk(run[n].chat.db.accounts, r, run[n].chat.clock);
  }

  /** The sender lookup of a send never fails for a caller whose bearer token was accepted. */
  lemma SenderLookupSucceeds(config: Login.Config, run: seq<Sys>, n: nat, c: nat, q: Uuid, l: Uuid)
    requires IsRun(config, run) && n < |run| && c in run[n].chat.calls
    requires run[n].chat.calls[c].SendCall? && run[n].chat.calls[c].send.LookupSender?
    ensures var call := run[n].chat.calls[c];
            call.caller in run[n].login.accounts &&
            Chat.Next(run[n].chat.db, call, run[n].chat.clock, q, l).1 ==
            call.(send := Chat.LookupRepeat(run[n].login.accounts[call.caller].publicKey))
  {
    RunInv(config, run, n);
    assert LoggedIn(run[n].login, run[n].chat.calls[c].caller);
    LoginProvesKey(config, run[n].login, run[n].chat.calls[c].caller);
  }

  // ---------------------------------------------------------------- every registered account can chat

  ghost function Last(run: seq<Sys>): Sys
    requires |run| > 0
  {
    run[|run| - 1]
  }

  /** `longer` is a run that goes on from `run`. */
  ghost predicate Continues(config: Login.Config, run: seq<Sys>, longer: seq<Sys>) {
    0 < |run| <= |longer| && longer[..|run|] == run && IsRun(config, longer)
  }

  lemma {:induction false} Extend(config: Login.Config, run: seq<Sys>, e: Event) returns (longer: seq<Sys>)
    requires IsRun(config, run) && Enabled(config, Last(run), e)
    ensures longer == run + [Apply(config, Last(run), e)] && Continues(config, run, longer)
  {
    longer := run + [Apply(config, Last(run), e)];
    forall i | 0 <= i < |longer| - 1
      ensures StepsAt(config, longer, i)
    {
      if i + 1 < |run| {
        assert StepsAt(config, run, i);
      }
    }
  }

  function LoginPart(run: seq<Sys>): (part: seq<Login.Sys>)
    ensures |part| == |run| && forall i | 0 <= i < |run| :: part[i] == run[i].login
  {
    seq(|run|, i requires 0 <= i < |run| => run[i].login)
  }

  /** To the login a step of the direct chat is a tick that moves nothing. */
  lemma LoginPartRuns(config: Login.Config, run: seq<Sys>)
    requires IsRun(config, run)
    ensures Login.IsRun(config, LoginPart(run))
  {
    forall i | 0 <= i < |run| - 1
      ensures Login.StepsAt(config, LoginPart(run), i)
    {
      assert StepsAt(config, run, i);
      var e :| Enabled(config, run[i], e) && run[i+1] == Apply(config, run[i], e);
      if !e.LoginEvent? {
        var tick := Login.Tick(run[i].login.clock);
        assert Login.Enabled(run[i].login, tick) && Login.Apply(config, run[i].login, tick) == run[i].login;
      }
    }
  }

  /** From `run` to `longer` nothing happens to the requests, the blocks and the calls of the direct chat. */
  ghost predicate Beside(config: Login.Config, run: seq<Sys>, longer: seq<Sys>) {
    Continues(config, run, longer) &&
    Last(longer).chat == Last(run).chat.(clock := Last(longer).chat.clock,
                                         db := Last(run).chat.db.(accounts := Last(longer).chat.db.accounts))
  }

  ghost predicate LiftsTo(config: Login.Config, run: seq<Sys>, longer: seq<Sys>, login: Login.Sys) {
    Beside(config, run, longer) && Last(longer).login == login
  }

  ghost predicate MayLift(config: Login.Config, run: seq<Sys>, login: Login.Sys) {
    exists longer :: LiftsTo(config, run, longer, login)
  }

  /** What the login can go on to do, it can go on to do beside the direct chat. */
  lemma {:induction false} Lift(config: Login.Config, run: seq<Sys>, logins: seq<Login.Sys>, n: nat)
    requires IsRun(config, run) && LoginRuns.Continues(config, LoginPart(run), logins) && |run| <= n <= |logins|
    ensures MayLift(config, run, logins[n-1])
  {
    if n == |run| {
      assert logins[n-1] == LoginPart(run)[n-1];
      assert LiftsTo(config, run, run, logins[n-1]);
    } else {
      Lift(config, run, logins, n - 1);
      var shorter :| LiftsTo(config, run, shorter, logins[n-2]);
      assert Login.StepsAt(config, logins, n - 2);
      var e :| Login.Enabled(logins[n-2], e) && logins[n-1] == Login.Apply(config, logins[n-2], e);
      hide Login.Apply, IsRun;
      var longer := Extend(config, shorter, LoginEvent(e));
      assert longer[..|run|] == shorter[..|run|];
      assert LiftsTo(config, run, longer, logins[n-1]);
    }
  }

  /** From `run` to `longer` the account gets a token that is accepted, beside the direct chat. */
  ghost predicate LogsInTo(config: Login.Config, run: seq<Sys>, longer: seq<Sys>, a: AccountId, bearer: Login.Claims) {
    Beside(config, run, longer) && bearer.sub == a && Login.Accepts(config, Last(longer).login, bearer) &&
    Last(longer).chat.clock == Last(run).login.clock && Last(longer).chat.db.accounts == Last(run).login.accounts
  }

  ghost predicate MayLogIn(config: Login.Config, run: seq<Sys>, a: AccountId) {
    exists longer, bearer :: LogsInTo(config, run, longer, a, bearer)
  }

  /** The account logs in beside the direct chat, whose tables and calls stay as they are. */
  lemma {:induction false} LogsInBeside(config: Login.Config, run: seq<Sys>, a: AccountId, nonce: Bytes,
                                        signature: Bytes)
    requires IsRun(config, run) && a in Last(run).login.accounts
    requires config.challengeTtl > 0 && config.sessionTtl + config.leeway >= 0
    requires config.verifies(Last(run).login.accounts[a].publicKey, nonce, signature)
    ensures MayLogIn(config, run, a)
  {
    LoginPartRuns(config, run);
    assert Last(run).login == LoginRuns.Last(LoginPart(run));
    hide IsRun, Login.IsRun, Login.Accepts, LoginPart;
    var logins := LoginRuns.LogsIn(config, LoginPart(run), a, nonce, signature);
    var login := logins[|logins| - 1];
    assert LoginRuns.Last(logins) == login;
    hide LoginRuns.Continues;
    Lift(config, run, logins, |logins|);
    var longer :| LiftsTo(config, run, longer, login);
    RunInv(config, longer, |longer| - 1);
    hide CallersLoggedIn, SendersLoggedIn, Login.Inv, Chat.Inv, Continues;
    assert LogsInTo(config, run, longer, a, login.sessions[|login.sessions| - 1].claims);
  }

  /**
    No account is shut out: from any state of any run, a registered account whose key verifies some signature over some
    nonce can come to have any direct-chat call of its own started, over whatever requests and blocks are there.
   */
  lemma {:induction false} CanChat(config: Login.Config, run: seq<Sys>, call: Chat.Call, nonce: Bytes, signature: Bytes)
    returns (longer: seq<Sys>, c: nat)
    requires IsRun(config, run) && Chat.Initial(call)
    requires call.caller in Last(run).login.accounts
    requires config.challengeTtl > 0 && config.sessionTtl + config.leeway >= 0
    requires config.verifies(Last(run).login.accounts[call.caller].publicKey, nonce, signature)
    ensures Continues(config, run, longer)
    ensures c in Last(longer).chat.calls && Last(longer).chat.calls[c] == call
    ensures Last(longer).chat.clock == Last(run).login.clock
    ensures Last(longer).chat.db == Last(run).chat.db.(accounts := Last(run).login.accounts)
  {
    LogsInBeside(config, run, call.caller, nonce, signature);
    hide IsRun, Login.Accepts, Chat.Initial;
    var lifted, bearer :| LogsInTo(config, run, lifted, call.caller, bearer);
    c := Above(Last(lifted).chat.calls.Keys);
    longer := Extend(config, lifted, ChatStart(c, call, bearer));
    assert longer[..|run|] == lifted[..|run|];
  }
}
