/** What runs of the login machine can reach, and how long the tokens they issue are good for. */
module LoginRuns {
  import opened Prelude
  import opened ChatStore
  import opened Login
  import opened LoginService
  import opened Validation

  ghost function Last(run: seq<Sys>): Sys
    requires |run| > 0
  {
    run[|run| - 1]
  }

  /** `longer` is a run that goes on from `run`. */
  ghost predicate Continues(config: Config, run: seq<Sys>, longer: seq<Sys>) {
    0 < |run| <= |longer| && longer[..|run|] == run && IsRun(config, longer)
  }

  lemma ContinuesTwice(config: Config, run: seq<Sys>, longer: seq<Sys>, longest: seq<Sys>)
    requires Continues(config, run, longer) && Continues(config, longer, longest)
    ensures Continues(config, run, longest)
  {
    assert longest[..|run|] == longest[..|longer|][..|run|];
  }

  lemma {:induction false} Extend(config: Config, run: seq<Sys>, e: Event) returns (longer: seq<Sys>)
    requires IsRun(config, run) && Enabled(Last(run), e)
    ensures longer == run + [Apply(config, Last(run), e)] && Continues(config, run, longer)
  {
    longer := run + [Apply(config, Last(run), e)];
    forall i | 0 <= i < |longer| - 1
      ensures StepsAt(config, longer, i)
    {
      if i + 1 < |run| {
        assert StepsAt(config, run, i);
      }
    }
  }

  lemma OnlyRegisters(config: Config, s: Sys, e: Event)
    requires Enabled(s, e) && !e.Register?
    ensures Apply(config, s, e).accounts == s.accounts
  {
    hide RequestNext, AuthNext, CleanupDeletes, SessionFor;
  }

  /** An account that a step of a run adds has the moment as its creation time, and an ID derived from its key. */
  lemma AccountsDated(config: Config, run: seq<Sys>, i: nat, a: AccountId)
    requires IsRun(config, run) && i + 1 < |run| && a !in run[i].accounts && a in run[i+1].accounts
    ensures run[i+1].accounts[a].createdAt == run[i].clock
    ensures Canonical(run[i+1].accounts[a].identitty)
    ensures a == "acct_" + config.digest(run[i+1].accounts[a].publicKey)
  {
    assert StepsAt(config, run, i);
    RunInv(config, run, i + 1);
    var e :| Enabled(run[i], e) && run[i+1] == Apply(config, run[i], e);
    if e.Register? {
      RegisterExact(config, run[i].accounts, e.identitty, e.accountId, e.publicKey, run[i].clock);
      hide IsRun, Registered, RegisterAnswer, CallsOk, DrawsApart, SessionsOk, SingleUse, Canonical, Spells;
    } else {
      hide IsRun, Apply, Inv;
      OnlyRegisters(config, run[i], e);
    }
  }

  // ---------------------------------------------------------------- the lifetime of a token

  /** What a step leaves in place: sessions and accounts are only added, a session at a time. */
  ghost predicate Grows(s: Sys, t: Sys) {
    s.sessions <= t.sessions && |t.sessions| <= |s.sessions| + 1 && s.clock <= t.clock &&
    forall a | a in s.accounts :: a in t.accounts && t.accounts[a] == s.accounts[a]
  }

  lemma ExecGrows(config: Config, s: Sys, c: nat, id: Uuid, nonce: Bytes)
    requires c in s.calls && !s.calls[c].Returned?
    ensures Grows(s, ExecNext(config, s, c, id, nonce))
  {
    hide RequestNext, AuthNext, SessionFor, NewChallenge, Marked;
  }

  lemma StepGrows(config: Config, s: Sys, t: Sys)
    requires Step(config, s, t)
    ensures Grows(s, t)
  {
    var e :| Enabled(s, e) && t == Apply(config, s, e);
    hide ExecNext, CleanupDeletes, Registered;
    if e.Register? {
      RegisterSpares(config, s.accounts, e.identitty, e.accountId, e.publicKey, s.clock);
    } else if e.Exec? {
      ExecGrows(config, s, e.c, e.id, e.nonce);
    }
  }

  lemma RegisterSpares(config: Config, accounts: Accounts, identitty: string, id: AccountId, publicKey: Bytes,
                       now: Time)
    ensures forall a | a in accounts ::
              a in Registered(config, accounts, identitty, id, publicKey, now) &&
              Registered(config, accounts, identitty, id, publicKey, now)[a] == accounts[a]
  {
  }

  lemma {:induction false} RunGrows(config: Config, run: seq<Sys>, i: nat, j: nat)
    requires IsRun(config, run) && i <= j < |run|
    ensures run[i].sessions <= run[j].sessions && run[i].clock <= run[j].clock
    ensures forall a | a in run[i].accounts :: a in run[j].accounts && run[j].accounts[a] == run[i].accounts[a]
  {
    if i < j {
      RunGrows(config, run, i, j - 1);
      assert StepsAt(config, run, j - 1);
      hide IsRun, Step;
      StepGrows(config, run[j-1], run[j]);
    }
  }

  /** A session is the work of an Issue statement, and claims the account, the second and the configured lifetime. */
  lemma IssuedClaims(config: Config, s: Sys, t: Sys)
    requires Step(config, s, t) && |s.sessions| < |t.sessions|
    ensures ClaimsAre(t.sessions[|s.sessions|].claims, config, t.sessions[|s.sessions|].claims.sub, s.clock)
  {
    var e :| Enabled(s, e) && t == Apply(config, s, e);
    assert e.Exec?;
    var call := s.calls[e.c];
    hide RequestNext, AuthNext;
    assert call.Authenticating? && call.auth.Issue? && t.sessions == s.sessions + [SessionFor(config, call, s.clock)];
    ClaimsExact(config, call.accountId, s.clock);
  }

  /**
    How long a token is good for, in any run: if the step from run[i] issues it, then at any later moment the server
    accepts it exactly until the configured lifetime and the leeway are over, counted in whole seconds.
   */
  lemma TokenLifetime(config: Config, run: seq<Sys>, i: nat, j: nat)
    requires IsRun(config, run) && i < j < |run| && |run[i].sessions| < |run[i+1].sessions|
    ensures |run[i].sessions| < |run[j].sessions|
    ensures var claims := run[j].sessions[|run[i].sessions|].claims;
            Accepts(config, run[j], claims) <==>
              run[j].clock / 1_000_000_000 <= run[i].clock / 1_000_000_000 + config.sessionTtl + config.leeway
  {
    RunGrows(config, run, i + 1, j);
    assert StepsAt(config, run, i);
    IssuedClaims(config, run[i], run[i+1]);
    var n := |run[i].sessions|;
    assert run[j].sessions[n] == run[i+1].sessions[n];
    hide IsRun, StepsAt;
  }

  // ---------------------------------------------------------------- every registered account can log in

  /** The call will issue a session if its statements run on from here. */
  predicate OnTrack(config: Config, s: Sys, c: nat) {
    c in s.calls && s.calls[c].Authenticating? &&
    var call := s.calls[c];
    call.accountId in s.accounts &&
    (!call.auth.Issue? ==>
       call.challengeId in s.challenges && !s.challenges[call.challengeId].used &&
       s.challenges[call.challengeId].accountId == call.accountId) &&
    (!call.auth.Issue? && !call.auth.Commit? ==> s.writer.None?) &&
    (call.auth.ReadRow? || call.auth.CheckExpiry? || call.auth.VerifySignature? ==>
       var challenge := s.challenges[call.challengeId];
       s.clock < challenge.expiresAt &&
       config.verifies(s.accounts[call.accountId].publicKey, challenge.nonce, call.signature) &&
       var row := Row(challenge.nonce, challenge.expiresAt, s.accounts[call.accountId].publicKey);
       (call.auth.CheckExpiry? ==> call.auth.row == row) && (call.auth.VerifySignature? ==> call.auth.row == row))
  }

  lemma OnTrackStep(config: Config, s: Sys, c: nat, id: Uuid)
    requires OnTrack(config, s, c)
    ensures var t := ExecNext(config, s, c, id, []);
            t.clock == s.clock && t.accounts == s.accounts &&
            if s.calls[c].auth.Issue? then
              |t.sessions| == |s.sessions| + 1 && t.sessions[|s.sessions|].claims.sub == s.calls[c].accountId
            else
              OnTrack(config, t, c) && t.sessions == s.sessions && t.calls[c].accountId == s.calls[c].accountId
  {
  }

  /** From `run` to `longer` the account gets one more session, while accounts and clock stay what they are. */
  ghost predicate Finishes(config: Config, run: seq<Sys>, longer: seq<Sys>, a: AccountId) {
    Continues(config, run, longer) && Last(longer).clock == Last(run).clock &&
    Last(longer).accounts == Last(run).accounts && |Last(longer).sessions| == |Last(run).sessions| + 1 &&
    Last(longer).sessions[|Last(run).sessions|].claims.sub == a
  }

  ghost predicate MayFinish(config: Config, run: seq<Sys>, a: AccountId) {
    exists longer :: Finishes(config, run, longer, a)
  }

  lemma {:induction false} FinishLogin(config: Config, run: seq<Sys>, c: nat)
    requires IsRun(config, run) && OnTrack(config, Last(run), c)
    ensures MayFinish(config, run, Last(run).calls[c].accountId)
    decreases Rank(Last(run).calls[c])
  {
    var s := Last(run);
    var id, _ := TwoFresh(s.drawn);
    OnTrackStep(config, s, c, id);
    RankFalls(config, s, c, id, []);
    var next := Extend(config, run, Exec(c, id, []));
    if s.calls[c].auth.Issue? {
      assert Finishes(config, run, next, s.calls[c].accountId);
    } else {
      hide ExecNext, IsRun, OnTrack, Rank;
      FinishLogin(config, next, c);
      var longer :| Finishes(config, next, longer, s.calls[c].accountId);
      ContinuesTwice(config, run, next, longer);
      assert Finishes(config, run, longer, s.calls[c].accountId);
    }
  }

  /** The write lock is held by a call that is about to commit. */
  ghost predicate LockHeld(s: Sys) {
    s.writer.Some? ==>
      var c := s.writer.value;
      c in s.calls && s.calls[c].Authenticating? && s.calls[c].auth.Commit?
  }

  lemma ExecLock(config: Config, s: Sys, c: nat, id: Uuid, nonce: Bytes)
    requires LockHeld(s) && Enabled(s, Exec(c, id, nonce)) && CallOk(config, s, c, s.calls[c])
    ensures LockHeld(ExecNext(config, s, c, id, nonce))
  {
    hide SessionFor, NewChallenge, Marked, Found;
  }

  lemma OtherLock(config: Config, s: Sys, e: Event)
    requires LockHeld(s) && Enabled(s, e) && !e.Exec?
    ensures LockHeld(Apply(config, s, e))
  {
    hide Registered, CleanupDeletes;
  }

  lemma LockStep(config: Config, s: Sys, t: Sys)
    requires Inv(config, s) && LockHeld(s) && Step(config, s, t)
    ensures LockHeld(t)
  {
    var e :| Enabled(s, e) && t == Apply(config, s, e);
    if e.Exec? {
      assert CallOk(config, s, e.c, s.calls[e.c]);
      hide Inv, CallOk, ExecNext;
      ExecLock(config, s, e.c, e.id, e.nonce);
    } else {
      hide Inv, Apply;
      OtherLock(config, s, e);
    }
  }

  lemma {:induction false} LockInRun(config: Config, run: seq<Sys>, n: nat)
    requires IsRun(config, run) && n < |run|
    ensures LockHeld(run[n])
  {
    if n > 0 {
      LockInRun(config, run, n - 1);
      RunInv(config, run, n - 1);
      assert StepsAt(config, run, n - 1);
      hide IsRun, Inv, Step;
      LockStep(config, run[n-1], run[n]);
    }
  }

  /** A transaction that holds the write lock may be rolled back, which frees the lock and changes no table. */
  lemma {:induction false} FreesLock(config: Config, run: seq<Sys>) returns (longer: seq<Sys>)
    requires IsRun(config, run)
    ensures Continues(config, run, longer)
    ensures Last(longer) == Last(run).(writer := None, calls := Last(longer).calls)
  {
    LockInRun(config, run, |run| - 1);
    longer := run;
    if Last(run).writer.Some? {
      longer := Extend(config, run, Fail(Last(run).writer.value));
    }
  }

  /** The account requests a challenge with this nonce, and gets it. */
  lemma {:induction false} GetsChallenge(config: Config, run: seq<Sys>, a: AccountId, nonce: Bytes)
    returns (longer: seq<Sys>, id: Uuid)
    requires IsRun(config, run) && Last(run).writer.None? && a in Last(run).accounts
    ensures Continues(config, run, longer) && Holds(Last(run), Last(longer), id)
    ensures Last(longer).challenges[id] == Challenge(a, nonce, Last(run).clock + Seconds(config.challengeTtl), false)
  {
    var s := Last(run);
    RunInv(config, run, |run| - 1);
    var c := Above(s.calls.Keys);
    var q;
    id, q := TwoFresh(s.drawn);
    assert id !in s.challenges && id != q;
    hide Inv, IsRun, AuthNext;
    var started := Extend(config, run, Start(c, Requesting(a, CheckAccount)));
    var checked := Extend(config, started, Exec(c, id, nonce));
    assert Last(checked).calls[c] == Requesting(a, InsertChallenge(id, nonce, s.clock + Seconds(config.challengeTtl)));
    longer := Extend(config, checked, Exec(c, q, nonce));
    ContinuesTwice(config, run, started, checked);
    ContinuesTwice(config, run, checked, longer);
  }

  /** The challenge is there, the lock is free, and accounts, sessions and clock are those of before. */
  ghost predicate Holds(s: Sys, t: Sys, id: Uuid) {
    t == s.(challenges := t.challenges, writer := None, calls := t.calls, issued := t.issued, drawn := t.drawn) &&
    id in t.challenges
  }

  /** A registered account whose key verifies a signature over the nonce it is given can log in. */
  lemma {:induction false} LogsIn(config: Config, run: seq<Sys>, a: AccountId, nonce: Bytes, signature: Bytes)
    returns (longer: seq<Sys>)
    requires IsRun(config, run) && a in Last(run).accounts && config.challengeTtl > 0
    requires config.verifies(Last(run).accounts[a].publicKey, nonce, signature)
    ensures Continues(config, run, longer) && GainsSession(Last(run), Last(longer), a)
    ensures Last(longer).clock == Last(run).clock && Last(longer).accounts == Last(run).accounts
    ensures config.sessionTtl + config.leeway >= 0 ==>
              Accepts(config, Last(longer), Last(longer).sessions[|Last(longer).sessions| - 1].claims)
  {
    var free := FreesLock(config, run);
    var asked, id := GetsChallenge(config, free, a, nonce);
    ContinuesTwice(config, run, free, asked);
    var t := Last(asked);
    var c := Above(t.calls.Keys);
    hide Inv, IsRun, ExecNext;
    var started := Extend(config, asked, Start(c, Authenticating(a, id, signature, ReadRow)));
    assert OnTrack(config, Last(started), c);
    hide OnTrack;
    FinishLogin(config, started, c);
    longer :| Finishes(config, started, longer, a);
    ContinuesTwice(config, run, asked, started);
    ContinuesTwice(config, run, started, longer);
    if config.sessionTtl + config.leeway >= 0 {
      IssuedNow(config, started, longer);
    }
  }

  /** The token that one run more than another has is good at the moment when nothing but statements come between. */
  lemma IssuedNow(config: Config, run: seq<Sys>, longer: seq<Sys>)
    requires Continues(config, run, longer) && |Last(longer).sessions| == |Last(run).sessions| + 1
    requires Last(longer).clock == Last(run).clock && config.sessionTtl + config.leeway >= 0
    ensures Accepts(config, Last(longer), Last(longer).sessions[|Last(run).sessions|].claims)
  {
    assert longer[|run| - 1] == Last(run);
    var i := FirstWithMore(config, longer, |run| - 1, |longer| - 1);
    RunGrows(config, longer, |run| - 1, i);
    RunGrows(config, longer, i, |longer| - 1);
    TokenLifetime(config, longer, i, |longer| - 1);
  }

  lemma {:induction false} FirstWithMore(config: Config, run: seq<Sys>, i: nat, j: nat) returns (k: nat)
    requires IsRun(config, run) && i < j < |run| && |run[j].sessions| == |run[i].sessions| + 1
    ensures i <= k < j && |run[k].sessions| == |run[i].sessions| && |run[k+1].sessions| > |run[i].sessions|
  {
    RunGrows(config, run, i, j - 1);
    RunGrows(config, run, j - 1, j);
    hide IsRun;
    if |run[j-1].sessions| == |run[i].sessions| {
      k := j - 1;
    } else {
      k := FirstWithMore(config, run, i, j - 1);
    }
  }

  /** The last session of `t` is new, and the account's. */
  predicate GainsSession(s: Sys, t: Sys, a: AccountId) {
    |t.sessions| > |s.sessions| && t.sessions[|t.sessions| - 1].claims.sub == a
  }

  /**
    Who can log in: from any state of any run some continuation issues a session to a registered account if and only if
    its registered key verifies some signature over some nonce.
   */
  lemma LoginPossibleExactly(config: Config, run: seq<Sys>, a: AccountId)
    requires IsRun(config, run) && a in Last(run).accounts && config.challengeTtl > 0
    ensures (exists longer :: Continues(config, run, longer) && GainsSession(Last(run), Last(longer), a)) <==>
            (exists nonce, signature :: config.verifies(Last(run).accounts[a].publicKey, nonce, signature))
  {
    if longer :| Continues(config, run, longer) && GainsSession(Last(run), Last(longer), a) {
      assert longer[|run| - 1] == Last(run);
      RunGrows(config, longer, |run| - 1, |longer| - 1);
      var n := |Last(longer).sessions| - 1;
      SessionsEarned(config, longer, |longer| - 1, n);
      var session := Last(longer).sessions[n];
      assert config.verifies(Last(run).accounts[a].publicKey, Last(longer).issued[session.challengeId].nonce,
                             session.signature);
    }
    if nonce, signature :| config.verifies(Last(run).accounts[a].publicKey, nonce, signature) {
      var longer := LogsIn(config, run, a, nonce, signature);
    }
  }
}
