/** When a stored request may be active again: exactly how far a lease can be carried past its end. */
module ChatRevival {
  import opened Prelude
  import opened ChatStore
  import opened ChatMachine
  import opened ChatGuarantees
  import opened ChatPaths

  ghost predicate ActiveIn(s: Sys, q: Uuid) {
    q in s.db.requests && Active(s.db.requests[q], s.clock)
  }

  /** A renew of the request that has passed its own purge and may still give it a lease from now on. */
  ghost predicate CanRevive(s: Sys, q: Uuid, call: Call)
    requires q in s.db.requests
  {
    call.RenewCall? && call.requestId == q &&
    match call.renew
    case RenewPurge => false
    case SelectLease => call.leaseId == s.db.requests[q].leaseId && call.caller == s.db.requests[q].sender
    case StampLease(_) => true
    case UpdateLease(expires) => expires > s.clock
  }

  /** The request is active, or its hard limit has not passed and some call can revive it. */
  ghost predicate Hopeful(s: Sys, q: Uuid) {
    q in s.db.requests &&
    (Active(s.db.requests[q], s.clock) ||
     (s.db.requests[q].hardExpiresAt > s.clock && exists c :: c in s.calls && CanRevive(s, q, s.calls[c])))
  }

  /** A statement that makes a request active is the UPDATE of a renew for it. */
  lemma ActivatedBy(s: Sys, c: nat, id: Uuid, l: Uuid, q: Uuid)
    requires Inv(s) && Enabled(s, Exec(c, id, l)) && q in s.db.requests
    requires !ActiveIn(s, q) && ActiveIn(Apply(s, Exec(c, id, l)), q)
    ensures CanRevive(s, q, s.calls[c]) && s.db.requests[q].hardExpiresAt > s.clock
  {
    var call := s.calls[c];
    assert CallOk(s, call);
    StoredSpent(s, q);
    StatementChanges(s.db, call, s.clock, id, l);
    hide Next, Inv, Spent;
  }

  /** A renew that can revive an inactive request could before the statement, unless the statement ended its lease. */
  lemma RevivableBefore(s: Sys, c: nat, id: Uuid, l: Uuid, q: Uuid, d: nat)
    requires Inv(s) && Enabled(s, Exec(c, id, l)) && q in s.db.requests && d in s.calls
    requires var t := Apply(s, Exec(c, id, l));
             q in t.db.requests && CanRevive(t, q, t.calls[d]) && !ActiveIn(t, q)
    ensures CanRevive(s, q, s.calls[d])
    ensures s.db.requests[q].hardExpiresAt == Apply(s, Exec(c, id, l)).db.requests[q].hardExpiresAt
  {
    RowStep(s, Apply(s, Exec(c, id, l)), q) by {
      StoredSpent(s, q);
      assert Step(s, Apply(s, Exec(c, id, l)));
    }
    hide Inv, Spent, SendNext;
  }

  lemma HopefulExec(s: Sys, c: nat, id: Uuid, l: Uuid, q: Uuid)
    requires Inv(s) && Enabled(s, Exec(c, id, l)) && q in s.db.requests && Hopeful(Apply(s, Exec(c, id, l)), q)
    ensures Hopeful(s, q)
  {
    var t := Apply(s, Exec(c, id, l));
    if !ActiveIn(s, q) {
      if ActiveIn(t, q) {
        ActivatedBy(s, c, id, l, q);
      } else {
        var d :| d in t.calls && CanRevive(t, q, t.calls[d]);
        RevivableBefore(s, c, id, l, q, d);
      }
    }
    hide Next, Inv, CanRevive;
  }

  /** No step gives hope to a request that had none. */
  lemma HopefulStep(s: Sys, t: Sys, q: Uuid)
    requires Inv(s) && Step(s, t) && q in s.db.requests && Hopeful(t, q)
    ensures Hopeful(s, q)
  {
    var e :| Enabled(s, e) && t == Apply(s, e);
    if e.Exec? {
      HopefulExec(s, e.c, e.requestId, e.leaseId, q);
    } else if !ActiveIn(t, q) {
      var d :| d in t.calls && CanRevive(t, q, t.calls[d]);
      assert CanRevive(s, q, s.calls[d]);
    }
  }

  lemma {:induction false} HopefulBefore(run: seq<Sys>, i: nat, j: nat, q: Uuid)
    requires IsRun(run) && i <= j < |run| && q in run[i].db.requests && Hopeful(run[j], q)
    ensures Hopeful(run[i], q)
  {
    if i < j {
      RunInv(run, i);
      RunInv(run, j - 1);
      StoredSpent(run[i], q);
      SpentForever(run, i, j - 1, q);
      StepAt(run, j - 1);
      assert q in run[j].db.requests;
      hide IsRun, Inv, Step, Hopeful;
      RowStep(run[j-1], run[j], q);
      HopefulStep(run[j-1], run[j], q);
      HopefulBefore(run, i, j - 1, q);
    }
  }

  /** The run goes on quietly until the request is active. */
  ghost predicate Revives(run: seq<Sys>, longer: seq<Sys>, q: Uuid) {
    Quietly(run, longer) && ActiveIn(Last(longer), q)
  }

  ghost predicate MayRevive(run: seq<Sys>, q: Uuid) {
    exists longer :: Revives(run, longer, q)
  }

  /** The renew goes on, and its UPDATE makes the request active. */
  lemma {:induction false} Revive(run: seq<Sys>, c: nat, q: Uuid)
    requires IsRun(run) && q in Last(run).db.requests && Last(run).db.requests[q].hardExpiresAt > Last(run).clock
    requires c in Last(run).calls && CanRevive(Last(run), q, Last(run).calls[c])
    ensures MayRevive(run, q)
    decreases Left(Last(run).calls[c].renew)
  {
    var s := Last(run);
    RunInv(run, |run| - 1);
    assert CallOk(s, s.calls[c]);
    var next, p, l := Proceed(run, c);
    var t := Last(next);
    assert t.db.requests.Keys == s.db.requests.Keys && Still(s, t);
    if s.calls[c].renew.UpdateLease? {
      assert Revives(run, next, q);
    } else {
      assert t.db == s.db && CanRevive(t, q, t.calls[c]);
      hide IsRun, Inv, Next;
      Revive(next, c, q);
      var longer :| Revives(next, longer, q);
      QuietlyTwice(run, next, longer);
      assert Revives(run, longer, q);
    }
  }

  function Left(point: RenewPoint): nat {
    match point case RenewPurge => 3 case SelectLease => 2 case StampLease(_) => 1 case UpdateLease(_) => 0
  }

  /**
    Exactly when a stored request can be active, now or later, whatever happens: it is active, or it is short of its
    hard limit and a renew past its purge is under way for it whose lease, once stamped, has not run out yet.
   */
  lemma RevivalExact(run: seq<Sys>, q: Uuid)
    requires IsRun(run) && q in Last(run).db.requests
    ensures (exists longer :: Continues(run, longer) && ActiveIn(Last(longer), q)) <==> Hopeful(Last(run), q)
  {
    if longer :| Continues(run, longer) && ActiveIn(Last(longer), q) {
      assert longer[|run| - 1] == Last(run);
      HopefulBefore(longer, |run| - 1, |longer| - 1, q);
    }
    if Hopeful(Last(run), q) {
      if ActiveIn(Last(run), q) {
        assert Continues(run, run);
      } else {
        var c :| c in Last(run).calls && CanRevive(Last(run), q, Last(run).calls[c]);
        Revive(run, c, q);
        var longer :| Revives(run, longer, q);
      }
    }
  }
}
