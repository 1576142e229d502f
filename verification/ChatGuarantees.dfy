/** What survives every interleaving of the direct-chat statements. */
module ChatGuarantees {
  import opened Prelude
  import opened ChatStore
  import opened ChatMachine

  // ---------------------------------------------------------------- rows

  lemma RowStep(s: Sys, t: Sys, q: Uuid)
    requires Inv(s) && Step(s, t) && Spent(s, q)
    ensures Spent(t, q)
    ensures q in t.db.requests ==> q in s.db.requests && SameRequest(s.db.requests[q], t.db.requests[q])
  {
    var e :| Enabled(s, e) && t == Apply(s, e);
    SpentKept(s, e, q);
    if e.Exec? {
      StatementChanges(s.db, s.calls[e.c], s.clock, e.requestId, e.leaseId);
      hide Next;
    }
  }

  lemma {:induction false} SpentForever(run: seq<Sys>, i: nat, j: nat, q: Uuid)
    requires IsRun(run) && i <= j < |run| && Spent(run[i], q)
    ensures Spent(run[j], q)
    ensures q in run[j].db.requests ==>
              q in run[i].db.requests && SameRequest(run[i].db.requests[q], run[j].db.requests[q])
  {
    if i < j {
      SpentForever(run, i, j-1, q);
      RunInv(run, j-1);
      StepAt(run, j-1);
      hide IsRun, Inv, Spent, Step;
      RowStep(run[j-1], run[j], q);
    }
  }

  /**
    A stored request that a cancel, a block or a purge deletes never comes back, whatever calls were in flight:
    a renew past its SELECT only updates, and the ID is never drawn again.
   */
  lemma GoneForGood(run: seq<Sys>, i: nat, j: nat, k: nat, q: Uuid)
    requires IsRun(run) && i <= j <= k < |run|
    requires q in run[i].db.requests && q !in run[j].db.requests
    ensures q !in run[k].db.requests
  {
    RunInv(run, i);
    StoredSpent(run[i], q);
    SpentForever(run, i, j, q);
    SpentForever(run, j, k, q);
  }

  /**
    A stored request keeps its sender, recipient, key, payload and creation time for as long as it is stored,
    its hard limit stays 15 minutes after its creation, and no renewal carries the lease past that limit; so it
    is on no list from then on.
   */
  lemma HardLimitHolds(run: seq<Sys>, i: nat, j: nat, q: Uuid)
    requires IsRun(run) && i <= j < |run| && q in run[i].db.requests && q in run[j].db.requests
    ensures var r, t := run[i].db.requests[q], run[j].db.requests[q];
            SameRequest(r, t) && t.hardExpiresAt == r.createdAt + HARD_LIFE && t.leaseExpiresAt <= t.hardExpiresAt
    ensures run[j].clock >= run[i].db.requests[q].createdAt + HARD_LIFE ==>
            forall a, entry | entry in ListedFor(run[j].db, a, run[j].clock) :: entry.requestId != q
  {
    RunInv(run, i);
    RunInv(run, j);
    StoredSpent(run[i], q);
    SpentForever(run, i, j, q);
    assert RowOk(run[j].db.accounts, run[j].db.requests[q], run[j].clock);
  }

  // ---------------------------------------------------------------- inserts

  /**
    The only constraint an interleaved INSERT can hit is the unique index on (sender, client request ID): the IDs
    are fresh, and the sender and recipient of the earlier SELECTs are still there.
   */
  lemma InsertRefusedExactly(s: Sys, c: nat)
    requires Inv(s) && c in s.calls && s.calls[c].SendCall? && s.calls[c].send.Insert?
    ensures var call := s.calls[c];
            InsertRefused(s.db, call.send.ticket.requestId, NewRequest(call, call.send.ticket, call.send.recipient))
              <==>
            exists q :: q in s.db.requests && Repeats(s.db.requests[q], call.caller, call.clientRequestId)
  {
    assert CallOk(s, s.calls[c]);
  }

  /** In every run the two unique indexes hold. */
  lemma IndexesHold(run: seq<Sys>, n: nat, p: Uuid, q: Uuid)
    requires IsRun(run) && n < |run|
    requires p in run[n].db.requests && q in run[n].db.requests && p != q
    ensures run[n].db.requests[p].leaseId != run[n].db.requests[q].leaseId
    ensures run[n].db.requests[p].sender != run[n].db.requests[q].sender ||
            run[n].db.requests[p].clientRequestId != run[n].db.requests[q].clientRequestId
  {
    RunInv(run, n);
  }

  // ---------------------------------------------------------------- blocks

  /** The request from `a` to `b`, stamped at `born`, is stored, or its send has passed its block check. */
  ghost predicate Reaches(s: Sys, a: AccountId, b: AccountId, q: Uuid, born: Time) {
    || (q in s.db.requests && s.db.requests[q].sender == a && s.db.requests[q].recipient == b &&
        s.db.requests[q].createdAt == born)
    || (exists c :: c in s.calls && Carries(s.calls[c], a, b, q, born))
  }

  ghost predicate Carries(call: Call, a: AccountId, b: AccountId, q: Uuid, born: Time) {
    call.SendCall? && call.caller == a && call.send.Insert? && call.send.recipient == b &&
    call.send.ticket.requestId == q && call.send.ticket.now == born
  }

  ghost predicate InForce(s: Sys, blocker: AccountId, blocked: AccountId) {
    (blocker, blocked) in s.db.blocks
  }

  /** No statement takes a send past its block check against a block in force. */
  lemma NotThrough(s: Sys, call: Call, id: Uuid, l: Uuid, a: AccountId, b: AccountId, q: Uuid, born: Time)
    requires InForce(s, b, a)
    ensures !Carries(Next(s.db, call, s.clock, id, l).1, a, b, q, born)
  {
  }

  lemma BlockedExec(s: Sys, c: nat, id: Uuid, l: Uuid, a: AccountId, b: AccountId, q: Uuid, born: Time)
    requires Inv(s) && Enabled(s, Exec(c, id, l)) && InForce(s, b, a)
    requires Reaches(Apply(s, Exec(c, id, l)), a, b, q, born)
    ensures Reaches(s, a, b, q, born)
  {
    var call, t := s.calls[c], Apply(s, Exec(c, id, l));
    NotThrough(s, call, id, l, a, b, q, born);
    StatementChanges(s.db, call, s.clock, id, l);
    hide Next, Inv, InsertRefused;
    if d :| d in t.calls && Carries(t.calls[d], a, b, q, born) {
      assert Carries(s.calls[d], a, b, q, born);
    } else if call.SendCall? && call.send.Insert? && call.send.ticket.requestId == q {
      assert q !in s.db.requests ==> Carries(call, a, b, q, born);
    }
  }

  lemma BlockedStep(s: Sys, t: Sys, a: AccountId, b: AccountId, q: Uuid, born: Time)
    requires Inv(s) && Step(s, t) && InForce(s, b, a) && Reaches(t, a, b, q, born)
    ensures Reaches(s, a, b, q, born)
  {
    var e :| Enabled(s, e) && t == Apply(s, e);
    if e.Exec? {
      BlockedExec(s, e.c, e.requestId, e.leaseId, a, b, q, born);
    }
  }

  /**
    While a block is in force nothing new passes its check: a request from the blocked account that is stored, or
    about to be, was already so when the block was inserted.
   */
  lemma {:induction false} NothingNewPasses(run: seq<Sys>, i: nat, j: nat, a: AccountId, b: AccountId, q: Uuid,
                                            born: Time)
    requires IsRun(run) && i <= j < |run| && forall k | i <= k < j :: InForce(run[k], b, a)
    requires Reaches(run[j], a, b, q, born)
    ensures Reaches(run[i], a, b, q, born)
  {
    if i < j {
      RunInv(run, j-1);
      StepAt(run, j-1);
      assert InForce(run[j-1], b, a);
      hide Inv, Step, Reaches, Fresh;
      BlockedStep(run[j-1], run[j], a, b, q, born);
      NothingNewPasses(run, i, j-1, a, b, q, born);
    }
  }

  lemma BornByNow(s: Sys, a: AccountId, b: AccountId, q: Uuid, born: Time)
    requires Inv(s) && Reaches(s, a, b, q, born)
    ensures born <= s.clock
  {
    if q in s.db.requests && s.db.requests[q].createdAt == born {
      assert RowOk(s.db.accounts, s.db.requests[q], s.clock);
    } else {
      var c :| c in s.calls && Carries(s.calls[c], a, b, q, born);
      assert CallOk(s, s.calls[c]);
    }
  }

  /** Inserting a block row moves no send and touches no request. */
  lemma BlockInsertSparesSends(s: Sys, t: Sys, a: AccountId, b: AccountId, q: Uuid, born: Time)
    requires Inv(s) && Step(s, t) && !InForce(s, b, a) && InForce(t, b, a) && Reaches(t, a, b, q, born)
    ensures Reaches(s, a, b, q, born) && t.clock == s.clock
  {
    var e :| Enabled(s, e) && t == Apply(s, e);
    assert e.Exec?;
    BlocksChange(s.db, s.calls[e.c], s.clock, e.requestId, e.leaseId, (b, a));
    hide Next;
  }

  /** A new block row is the work of an INSERT by the blocker's call, which stays a block call. */
  lemma BlocksChange(db: Db, call: Call, now: Time, q: Uuid, l: Uuid, pair: (AccountId, AccountId))
    ensures var (after, next) := Next(db, call, now, q, l);
            pair !in db.blocks && pair in after.blocks ==> after.requests == db.requests && next.BlockCall?
  {
  }

  /**
    What a block guarantees against sends in flight. Let the step from run[i] insert the block, and let it stay in
    force up to run[j]. Every request from the blocked account stored in run[j] was stored, or its send
    was past its block check, in run[i] already; and once 15 minutes have gone by none of them is active.
   */
  lemma BlockDrains(run: seq<Sys>, i: nat, j: nat, a: AccountId, b: AccountId, q: Uuid)
    requires IsRun(run) && i < j < |run| && !InForce(run[i], b, a) && InForce(run[i+1], b, a)
    requires forall k | i < k < j :: InForce(run[k], b, a)
    requires q in run[j].db.requests && run[j].db.requests[q].sender == a && run[j].db.requests[q].recipient == b
    ensures Reaches(run[i], a, b, q, run[j].db.requests[q].createdAt)
    ensures run[j].clock >= run[i].clock + HARD_LIFE ==> !Active(run[j].db.requests[q], run[j].clock)
  {
    var r := run[j].db.requests[q];
    NothingNewPasses(run, i+1, j, a, b, q, r.createdAt);
    RunInv(run, i);
    StepAt(run, i);
    BlockInsertSparesSends(run[i], run[i+1], a, b, q, r.createdAt);
    RunInv(run, j);
    BornByNow(run[i], a, b, q, r.createdAt);
    assert RowOk(run[j].db.accounts, r, run[j].clock);
  }

  /**
    Only the blocker's unblock removes a block, only the blocker's block call adds one, and a block in force keeps
    its creation time.
   */
  lemma BlocksOwned(s: Sys, e: Event, a: AccountId, b: AccountId)
    requires Enabled(s, e)
    ensures InForce(s, a, b) && !(e.Exec? && s.calls[e.c] == UnblockCall(a, b)) ==>
              InForce(Apply(s, e), a, b) && Apply(s, e).db.blocks[(a, b)] == s.db.blocks[(a, b)]
    ensures !InForce(s, a, b) && InForce(Apply(s, e), a, b) ==>
              e.Exec? && s.calls[e.c].BlockCall? && s.calls[e.c].caller == a && s.calls[e.c].block.InsertBlock? &&
              s.calls[e.c].block.target == b
  {
  }
}
