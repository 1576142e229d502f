/** Exactly what a block keeps out when sends of the blocked account are in flight. */
module ChatBlocks {
  import opened Prelude
  import opened ChatStore
  import opened ChatMachine
  import opened ChatGuarantees
  import opened ChatPaths
  import opened ChatRevival

  predicate Between(r: Request, a: AccountId, b: AccountId) {
    r.sender == a && r.recipient == b
  }

  ghost predicate StoresPair(s: Sys, a: AccountId, b: AccountId) {
    exists q :: q in s.db.requests && Between(s.db.requests[q], a, b)
  }

  ghost predicate ShowsPair(s: Sys, a: AccountId, b: AccountId) {
    exists q :: q in s.db.requests && Between(s.db.requests[q], a, b) && Active(s.db.requests[q], s.clock)
  }

  // ---------------------------------------------------------------- the block's DELETE

  /** The step is the DELETE of a block call by `b` against `a`. */
  ghost predicate Deletes(s: Sys, t: Sys, a: AccountId, b: AccountId) {
    exists c, q, l :: Enabled(s, Exec(c, q, l)) && t == Apply(s, Exec(c, q, l)) && AtDelete(s.calls[c], a, b)
  }

  predicate AtDelete(call: Call, a: AccountId, b: AccountId) {
    call.BlockCall? && call.caller == b && call.block.DeletePair? && call.block.target == a
  }

  /** A send of the blocked account to the blocker that has passed its block check. */
  predicate Through(call: Call, a: AccountId, b: AccountId) {
    call.SendCall? && call.caller == a && call.send.Insert? && call.send.recipient == b
  }

  ghost predicate SendThrough(s: Sys, a: AccountId, b: AccountId) {
    exists c :: c in s.calls && Through(s.calls[c], a, b)
  }

  /** A call in flight that will store the request of the pair stamped at `born`. */
  ghost predicate InFlight(s: Sys, a: AccountId, b: AccountId, q: Uuid, born: Time) {
    exists c :: c in s.calls && Carries(s.calls[c], a, b, q, born)
  }

  /**
    The block's DELETE leaves no request of the pair, so while the block stays in force the only requests of the pair
    that are ever stored are those whose sends were past their block check at the DELETE.
   */
  lemma BlockClears(run: seq<Sys>, i: nat, j: nat, a: AccountId, b: AccountId, q: Uuid)
    requires IsRun(run) && i < j < |run| && Deletes(run[i], run[i+1], a, b)
    requires forall k | i < k < j :: InForce(run[k], b, a)
    ensures !StoresPair(run[i+1], a, b)
    ensures q in run[j].db.requests && Between(run[j].db.requests[q], a, b) ==>
              InFlight(run[i], a, b, q, run[j].db.requests[q].createdAt)
  {
    if q in run[j].db.requests && Between(run[j].db.requests[q], a, b) {
      var born := run[j].db.requests[q].createdAt;
      NothingNewPasses(run, i + 1, j, a, b, q, born);
      assert InFlight(run[i+1], a, b, q, born);
      var d :| d in run[i+1].calls && Carries(run[i+1].calls[d], a, b, q, born);
      assert Carries(run[i].calls[d], a, b, q, born);
    }
  }

  // ---------------------------------------------------------------- what can still come through

  ghost predicate StaysInForce(run: seq<Sys>, longer: seq<Sys>, a: AccountId, b: AccountId) {
    Continues(run, longer) && forall k | |run| - 1 <= k < |longer| :: InForce(longer[k], b, a)
  }

  lemma QuietStaysInForce(run: seq<Sys>, longer: seq<Sys>, a: AccountId, b: AccountId)
    requires Quietly(run, longer) && InForce(Last(run), b, a)
    ensures StaysInForce(run, longer, a, b)
  {
    forall k | |run| - 1 <= k < |longer|
      ensures InForce(longer[k], b, a)
    {
      assert Still(Last(run), longer[k]);
    }
  }

  /** A request of the pair was stored, or its send past its block check, all along. */
  lemma ComesThrough(run: seq<Sys>, longer: seq<Sys>, a: AccountId, b: AccountId, q: Uuid)
    requires IsRun(run) && StaysInForce(run, longer, a, b)
    requires q in Last(longer).db.requests && Between(Last(longer).db.requests[q], a, b)
    ensures (q in Last(run).db.requests && Between(Last(run).db.requests[q], a, b)) ||
            InFlight(Last(run), a, b, q, Last(longer).db.requests[q].createdAt)
    ensures Last(longer).db.requests[q].hardExpiresAt == Last(longer).db.requests[q].createdAt + HARD_LIFE
    ensures Last(run).clock <= Last(longer).clock
  {
    assert longer[|run| - 1] == Last(run);
    var r := Last(longer).db.requests[q];
    NothingNewPasses(longer, |run| - 1, |longer| - 1, a, b, q, r.createdAt);
    ClockGrows(longer, |run| - 1, |longer| - 1);
    RunInv(longer, |longer| - 1);
    assert RowOk(Last(longer).db.accounts, r, Last(longer).clock);
  }

  /** From `run` to `longer` the sender cancels the request, and quietly so. */
  ghost predicate Cancels(run: seq<Sys>, longer: seq<Sys>, q: Uuid) {
    Quietly(run, longer) && q in Last(run).db.requests &&
    Last(longer).db.requests == Without(Last(run).db.requests, q, Last(run).db.requests[q].leaseId) &&
    forall c | c in Last(run).calls :: c in Last(longer).calls && Last(longer).calls[c] == Last(run).calls[c]
  }

  ghost predicate MayCancel(run: seq<Sys>, q: Uuid) {
    exists longer :: Cancels(run, longer, q)
  }

  lemma {:induction false} CancelOwn(run: seq<Sys>, q: Uuid)
    requires IsRun(run) && q in Last(run).db.requests
    ensures MayCancel(run, q)
  {
    var s := Last(run);
    var started, d := Begin(run, CancelCall(s.db.requests[q].sender, q, s.db.requests[q].leaseId, SelectOwner));
    hide IsRun, SendNext, RenewNext, BlockNext, ListNext;
    var selected, p, l := Proceed(started, d);
    QuietlyTwice(run, started, selected);
    var longer;
    longer, p, l := Proceed(selected, d);
    QuietlyTwice(run, selected, longer);
    assert Cancels(run, longer, q);
  }

  predicate AtInsert(s: Sys, c: nat) {
    c in s.calls && s.calls[c].SendCall? && s.calls[c].send.Insert?
  }

  /** From `run` to `longer` any other request under the send's client ID goes, and quietly so. */
  ghost predicate Clears(run: seq<Sys>, longer: seq<Sys>, c: nat) {
    Quietly(run, longer) && AtInsert(Last(run), c) &&
    c in Last(longer).calls && Last(longer).calls[c] == Last(run).calls[c] &&
    forall q | q in Last(longer).db.requests ::
      q in Last(run).db.requests && Last(longer).db.requests[q] == Last(run).db.requests[q] &&
      !Repeats(Last(longer).db.requests[q], Last(run).calls[c].caller, Last(run).calls[c].clientRequestId)
  }

  ghost predicate MayClear(run: seq<Sys>, c: nat) {
    exists longer :: Clears(run, longer, c)
  }

  /** The sender cancels its other request under the send's client ID, if any, so that the INSERT goes through. */
  lemma {:induction false} ClearWay(run: seq<Sys>, c: nat)
    requires IsRun(run) && AtInsert(Last(run), c)
    ensures MayClear(run, c)
  {
    var s := Last(run);
    var call := s.calls[c];
    RunInv(run, |run| - 1);
    assert ClientsUnique(s.db.requests);
    hide Inv;
    if q :| q in s.db.requests && Repeats(s.db.requests[q], call.caller, call.clientRequestId) {
      hide IsRun, Quietly;
      CancelOwn(run, q);
      var longer :| Cancels(run, longer, q);
      assert Clears(run, longer, c);
    } else {
      assert Clears(run, run, c);
    }
  }

  /** The step from `run` to `longer` stores the send's request, and quietly so. */
  ghost predicate Stores(run: seq<Sys>, longer: seq<Sys>, c: nat) {
    Quietly(run, longer) && AtInsert(Last(run), c) &&
    var s, t, call := Last(run), Last(longer), Last(run).calls[c];
    var q := call.send.ticket.requestId;
    q !in s.db.requests &&
    t.db.requests == s.db.requests[q := NewRequest(call, call.send.ticket, call.send.recipient)] &&
    forall d | d in s.calls && d != c :: d in t.calls && t.calls[d] == s.calls[d]
  }

  ghost predicate MayStore(run: seq<Sys>, c: nat) {
    exists longer :: Stores(run, longer, c)
  }

  /** The send's INSERT goes through. */
  lemma {:induction false} StoreNow(run: seq<Sys>, c: nat)
    requires IsRun(run) && AtInsert(Last(run), c)
    requires forall q | q in Last(run).db.requests ::
               !Repeats(Last(run).db.requests[q], Last(run).calls[c].caller, Last(run).calls[c].clientRequestId)
    ensures MayStore(run, c)
  {
    RunInv(run, |run| - 1);
    InsertRefusedExactly(Last(run), c);
    assert CallOk(Last(run), Last(run).calls[c]);
    hide InsertRefused, Inv;
    var longer, p, l := Proceed(run, c);
    assert Stores(run, longer, c);
  }

  /**
    Exactly when requests of the pair are stored in a state with the block in force, or in one that may follow before
    the unblock: when one is stored already, or a send of the blocked account to the blocker is past its block check.
    Right after the DELETE only the latter is left.
   */
  lemma StoredThroughBlock(run: seq<Sys>, a: AccountId, b: AccountId)
    requires IsRun(run) && InForce(Last(run), b, a)
    ensures (exists longer :: StaysInForce(run, longer, a, b) && StoresPair(Last(longer), a, b)) <==>
            StoresPair(Last(run), a, b) || SendThrough(Last(run), a, b)
  {
    if longer :| StaysInForce(run, longer, a, b) && StoresPair(Last(longer), a, b) {
      var q :| q in Last(longer).db.requests && Between(Last(longer).db.requests[q], a, b);
      ComesThrough(run, longer, a, b, q);
      if !StoresPair(Last(run), a, b) {
        var c :| c in Last(run).calls && Carries(Last(run).calls[c], a, b, q, Last(longer).db.requests[q].createdAt);
        assert Through(Last(run).calls[c], a, b);
      }
    }
    if StoresPair(Last(run), a, b) {
      assert StaysInForce(run, run, a, b);
    } else if SendThrough(Last(run), a, b) {
      var c :| c in Last(run).calls && Through(Last(run).calls[c], a, b);
      ClearWay(run, c);
      var clear :| Clears(run, clear, c);
      StoreNow(clear, c);
      var longer :| Stores(clear, longer, c);
      QuietlyTwice(run, clear, longer);
      QuietStaysInForce(run, longer, a, b);
      var q := Last(run).calls[c].send.ticket.requestId;
      assert Between(Last(longer).db.requests[q], a, b);
    }
  }

  ghost predicate HopefulPair(s: Sys, a: AccountId, b: AccountId) {
    exists q :: q in s.db.requests && Between(s.db.requests[q], a, b) && Hopeful(s, q)
  }

  /** A send past its block check whose request is short of its hard limit. */
  ghost predicate FreshSendThrough(s: Sys, a: AccountId, b: AccountId) {
    exists c :: c in s.calls && Through(s.calls[c], a, b) && s.calls[c].send.ticket.now + HARD_LIFE > s.clock
  }

  /** From `run` to `longer` a request of the pair becomes active, and quietly so. */
  ghost predicate Shows(run: seq<Sys>, longer: seq<Sys>, a: AccountId, b: AccountId) {
    Quietly(run, longer) && ShowsPair(Last(longer), a, b)
  }

  ghost predicate MayShow(run: seq<Sys>, a: AccountId, b: AccountId) {
    exists longer :: Shows(run, longer, a, b)
  }

  /** A request that is revived stays what it is. */
  lemma {:induction false} RevivedShows(run: seq<Sys>, c: nat, q: Uuid)
    requires IsRun(run) && q in Last(run).db.requests && Last(run).db.requests[q].hardExpiresAt > Last(run).clock
    requires c in Last(run).calls && CanRevive(Last(run), q, Last(run).calls[c])
    ensures MayShow(run, Last(run).db.requests[q].sender, Last(run).db.requests[q].recipient)
  {
    Revive(run, c, q);
    var longer :| Revives(run, longer, q);
    RunInv(run, |run| - 1);
    StoredSpent(Last(run), q);
    assert longer[|run| - 1] == Last(run);
    SpentForever(longer, |run| - 1, |longer| - 1, q);
    assert Shows(run, longer, Last(run).db.requests[q].sender, Last(run).db.requests[q].recipient);
  }

  /** Such a send's request is stored and active in the end: if its first lease has run out, a renew revives it. */
  lemma {:induction false} ThroughAndActive(run: seq<Sys>, c: nat)
    requires IsRun(run) && AtInsert(Last(run), c) && Last(run).calls[c].send.ticket.now + HARD_LIFE > Last(run).clock
    ensures MayShow(run, Last(run).calls[c].caller, Last(run).calls[c].send.recipient)
  {
    var call := Last(run).calls[c];
    var ticket := call.send.ticket;
    ClearWay(run, c);
    var clear :| Clears(run, clear, c);
    var begun, d := Begin(clear, RenewCall(call.caller, ticket.requestId, ticket.leaseId, RenewPurge));
    QuietlyTwice(run, clear, begun);
    var purged, p, l := Proceed(begun, d);
    QuietlyTwice(run, begun, purged);
    StoreNow(purged, c);
    var stored :| Stores(purged, stored, c);
    QuietlyTwice(run, purged, stored);
    assert CanRevive(Last(stored), ticket.requestId, Last(stored).calls[d]);
    RevivedShows(stored, d, ticket.requestId);
    var longer :| Shows(stored, longer, call.caller, call.send.recipient);
    QuietlyTwice(run, stored, longer);
    assert Shows(run, longer, call.caller, call.send.recipient);
  }

  /** A stored request of the pair that is active, or revived by a renew. */
  lemma {:induction false} HopefulAndActive(run: seq<Sys>, a: AccountId, b: AccountId)
    requires IsRun(run) && HopefulPair(Last(run), a, b)
    ensures MayShow(run, a, b)
  {
    var q :| q in Last(run).db.requests && Between(Last(run).db.requests[q], a, b) && Hopeful(Last(run), q);
    if ActiveIn(Last(run), q) {
      assert Shows(run, run, a, b);
    } else {
      var c :| c in Last(run).calls && CanRevive(Last(run), q, Last(run).calls[c]);
      RevivedShows(run, c, q);
    }
  }

  /**
    Exactly when a request of the pair is active, or can be before the unblock: when a stored one is or can be revived,
    or a send past its block check was stamped less than 15 minutes ago.
   */
  lemma ActiveThroughBlock(run: seq<Sys>, a: AccountId, b: AccountId)
    requires IsRun(run) && InForce(Last(run), b, a)
    ensures (exists longer :: StaysInForce(run, longer, a, b) && ShowsPair(Last(longer), a, b)) <==>
            HopefulPair(Last(run), a, b) || FreshSendThrough(Last(run), a, b)
  {
    if longer :| StaysInForce(run, longer, a, b) && ShowsPair(Last(longer), a, b) {
      var q :| q in Last(longer).db.requests && Between(Last(longer).db.requests[q], a, b) &&
               Active(Last(longer).db.requests[q], Last(longer).clock);
      ComesThrough(run, longer, a, b, q);
      if q in Last(run).db.requests && Between(Last(run).db.requests[q], a, b) {
        assert longer[|run| - 1] == Last(run);
        HopefulBefore(longer, |run| - 1, |longer| - 1, q);
      } else {
        var c :| c in Last(run).calls && Carries(Last(run).calls[c], a, b, q, Last(longer).db.requests[q].createdAt);
        assert Through(Last(run).calls[c], a, b);
      }
    }
    if HopefulPair(Last(run), a, b) {
      HopefulAndActive(run, a, b);
      var longer :| Shows(run, longer, a, b);
      QuietStaysInForce(run, longer, a, b);
    } else if FreshSendThrough(Last(run), a, b) {
      var c :| c in Last(run).calls && Through(Last(run).calls[c], a, b) &&
               Last(run).calls[c].send.ticket.now + HARD_LIFE > Last(run).clock;
      ThroughAndActive(run, c);
      var longer :| Shows(run, longer, a, b);
      QuietStaysInForce(run, longer, a, b);
    }
  }
}
