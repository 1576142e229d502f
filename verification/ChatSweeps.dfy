/**
  When the background purge can be noticed between the statements of other calls. A run is here a list of events from
  any state, in which an event that is not enabled does nothing but use up its fresh IDs, so that the same list can be
  followed from a state and from what a purge makes of it.
 */
module ChatSweeps {
  import opened Prelude
  import opened ChatStore
  import opened ChatMachine
  import opened ChatRevival

  ghost function Do(s: Sys, e: Event): Sys {
    if Enabled(s, e) then Apply(s, e)
    else if e.Exec? then s.(used := s.used + {e.requestId, e.leaseId})
    else s
  }

  ghost function After(s: Sys, es: seq<Event>): Sys
    decreases |es|
  {
    if es == [] then s else After(Do(s, es[0]), es[1..])
  }

  /** The SELECT of a cancel finds the expired request of someone else. */
  ghost predicate ForeignSelect(s: Sys, e: Event) {
    e.Exec? && e.c in s.calls && s.calls[e.c].CancelCall? && s.calls[e.c].cancel.SelectOwner? &&
    var call := s.calls[e.c];
    Leased(s.db.requests, call.requestId, call.leaseId) && !ActiveIn(s, call.requestId) &&
    s.db.requests[call.requestId].sender != call.caller
  }

  ghost predicate NoForeignSelect(s: Sys, es: seq<Event>)
    decreases |es|
  {
    es != [] ==> !ForeignSelect(s, es[0]) && NoForeignSelect(Do(s, es[0]), es[1..])
  }

  // ---------------------------------------------------------------- which calls notice a deletion

  /** A send at this point may still find a request under its client ID, with its SELECT or with its INSERT. */
  ghost predicate MayMeet(accounts: map<AccountId, Account>, caller: AccountId, name: string, point: SendPoint) {
    match point
    case SendPurge => false
    case LookupSender => true
    case LookupRepeat(_) => true
    case CountActive(_) => FindName(accounts, name) != Some(caller)
    case Stamp(_) => FindName(accounts, name) != Some(caller)
    case LookupRecipient(_) => FindName(accounts, name) != Some(caller)
    case CheckBlock(_, b) => b != caller
    case Insert(_, _) => true
  }

  /** The call will treat the stored request differently from one that has been deleted. */
  ghost predicate Sees(s: Sys, q: Uuid, call: Call)
    requires q in s.db.requests
  {
    match call
    case SendCall(caller, name, client, _, point) =>
      Repeats(s.db.requests[q], caller, client) && MayMeet(s.db.accounts, caller, name, point)
    case RenewCall(_, _, _, point) =>
      CanRevive(s, q, call) && (point.SelectLease? || s.db.requests[q].hardExpiresAt > s.clock)
    case _ => false
  }

  /** An expired request that no call in flight would miss. */
  ghost predicate Unseen(s: Sys, q: Uuid)
    requires q in s.db.requests
  {
    !Active(s.db.requests[q], s.clock) && forall c | c in s.calls :: !Sees(s, q, s.calls[c])
  }

  /** The calls are at the same point, or an owner's cancel has found its request gone and is done early. */
  ghost predicate Matches(s: Sys, t: Sys, c: nat)
    requires c in s.calls && c in t.calls
  {
    || t.calls[c] == s.calls[c]
    || (s.calls[c].CancelCall? && s.calls[c].cancel.DeleteRequest? && t.calls[c] == Done(Cancelled) &&
        Spent(s, s.calls[c].requestId) && s.calls[c].requestId !in t.db.requests)
  }

  /** The state `t` is `s` without some requests that nobody would miss. */
  ghost predicate Hides(s: Sys, t: Sys) {
    t.clock == s.clock && t.used == s.used && t.db.accounts == s.db.accounts && t.db.blocks == s.db.blocks &&
    Shrinks(s.db.requests, t.db.requests) &&
    (forall q | q in s.db.requests && q !in t.db.requests :: Unseen(s, q)) &&
    t.calls.Keys == s.calls.Keys && forall c | c in s.calls :: Matches(s, t, c)
  }

  ghost predicate Good(s: Sys) {
    Inv(s) && NamesUnique(s.db.accounts)
  }

  lemma GoodKept(s: Sys, e: Event)
    requires Good(s)
    ensures Good(Do(s, e))
  {
    if Enabled(s, e) {
      InvKept(s, e);
      if e.Exec? {
        StatementChanges(s.db, s.calls[e.c], s.clock, e.requestId, e.leaseId);
      }
      hide Inv, Next;
    } else if e.Exec? {
      MoreUsed(s, {e.requestId, e.leaseId});
    }
  }

  lemma MoreUsed(s: Sys, ids: set<Uuid>)
    requires Inv(s)
    ensures Inv(s.(used := s.used + ids))
  {
    var t := s.(used := s.used + ids);
    forall c | c in s.calls
      ensures CallOk(t, t.calls[c])
    {
      assert CallOk(s, s.calls[c]);
      if s.calls[c].RenewCall? && Spent(s, s.calls[c].requestId) {
        assert Spent(t, s.calls[c].requestId);
      }
      hide Spent;
    }
  }

  // ---------------------------------------------------------------- a purge that nobody notices

  lemma HiddenInactive(s: Sys, t: Sys)
    requires Hides(s, t)
    ensures forall p | p in s.db.requests && p !in t.db.requests :: !Active(s.db.requests[p], s.clock)
  {
  }

  /** Purging makes both stores the same. */
  lemma PurgedAlike(s: Sys, t: Sys)
    requires Hides(s, t)
    ensures Purged(t.db.requests, s.clock) == Purged(s.db.requests, s.clock)
  {
    forall q | q in s.db.requests && Active(s.db.requests[q], s.clock)
      ensures q in t.db.requests
    {
    }
  }

  /** The statement leaves the stores alike: it touches no hidden request, or gives one a lease that is over. */
  ghost predicate LeavesAlike(s: Sys, t: Sys, after: Db, after': Db) {
    after'.accounts == after.accounts && after'.blocks == after.blocks && Shrinks(after.requests, after'.requests) &&
    forall p | p in after.requests && p !in after'.requests ::
      p in s.db.requests && p !in t.db.requests && !Active(after.requests[p], s.clock) &&
      SameRequest(s.db.requests[p], after.requests[p])
  }

  lemma RepeatsMet(s: Sys, t: Sys, c: nat)
    requires Hides(s, t) && c in s.calls && s.calls[c].SendCall?
    requires s.calls[c].send.LookupRepeat? || s.calls[c].send.Insert?
    ensures forall p | p in s.db.requests && Repeats(s.db.requests[p], s.calls[c].caller, s.calls[c].clientRequestId) ::
              p in t.db.requests
  {
    forall p | p in s.db.requests && Repeats(s.db.requests[p], s.calls[c].caller, s.calls[c].clientRequestId)
      ensures p in t.db.requests
    {
      assert Sees(s, p, s.calls[c]);
    }
  }

  lemma RefusedAlike(s: Sys, t: Sys, c: nat)
    requires Good(s) && Hides(s, t) && c in s.calls && s.calls[c].SendCall? && s.calls[c].send.Insert?
    ensures var call := s.calls[c];
            var id, row := call.send.ticket.requestId, NewRequest(call, call.send.ticket, call.send.recipient);
            (InsertRefused(s.db, id, row) <==> InsertRefused(t.db, id, row)) &&
            LeavesAlike(s, t, s.db.(requests := s.db.requests[id := row]), t.db.(requests := t.db.requests[id := row]))
  {
    assert CallOk(s, s.calls[c]);
    HiddenInactive(s, t);
    RepeatsMet(s, t, c);
    hide Unseen, Matches, NamesUnique;
  }

  /** A purge, and a statement that only reads. */
  lemma PurgeAlike(s: Sys, t: Sys)
    requires Hides(s, t)
    ensures LeavesAlike(s, t, s.db, t.db)
    ensures LeavesAlike(s, t, s.db.(requests := Purged(s.db.requests, s.clock)),
                        t.db.(requests := Purged(t.db.requests, s.clock)))
  {
    PurgedAlike(s, t);
  }

  lemma CountAlike(s: Sys, t: Sys, a: AccountId)
    requires Hides(s, t)
    ensures ActiveOf(s.db.requests, a, s.clock) == ActiveOf(t.db.requests, a, s.clock)
  {
    HiddenInactive(s, t);
    hide Unseen, Matches;
  }

  lemma FindAlike(s: Sys, t: Sys, c: nat)
    requires Good(s) && Hides(s, t) && c in s.calls && s.calls[c].SendCall? && s.calls[c].send.LookupRepeat?
    ensures var sender, client := s.calls[c].caller, s.calls[c].clientRequestId;
            FindRepeat(s.db.requests, sender, client) == FindRepeat(t.db.requests, sender, client) &&
            (FindRepeat(s.db.requests, sender, client).Some? ==>
               var p := FindRepeat(s.db.requests, sender, client).value; t.db.requests[p] == s.db.requests[p])
  {
    RepeatsMet(s, t, c);
    hide Unseen, Matches, NamesUnique, CallsOk, TicketsApart;
  }

  /** A send that is at the same point in both states takes the same statement in both. */
  lemma SendAlike(s: Sys, t: Sys, c: nat, q: Uuid, l: Uuid)
    requires Good(s) && Hides(s, t) && c in s.calls && s.calls[c].SendCall?
    ensures var (after, next), (after', next') :=
              SendNext(s.db, s.calls[c], s.clock, q, l), SendNext(t.db, s.calls[c], s.clock, q, l);
            next' == next && LeavesAlike(s, t, after, after')
  {
    var call := s.calls[c];
    PurgeAlike(s, t);
    CountAlike(s, t, call.caller);
    if call.send.LookupRepeat? {
      FindAlike(s, t, c);
    } else if call.send.Insert? {
      RefusedAlike(s, t, c);
    }
    assert t.db.accounts == s.db.accounts && t.db.blocks == s.db.blocks;
    hide *;
    SendAlikeIf(s, t, call, q, l);
  }

  /** What a send reads and writes is alike in both states. */
  lemma SendAlikeIf(s: Sys, t: Sys, call: Call, q: Uuid, l: Uuid)
    requires call.SendCall? && t.db.accounts == s.db.accounts && t.db.blocks == s.db.blocks
    requires LeavesAlike(s, t, s.db, t.db)
    requires LeavesAlike(s, t, s.db.(requests := Purged(s.db.requests, s.clock)),
                         t.db.(requests := Purged(t.db.requests, s.clock)))
    requires ActiveOf(s.db.requests, call.caller, s.clock) == ActiveOf(t.db.requests, call.caller, s.clock)
    requires call.send.LookupRepeat? ==>
               var found := FindRepeat(s.db.requests, call.caller, call.clientRequestId);
               FindRepeat(t.db.requests, call.caller, call.clientRequestId) == found &&
               (found.Some? ==> t.db.requests[found.value] == s.db.requests[found.value])
    requires call.send.Insert? ==>
               var id, row := call.send.ticket.requestId, NewRequest(call, call.send.ticket, call.send.recipient);
               (InsertRefused(s.db, id, row) <==> InsertRefused(t.db, id, row)) &&
               LeavesAlike(s, t, s.db.(requests := s.db.requests[id := row]),
                           t.db.(requests := t.db.requests[id := row]))
    ensures var (after, next), (after', next') :=
              SendNext(s.db, call, s.clock, q, l), SendNext(t.db, call, s.clock, q, l);
            next' == next && LeavesAlike(s, t, after, after')
  {
    hide LeavesAlike, Purged, ActiveOf, FindRepeat, InsertRefused;
  }

  /** A renew's UPDATE leaves the stores alike, if a hidden request gets no lease from it that is not over. */
  lemma LeaseAlike(s: Sys, t: Sys, p: Uuid, expires: Time)
    requires LeavesAlike(s, t, s.db, t.db)
    requires p in s.db.requests && p !in t.db.requests ==> expires <= s.clock
    ensures LeavesAlike(s, t, s.db.(requests := WithLease(s.db.requests, p, expires)),
                        t.db.(requests := WithLease(t.db.requests, p, expires)))
  {
  }

  lemma UpdateAlike(s: Sys, t: Sys, c: nat)
    requires Good(s) && Hides(s, t) && c in s.calls && s.calls[c].RenewCall? && s.calls[c].renew.UpdateLease?
    ensures var call := s.calls[c];
            LeavesAlike(s, t, s.db.(requests := WithLease(s.db.requests, call.requestId, call.renew.expiresAt)),
                        t.db.(requests := WithLease(t.db.requests, call.requestId, call.renew.expiresAt)))
  {
    var call := s.calls[c];
    PurgeAlike(s, t);
    if call.requestId in s.db.requests && call.requestId !in t.db.requests {
      assert !Sees(s, call.requestId, call);
      assert CallOk(s, call);
      assert call.renew.expiresAt <= s.clock;
    }
    hide *;
    LeaseAlike(s, t, call.requestId, call.renew.expiresAt);
  }

  lemma RenewAlike(s: Sys, t: Sys, c: nat)
    requires Good(s) && Hides(s, t) && c in s.calls && s.calls[c].RenewCall?
    ensures var (after, next), (after', next') :=
              RenewNext(s.db, s.calls[c], s.clock), RenewNext(t.db, s.calls[c], s.clock);
            next' == next && LeavesAlike(s, t, after, after')
  {
    var call := s.calls[c];
    PurgeAlike(s, t);
    if call.renew.UpdateLease? {
      UpdateAlike(s, t, c);
    } else if call.requestId in s.db.requests && call.requestId !in t.db.requests {
      assert !Sees(s, call.requestId, call);
    }
    hide LeavesAlike, Unseen, Matches, Good, Purged, WithLease;
  }

  lemma CancelAlike(s: Sys, t: Sys, c: nat)
    requires Hides(s, t) && c in s.calls && s.calls[c].CancelCall?
    requires s.calls[c].cancel.SelectOwner? && s.calls[c].requestId in s.db.requests ==>
               s.calls[c].requestId in t.db.requests
    ensures var (after, next), (after', next') := CancelNext(s.db, s.calls[c]), CancelNext(t.db, s.calls[c]);
            next' == next && LeavesAlike(s, t, after, after')
  {
    HiddenInactive(s, t);
    hide Unseen, Matches;
  }

  lemma BlockAlike(s: Sys, t: Sys, c: nat)
    requires Hides(s, t) && c in s.calls && s.calls[c].BlockCall?
    ensures var (after, next), (after', next') :=
              BlockNext(s.db, s.calls[c], s.clock), BlockNext(t.db, s.calls[c], s.clock);
            next' == next && LeavesAlike(s, t, after, after')
  {
    HiddenInactive(s, t);
    hide Unseen, Matches, Active;
  }

  lemma ListAlike(s: Sys, t: Sys, c: nat)
    requires Hides(s, t) && c in s.calls && s.calls[c].ListCall?
    ensures var (after, next), (after', next') :=
              ListNext(s.db, s.calls[c], s.clock), ListNext(t.db, s.calls[c], s.clock);
            next' == next && LeavesAlike(s, t, after, after')
  {
    PurgedAlike(s, t);
    HiddenInactive(s, t);
    hide Unseen, Matches;
    assert ListedFor(s.db, s.calls[c].caller, s.clock) == ListedFor(t.db, s.calls[c].caller, s.clock);
  }

  /** A call at the same point in both states, and no owner's cancel of a hidden request, takes the same statement. */
  lemma NextAlike(s: Sys, t: Sys, c: nat, q: Uuid, l: Uuid)
    requires Good(s) && Hides(s, t) && c in s.calls
    requires s.calls[c].CancelCall? && s.calls[c].cancel.SelectOwner? && s.calls[c].requestId in s.db.requests ==>
               s.calls[c].requestId in t.db.requests
    ensures var (after, next), (after', next') :=
              Next(s.db, s.calls[c], s.clock, q, l), Next(t.db, s.calls[c], s.clock, q, l);
            next' == next && LeavesAlike(s, t, after, after')
  {
    HiddenInactive(s, t);
    match s.calls[c]
    case SendCall(_, _, _, _, _) => SendAlike(s, t, c, q, l);
    case RenewCall(_, _, _, _) => RenewAlike(s, t, c);
    case CancelCall(_, _, _, _) => CancelAlike(s, t, c);
    case BlockCall(_, _, _) => BlockAlike(s, t, c);
    case ListCall(_, _) => ListAlike(s, t, c);
    case _ =>
    hide SendNext, RenewNext, CancelNext, BlockNext, ListNext, Inv, Unseen, Matches, Active;
  }

  lemma OwnSendUnseen(s: Sys, call: Call, q: Uuid, l: Uuid, p: Uuid)
    requires call.SendCall? && p in s.db.requests && !Active(s.db.requests[p], s.clock)
    requires Repeats(s.db.requests[p], call.caller, call.clientRequestId)
    requires !MayMeet(s.db.accounts, call.caller, call.recipientName, call.send)
    ensures var (after, next) := SendNext(s.db, call, s.clock, q, l);
            next.SendCall? && p in after.requests ==>
              next == call.(send := next.send) && !MayMeet(s.db.accounts, call.caller, call.recipientName, next.send)
  {
  }

  lemma OwnRenewUnseen(s: Sys, call: Call, q: Uuid, l: Uuid, p: Uuid)
    requires call.RenewCall? && p in s.db.requests && !Active(s.db.requests[p], s.clock) && call.requestId == p
    requires call.renew.StampLease? ==> call.renew.hardExpiresAt == s.db.requests[p].hardExpiresAt
    requires !Sees(s, p, call)
    ensures var (after, next) := RenewNext(s.db, call, s.clock);
            next.RenewCall? && p in after.requests ==>
              next == call.(renew := next.renew) && !next.renew.RenewPurge? &&
              (next.renew.StampLease? ==> s.db.requests[p].hardExpiresAt <= s.clock) &&
              (next.renew.UpdateLease? ==> next.renew.expiresAt <= s.clock || s.db.requests[p].hardExpiresAt <= s.clock)
  {
  }

  lemma SeesSame(s: Sys, t: Sys, p: Uuid, call: Call)
    requires p in s.db.requests && p in t.db.requests && t.clock == s.clock && t.db.accounts == s.db.accounts
    requires SameRequest(s.db.requests[p], t.db.requests[p])
    ensures Sees(t, p, call) == Sees(s, p, call)
  {
  }

  /** A call does not come to miss a hidden request by its own statement. */
  lemma OwnUnseen(s: Sys, c: nat, q: Uuid, l: Uuid, p: Uuid)
    requires Inv(s) && Enabled(s, Exec(c, q, l)) && p in s.db.requests && Unseen(s, p)
    ensures var t := Apply(s, Exec(c, q, l)); p in t.db.requests ==> !Sees(s, p, t.calls[c])
  {
    var call := s.calls[c];
    assert CallOk(s, call) && !Sees(s, p, call);
    if call.SendCall? {
      if Repeats(s.db.requests[p], call.caller, call.clientRequestId) {
        OwnSendUnseen(s, call, q, l, p);
      }
      SendStays(s, call, q, l);
    } else if call.RenewCall? {
      if call.requestId == p {
        OwnRenewUnseen(s, call, q, l, p);
      }
      RenewStays(s, call);
    }
    hide SendNext, RenewNext, Inv, MayMeet, Spent;
  }

  lemma SendStays(s: Sys, call: Call, q: Uuid, l: Uuid)
    requires call.SendCall?
    ensures var next := SendNext(s.db, call, s.clock, q, l).1;
            next.Done? || (next.SendCall? && next == call.(send := next.send))
  {
  }

  lemma RenewStays(s: Sys, call: Call)
    requires call.RenewCall?
    ensures var next := RenewNext(s.db, call, s.clock).1;
            next.Done? || (next.RenewCall? && next == call.(renew := next.renew))
  {
  }

  lemma OtherMatches(s: Sys, t: Sys, c: nat, q: Uuid, l: Uuid, d: nat)
    requires Hides(s, t) && Enabled(s, Exec(c, q, l)) && t.calls[c] == s.calls[c] && d in s.calls && d != c
    ensures Matches(Apply(s, Exec(c, q, l)), Apply(t, Exec(c, q, l)), d)
  {
    if t.calls[d] != s.calls[d] {
      SpentKept(s, Exec(c, q, l), s.calls[d].requestId);
      StatementChanges(t.db, t.calls[c], t.clock, q, l);
    }
    hide Next;
  }

  /** A statement keeps a hidden request unseen that it leaves without a lease. */
  lemma ExecUnseen(s: Sys, c: nat, q: Uuid, l: Uuid, p: Uuid)
    requires Inv(s) && Enabled(s, Exec(c, q, l)) && p in s.db.requests && Unseen(s, p)
    requires var t := Apply(s, Exec(c, q, l));
             p in t.db.requests && SameRequest(s.db.requests[p], t.db.requests[p]) &&
             !Active(t.db.requests[p], t.clock) && t.db.accounts == s.db.accounts
    ensures Unseen(Apply(s, Exec(c, q, l)), p)
  {
    var t := Apply(s, Exec(c, q, l));
    OwnUnseen(s, c, q, l, p);
    hide Next, Inv, Sees;
    forall d | d in t.calls
      ensures !Sees(t, p, t.calls[d])
    {
      SeesSame(s, t, p, t.calls[d]);
    }
  }

  /** A statement that both states take. */
  lemma ExecHides(s: Sys, t: Sys, c: nat, q: Uuid, l: Uuid)
    requires Good(s) && Hides(s, t) && Enabled(s, Exec(c, q, l)) && t.calls[c] == s.calls[c]
    requires s.calls[c].CancelCall? && s.calls[c].cancel.SelectOwner? && s.calls[c].requestId in s.db.requests ==>
               s.calls[c].requestId in t.db.requests
    ensures Enabled(t, Exec(c, q, l)) && Hides(Apply(s, Exec(c, q, l)), Apply(t, Exec(c, q, l)))
  {
    var s', t' := Apply(s, Exec(c, q, l)), Apply(t, Exec(c, q, l));
    var (after, next) := Next(s.db, s.calls[c], s.clock, q, l);
    NextAlike(s, t, c, q, l);
    StatementChanges(s.db, s.calls[c], s.clock, q, l);
    ExecIs(s, c, q, l, after, next);
    ExecIs(t, c, q, l, Next(t.db, s.calls[c], s.clock, q, l).0, next);
    hide Next, Apply, Good, Spent, RequestsChange, Unseen;
    forall d | d in s.calls && d != c
      ensures Matches(s', t', d)
    {
      OtherMatches(s, t, c, q, l, d);
    }
    hide Sees;
    forall p | p in s'.db.requests && p !in t'.db.requests
      ensures Unseen(s', p)
    {
      GoodIsInv(s);
      ExecUnseen(s, c, q, l, p);
    }
  }

  lemma GoodIsInv(s: Sys)
    requires Good(s)
    ensures Inv(s)
  {
  }

  /** A step that changes neither clock nor accounts, and no call that misses a hidden request, keeps it unseen. */
  lemma StaysUnseen(s: Sys, s': Sys, p: Uuid)
    requires p in s.db.requests && Unseen(s, p) && p in s'.db.requests && s'.db.requests[p] == s.db.requests[p]
    requires s'.clock == s.clock && s'.db.accounts == s.db.accounts
    requires forall d | d in s'.calls ::
               s'.calls[d].CancelCall? || s'.calls[d].Done? || (d in s.calls && s'.calls[d] == s.calls[d])
    ensures Unseen(s', p)
  {
    forall d | d in s'.calls
      ensures !Sees(s', p, s'.calls[d])
    {
      SeesSame(s, s', p, s'.calls[d]);
    }
  }

  /** A step that changes no table and no call but a cancel. */
  lemma StillHides(s: Sys, t: Sys, s': Sys, t': Sys, c: nat)
    requires Hides(s, t) && c in s.calls && s'.db == s.db && t'.db == t.db && s'.used == t'.used
    requires s'.clock == s.clock && t'.clock == t.clock && s'.calls.Keys == t'.calls.Keys == s.calls.Keys
    requires forall d | d in s.calls && d != c :: s'.calls[d] == s.calls[d] && Matches(s', t', d)
    requires (s'.calls[c].CancelCall? || s'.calls[c].Done?) && Matches(s', t', c)
    ensures Hides(s', t')
  {
    hide Matches;
    forall p | p in s'.db.requests && p !in t'.db.requests
      ensures Unseen(s', p)
    {
      StaysUnseen(s, s', p);
    }
    hide Unseen;
  }

  /** The owner's cancel finds its request in `s`, and gone in `t`, where it is done. */
  lemma OwnCancelHides(s: Sys, t: Sys, c: nat, q: Uuid, l: Uuid)
    requires Good(s) && Hides(s, t) && Enabled(s, Exec(c, q, l)) && t.calls[c] == s.calls[c]
    requires s.calls[c].CancelCall? && s.calls[c].cancel.SelectOwner?
    requires s.calls[c].requestId in s.db.requests && s.calls[c].requestId !in t.db.requests
    requires !ForeignSelect(s, Exec(c, q, l))
    ensures Enabled(t, Exec(c, q, l)) && Hides(Apply(s, Exec(c, q, l)), Apply(t, Exec(c, q, l)))
  {
    var s', t', call := Apply(s, Exec(c, q, l)), Apply(t, Exec(c, q, l)), s.calls[c];
    StoredSpent(s, call.requestId);
    HiddenInactive(s, t);
    SpentKept(s, Exec(c, q, l), call.requestId);
    hide Inv, Spent, NamesUnique, Sees, Unseen;
    var next := Next(s.db, call, s.clock, q, l).1;
    assert next == Done(Cancelled) || next == call.(cancel := DeleteRequest);
    ExecIs(s, c, q, l, s.db, next);
    ExecIs(t, c, q, l, t.db, Done(Cancelled));
    hide Next, Apply, Leased, ActiveIn;
    forall d | d in s.calls && d != c
      ensures Matches(s', t', d)
    {
      OtherMatches(s, t, c, q, l, d);
    }
    StillHides(s, t, s', t', c);
  }

  /** The owner's cancel deletes its request in `s`; in `t` it is gone already. */
  lemma LateDeleteHides(s: Sys, t: Sys, c: nat, q: Uuid, l: Uuid)
    requires Good(s) && Hides(s, t) && Enabled(s, Exec(c, q, l)) && t.calls[c] != s.calls[c]
    ensures Hides(Apply(s, Exec(c, q, l)), Do(t, Exec(c, q, l)))
  {
    var s', t' := Apply(s, Exec(c, q, l)), Do(t, Exec(c, q, l));
    assert s'.db == s.db.(requests := Without(s.db.requests, s.calls[c].requestId, s.calls[c].leaseId));
    assert s'.calls[c] == Done(Cancelled) && t' == t.(used := t.used + {q, l});
    hide Next, Inv, Sees, NamesUnique;
    forall d | d in s.calls
      ensures Matches(s', t', d)
    {
      if t.calls[d] != s.calls[d] {
        SpentKept(s, Exec(c, q, l), s.calls[d].requestId);
      }
    }
    hide Spent;
    forall p | p in s'.db.requests && p !in t'.db.requests
      ensures Unseen(s', p)
    {
      StaysUnseen(s, s', p);
    }
    hide Unseen;
  }

  /** A statement that is not enabled, since its IDs are not fresh or its call is over. */
  lemma IdleHides(s: Sys, t: Sys, e: Event)
    requires Hides(s, t) && e.Exec? && !Enabled(s, e)
    ensures Hides(Do(s, e), Do(t, e))
  {
    var s', t' := Do(s, e), Do(t, e);
    assert !Enabled(t, e);
    forall d | d in s.calls
      ensures Matches(s', t', d)
    {
    }
    forall p | p in s'.db.requests && p !in t'.db.requests
      ensures Unseen(s', p)
    {
      assert Unseen(s, p);
      forall d | d in s'.calls
        ensures !Sees(s', p, s'.calls[d])
      {
        SeesSame(s, s', p, s'.calls[d]);
      }
    }
    hide Sees;
  }

  /** Purge, clock, registrations, starting and dropped calls. */
  lemma OtherHides(s: Sys, t: Sys, e: Event)
    requires Good(s) && Hides(s, t) && !e.Exec?
    ensures Hides(Do(s, e), Do(t, e))
  {
    var s', t' := Do(s, e), Do(t, e);
    assert Enabled(t, e) <==> Enabled(s, e);
    PurgedAlike(s, t);
    if Enabled(s, e) {
      forall d | d in s'.calls
        ensures Matches(s', t', d)
      {
        if d in s.calls && t.calls[d] != s.calls[d] {
          SpentKept(s, e, s.calls[d].requestId);
        }
      }
      forall p | p in s'.db.requests && p !in t'.db.requests
        ensures Unseen(s', p)
      {
        assert Unseen(s, p);
        forall d | d in s'.calls
          ensures !Sees(s', p, s'.calls[d])
        {
          EasyUnseen(s, e, p, d);
        }
      }
    }
    hide Sees, Spent, Inv;
  }

  lemma EasyUnseen(s: Sys, e: Event, p: Uuid, d: nat)
    requires Good(s) && Enabled(s, e) && !e.Exec? && p in s.db.requests && Unseen(s, p)
    requires p in Apply(s, e).db.requests && d in Apply(s, e).calls
    ensures !Sees(Apply(s, e), p, Apply(s, e).calls[d])
  {
    if d in s.calls && Apply(s, e).calls[d] == s.calls[d] {
      assert !Sees(s, p, s.calls[d]);
      if e.Register? && s.calls[d].SendCall? {
        if FindName(s.db.accounts, s.calls[d].recipientName) == Some(s.calls[d].caller) {
          NameStays(s.db.accounts, e.id, e.account, s.calls[d].recipientName, s.calls[d].caller);
        }
      }
    }
    hide Inv, FindName, NamesUnique;
  }

  /** A registration does not take a name over. */
  lemma NameStays(accounts: map<AccountId, Account>, id: AccountId, account: Account, name: string, a: AccountId)
    requires NamesUnique(accounts) && AccountFree(accounts, id, account) && FindName(accounts, name) == Some(a)
    ensures FindName(accounts[id := account], name) == Some(a)
  {
    assert accounts[id := account][a].identitty == name;
  }

  /** Whatever happens next, other than a foreign cancel of an expired request, the states stay alike. */
  lemma HidesStep(s: Sys, t: Sys, e: Event)
    requires Good(s) && Hides(s, t) && !ForeignSelect(s, e)
    ensures Hides(Do(s, e), Do(t, e))
  {
    if !e.Exec? {
      OtherHides(s, t, e);
    } else if !Enabled(s, e) {
      IdleHides(s, t, e);
    } else if t.calls[e.c] != s.calls[e.c] {
      LateDeleteHides(s, t, e.c, e.requestId, e.leaseId);
    } else if s.calls[e.c].CancelCall? && s.calls[e.c].cancel.SelectOwner? && s.calls[e.c].requestId in s.db.requests &&
              s.calls[e.c].requestId !in t.db.requests {
      OwnCancelHides(s, t, e.c, e.requestId, e.leaseId);
    } else {
      ExecHides(s, t, e.c, e.requestId, e.leaseId);
    }
    hide Hides, Good, Apply, ForeignSelect;
  }

  lemma {:induction false} HidesAfter(s: Sys, t: Sys, es: seq<Event>)
    requires Good(s) && Hides(s, t) && NoForeignSelect(s, es)
    ensures Good(After(s, es)) && Hides(After(s, es), After(t, es))
    decreases |es|
  {
    if es != [] {
      HidesStep(s, t, es[0]);
      GoodKept(s, es[0]);
      hide Hides, Good, Do, ForeignSelect;
      HidesAfter(Do(s, es[0]), Do(t, es[0]), es[1..]);
    }
  }

  /** Every answer given in `s` has been given in `t`. */
  ghost predicate AnswersKept(s: Sys, t: Sys) {
    forall c | c in s.calls && s.calls[c].Done? :: c in t.calls && t.calls[c] == s.calls[c]
  }

  /** No answer of one state contradicts the other. */
  ghost predicate AnswersAgree(s: Sys, t: Sys) {
    forall c | c in s.calls && c in t.calls && s.calls[c].Done? && t.calls[c].Done? :: t.calls[c] == s.calls[c]
  }

  ghost predicate NoneSeen(s: Sys) {
    forall q | q in s.db.requests && !Active(s.db.requests[q], s.clock) :: Unseen(s, q)
  }

  /** A purge that no call in flight can notice changes no answer of any run that follows. */
  lemma SweepUnseen(s: Sys, es: seq<Event>)
    requires Good(s) && NoneSeen(s) && NoForeignSelect(s, es)
    ensures AnswersKept(After(s, es), After(Apply(s, Sweep), es))
  {
    assert Hides(s, Apply(s, Sweep));
    HidesAfter(s, Apply(s, Sweep), es);
    hide Good, After, Unseen;
  }

  function WithoutSweeps(es: seq<Event>): seq<Event> {
    if es == [] then [] else (if es[0].Sweep? then [] else [es[0]]) + WithoutSweeps(es[1..])
  }

  /** Followed without its purges, the list has no foreign cancel, and nobody would notice a purge where it has one. */
  ghost predicate SweepsQuiet(s: Sys, es: seq<Event>)
    decreases |es|
  {
    es != [] ==>
      if es[0].Sweep? then NoneSeen(s) && SweepsQuiet(s, es[1..])
      else !ForeignSelect(s, es[0]) && SweepsQuiet(Do(s, es[0]), es[1..])
  }

  lemma SweepHides(s: Sys, t: Sys)
    requires Hides(s, t) && NoneSeen(s)
    ensures Hides(s, Do(t, Sweep))
  {
    assert forall p | p in t.db.requests && !Active(t.db.requests[p], s.clock) :: Unseen(s, p);
    hide Unseen, Spent;
  }

  lemma {:induction false} SweepsHide(s: Sys, t: Sys, es: seq<Event>)
    requires Good(s) && Hides(s, t) && SweepsQuiet(s, es)
    ensures Hides(After(s, WithoutSweeps(es)), After(t, es))
    decreases |es|
  {
    if es != [] {
      var e, rest := es[0], WithoutSweeps(es[1..]);
      if e.Sweep? {
        SweepHides(s, t);
        hide Hides, Good, Do, ForeignSelect, NoneSeen;
        SweepsHide(s, Do(t, e), es[1..]);
        assert WithoutSweeps(es) == rest;
      } else {
        HidesStep(s, t, e);
        GoodKept(s, e);
        hide Hides, Good, Do, ForeignSelect, NoneSeen;
        SweepsHide(Do(s, e), Do(t, e), es[1..]);
        assert WithoutSweeps(es) == [e] + rest;
        assert WithoutSweeps(es)[0] == e && WithoutSweeps(es)[1..] == rest;
        assert After(s, WithoutSweeps(es)) == After(Do(s, e), rest);
      }
    }
  }

  /**
    Any number of purges between the statements of any calls, each where no call in flight could notice it, leave
    every answer what it is in the run without them.
   */
  lemma SweepsUnseen(s: Sys, es: seq<Event>)
    requires Good(s) && SweepsQuiet(s, es)
    ensures AnswersKept(After(s, WithoutSweeps(es)), After(s, es))
  {
    assert Hides(s, s);
    SweepsHide(s, s, es);
    hide Good, After, Unseen;
  }
}
