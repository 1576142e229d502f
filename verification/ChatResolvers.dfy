/** The direct-chat resolvers when nothing else runs between a call's statements. */
module ChatResolvers {
  import opened Prelude
  import opened ChatStore
  import opened ChatMachine

  ghost function SendOutcome(db: Db, caller: AccountId, recipientName: string, clientRequestId: Uuid, payload: Bytes,
                             now: Time, q: Uuid, l: Uuid): (Db, Answer)
  {
    var live := db.(requests := Purged(db.requests, now));
    var answer := Submitted(q, l, now + LEASE);
    if caller !in db.accounts then (live, Failed(Unauthorized)) else
    var repeat := FindRepeat(live.requests, caller, clientRequestId);
    if repeat.Some? then
      var p := repeat.value;
      (live, Submitted(p, live.requests[p].leaseId, live.requests[p].leaseExpiresAt))
    else if |ActiveOf(live.requests, caller, now)| >= ACTIVE_LIMIT then (live, Failed(ActiveRequestLimit)) else
    var recipient := FindName(db.accounts, recipientName);
    if recipient.None? || (recipient.value, caller) in db.blocks || recipient.value == caller then (live, answer) else
    var row := Request(l, clientRequestId, caller, recipient.value, db.accounts[caller].publicKey, payload,
                       now, now + LEASE, now + HARD_LIFE);
    if InsertRefused(live, q, row) then (live, Failed(Internal))
    else (live.(requests := live.requests[q := row]), answer)
  }

  ghost function RenewOutcome(db: Db, caller: AccountId, requestId: Uuid, leaseId: Uuid, now: Time): (Db, Answer) {
    var live := Purged(db.requests, now);
    if !Leased(live, requestId, leaseId) || live[requestId].sender != caller
    then (db.(requests := live), Failed(InvalidChatRequest))
    else
      var expires := Min(now + LEASE, live[requestId].hardExpiresAt);
      (db.(requests := WithLease(live, requestId, expires)), Renewed(requestId, leaseId, expires))
  }

  ghost function CancelOutcome(db: Db, caller: AccountId, requestId: Uuid, leaseId: Uuid): (Db, Answer) {
    if !Leased(db.requests, requestId, leaseId) then (db, Cancelled)
    else if db.requests[requestId].sender != caller then (db, Failed(InvalidChatRequest))
    else (db.(requests := Without(db.requests, requestId, leaseId)), Cancelled)
  }

  ghost function BlockOutcome(db: Db, caller: AccountId, name: string, now: Time): (Db, Answer) {
    match FindName(db.accounts, name)
    case None => (db, Failed(AccountNotFound))
    case Some(a) =>
      if a == caller then (db, Failed(SelfBlock))
      else if caller !in db.accounts then (db, Failed(Internal))
      else
        var blocks := if (caller, a) in db.blocks then db.blocks else db.blocks[(caller, a) := now];
        (Db(db.accounts, blocks, WithoutPair(db.requests, a, caller)),
         Blocked(a, db.accounts[a].identitty, blocks[(caller, a)]))
  }

  ghost function ListOutcome(db: Db, caller: AccountId, now: Time): (Db, Answer) {
    var live := db.(requests := Purged(db.requests, now));
    (live, Listed(ListedFor(live, caller, now)))
  }

  /** The uninterrupted effect and answer of a call, at one clock reading. */
  ghost function Outcome(db: Db, call: Call, now: Time, q: Uuid, l: Uuid): (Db, Answer)
    requires Initial(call)
  {
    match call
    case SendCall(caller, name, client, payload, _) => SendOutcome(db, caller, name, client, payload, now, q, l)
    case RenewCall(caller, requestId, leaseId, _) => RenewOutcome(db, caller, requestId, leaseId, now)
    case CancelCall(caller, requestId, leaseId, _) => CancelOutcome(db, caller, requestId, leaseId)
    case BlockCall(caller, name, _) => BlockOutcome(db, caller, name, now)
    case UnblockCall(caller, a) => (db.(blocks := db.blocks - {(caller, a)}), Unblocked)
    case ListCall(caller, _) => ListOutcome(db, caller, now)
  }

  // ---------------------------------------------------------------- the machine without interference

  /** How many statements a call may still run. */
  function Rank(call: Call): nat {
    match call
    case SendCall(_, _, _, _, p) =>
      (match p case SendPurge => 8 case LookupSender => 7 case LookupRepeat(_) => 6 case CountActive(_) => 5
               case Stamp(_) => 4 case LookupRecipient(_) => 3 case CheckBlock(_, _) => 2 case Insert(_, _) => 1)
    case RenewCall(_, _, _, p) =>
      (match p case RenewPurge => 4 case SelectLease => 3 case StampLease(_) => 2 case UpdateLease(_) => 1)
    case CancelCall(_, _, _, p) => (match p case SelectOwner => 2 case DeleteRequest => 1)
    case BlockCall(_, _, p) =>
      (match p case LookupTarget => 5 case StampBlock(_, _) => 4 case InsertBlock(_, _, _) => 3
               case DeletePair(_, _) => 2 case ReadBlock(_, _) => 1)
    case UnblockCall(_, _) => 1
    case ListCall(_, p) => (match p case ListPurge => 2 case SelectActive => 1)
    case Done(_) => 0
  }

  lemma RankFalls(db: Db, call: Call, now: Time, q: Uuid, l: Uuid)
    ensures !call.Done? ==> Rank(Next(db, call, now, q, l).1) < Rank(call)
  {
  }

  /** The machine running one call's statements back to back. */
  ghost function Alone(db: Db, call: Call, now: Time, q: Uuid, l: Uuid): (Db, Answer)
    decreases Rank(call)
  {
    if call.Done? then (db, call.answer) else
    var (after, next) := Next(db, call, now, q, l);
    RankFalls(db, call, now, q, l);
    Alone(after, next, now, q, l)
  }

  lemma AloneStep(db: Db, call: Call, now: Time, q: Uuid, l: Uuid, after: Db, next: Call)
    requires !call.Done? && Next(db, call, now, q, l) == (after, next)
    ensures Alone(db, call, now, q, l) == Alone(after, next, now, q, l)
    ensures next.Done? ==> Alone(db, call, now, q, l) == (after, next.answer)
  {
  }

  lemma SendTail(db: Db, call: Call, now: Time, q: Uuid, l: Uuid)
    requires call.SendCall? && call.send.Stamp? && call.caller in db.accounts
    requires call.send.publicKey == db.accounts[call.caller].publicKey
    requires db.requests == Purged(db.requests, now)
    requires FindRepeat(db.requests, call.caller, call.clientRequestId).None?
    requires |ActiveOf(db.requests, call.caller, now)| < ACTIVE_LIMIT
    ensures Alone(db, call, now, q, l) ==
            SendOutcome(db, call.caller, call.recipientName, call.clientRequestId, call.payload, now, q, l)
  {
    var ticket := Ticket(call.send.publicKey, now, q, l);
    var call1 := call.(send := LookupRecipient(ticket));
    AloneStep(db, call, now, q, l, db, call1);
    var (_, call2) := Next(db, call1, now, q, l);
    AloneStep(db, call1, now, q, l, db, call2);
    hide Alone;
    if !call2.Done? {
      var (_, call3) := Next(db, call2, now, q, l);
      AloneStep(db, call2, now, q, l, db, call3);
      if !call3.Done? {
        var (after, call4) := Next(db, call3, now, q, l);
        AloneStep(db, call3, now, q, l, after, call4);
      }
    }
  }

  lemma SendAlone(db: Db, call: Call, now: Time, q: Uuid, l: Uuid)
    requires call.SendCall? && Initial(call)
    ensures Alone(db, call, now, q, l) == Outcome(db, call, now, q, l)
  {
    var live := db.(requests := Purged(db.requests, now));
    assert Purged(live.requests, now) == live.requests;
    AloneStep(db, call, now, q, l, live, call.(send := LookupSender));
    var (_, call2) := Next(live, call.(send := LookupSender), now, q, l);
    AloneStep(live, call.(send := LookupSender), now, q, l, live, call2);
    hide Alone;
    if !call2.Done? {
      var (_, call3) := Next(live, call2, now, q, l);
      AloneStep(live, call2, now, q, l, live, call3);
      if !call3.Done? {
        var (_, call4) := Next(live, call3, now, q, l);
        AloneStep(live, call3, now, q, l, live, call4);
        if !call4.Done? {
          SendTail(live, call4, now, q, l);
        }
      }
    }
  }

  lemma RenewAlone(db: Db, call: Call, now: Time, q: Uuid, l: Uuid)
    requires call.RenewCall? && Initial(call)
    ensures Alone(db, call, now, q, l) == Outcome(db, call, now, q, l)
  {
    var (live, call1) := Next(db, call, now, q, l);
    AloneStep(db, call, now, q, l, live, call1);
    var (_, call2) := Next(live, call1, now, q, l);
    AloneStep(live, call1, now, q, l, live, call2);
    if !call2.Done? {
      var (_, call3) := Next(live, call2, now, q, l);
      AloneStep(live, call2, now, q, l, live, call3);
      var (after, call4) := Next(live, call3, now, q, l);
      AloneStep(live, call3, now, q, l, after, call4);
    }
    hide Alone;
  }

  lemma BlockAlone(db: Db, call: Call, now: Time, q: Uuid, l: Uuid)
    requires call.BlockCall? && Initial(call)
    ensures Alone(db, call, now, q, l) == Outcome(db, call, now, q, l)
  {
    var (_, call1) := Next(db, call, now, q, l);
    AloneStep(db, call, now, q, l, db, call1);
    hide Alone;
    if !call1.Done? {
      var (_, call2) := Next(db, call1, now, q, l);
      AloneStep(db, call1, now, q, l, db, call2);
      var (db3, call3) := Next(db, call2, now, q, l);
      AloneStep(db, call2, now, q, l, db3, call3);
      if !call3.Done? {
        var (db4, call4) := Next(db3, call3, now, q, l);
        AloneStep(db3, call3, now, q, l, db4, call4);
        var (_, call5) := Next(db4, call4, now, q, l);
        AloneStep(db4, call4, now, q, l, db4, call5);
      }
    }
  }

  /** A call whose statements run back to back at one clock reading does what its outcome says. */
  lemma AloneIsOutcome(db: Db, call: Call, now: Time, q: Uuid, l: Uuid)
    requires Initial(call)
    ensures Alone(db, call, now, q, l) == Outcome(db, call, now, q, l)
  {
    match call
    case SendCall(_, _, _, _, _) => SendAlone(db, call, now, q, l);
    case RenewCall(_, _, _, _) => RenewAlone(db, call, now, q, l);
    case BlockCall(_, _, _) => BlockAlone(db, call, now, q, l);
    case _ =>
      var (after, next) := Next(db, call, now, q, l);
      AloneStep(db, call, now, q, l, after, next);
      if !next.Done? {
        var (after2, next2) := Next(after, next, now, q, l);
        AloneStep(after, next, now, q, l, after2, next2);
      }
  }

  // ---------------------------------------------------------------- what uninterrupted calls keep

  ghost predicate FreshIds(requests: Requests, q: Uuid, l: Uuid) {
    q !in requests && forall p | p in requests :: requests[p].leaseId != l
  }

  /** With uninterrupted calls no request is stored against a block in force. */
  ghost predicate NoneBlocked(db: Db) {
    forall q | q in db.requests :: (db.requests[q].recipient, db.requests[q].sender) !in db.blocks
  }

  /** With uninterrupted calls no sender has more than 25 active requests. */
  ghost predicate WithinCap(requests: Requests, now: Time) {
    forall a :: |ActiveOf(requests, a, now)| <= ACTIVE_LIMIT
  }

  ghost predicate Valid(db: Db, now: Time) {
    TablesOk(db, now) && NoneBlocked(db) && WithinCap(db.requests, now)
  }

  lemma ShrinkKeeps(db: Db, after: Requests, now: Time)
    requires Valid(db, now) && Shrinks(db.requests, after)
    ensures Valid(db.(requests := after), now)
  {
    ShrinkKeepsTables(db, after, now);
    forall a
      ensures |ActiveOf(after, a, now)| <= ACTIVE_LIMIT
    {
      SubsetSize(ActiveOf(after, a, now), ActiveOf(db.requests, a, now));
    }
  }

  lemma LaterKeeps(db: Db, now: Time, later: Time)
    requires Valid(db, now) && now <= later
    ensures Valid(db, later)
  {
    forall a
      ensures |ActiveOf(db.requests, a, later)| <= ACTIVE_LIMIT
    {
      SubsetSize(ActiveOf(db.requests, a, later), ActiveOf(db.requests, a, now));
    }
  }

  lemma AccountsGrow(db: Db, id: AccountId, account: Account, now: Time)
    requires Valid(db, now) && id !in db.accounts
    ensures Valid(db.(accounts := db.accounts[id := account]), now)
  {
  }

  lemma CapAfterInsert(requests: Requests, q: Uuid, row: Request, now: Time)
    requires WithinCap(requests, now) && q !in requests && |ActiveOf(requests, row.sender, now)| < ACTIVE_LIMIT
    ensures WithinCap(requests[q := row], now)
  {
    var after := requests[q := row];
    forall a
      ensures |ActiveOf(after, a, now)| <= ACTIVE_LIMIT
    {
      if a == row.sender {
        SubsetSize(ActiveOf(after, a, now), ActiveOf(requests, a, now) + {q});
      } else {
        assert ActiveOf(after, a, now) == ActiveOf(requests, a, now);
      }
    }
  }

  lemma TablesAfterInsert(db: Db, q: Uuid, row: Request, now: Time)
    requires TablesOk(db, now) && FreshIds(db.requests, q, row.leaseId) && RowOk(db.accounts, row, now)
    requires FindRepeat(db.requests, row.sender, row.clientRequestId).None?
    ensures !InsertRefused(db, q, row) && TablesOk(db.(requests := db.requests[q := row]), now)
  {
  }

  /**
    An uninterrupted send keeps the tables in order, never stores a request against a block, never passes the cap
    of 25, and never meets a constraint with its INSERT.
   */
  lemma SendKeeps(db: Db, caller: AccountId, name: string, client: Uuid, payload: Bytes, now: Time, q: Uuid, l: Uuid)
    requires Valid(db, now) && FreshIds(db.requests, q, l)
    ensures var (after, answer) := SendOutcome(db, caller, name, client, payload, now, q, l);
            Valid(after, now) && answer != Failed(Internal)
  {
    var live := db.(requests := Purged(db.requests, now));
    ShrinkKeeps(db, live.requests, now);
    var recipient := FindName(db.accounts, name);
    if caller in db.accounts && FindRepeat(live.requests, caller, client).None? && recipient.Some? &&
       |ActiveOf(live.requests, caller, now)| < ACTIVE_LIMIT && (recipient.value, caller) !in db.blocks &&
       recipient.value != caller
    {
      var row := Request(l, client, caller, recipient.value, db.accounts[caller].publicKey, payload,
                         now, now + LEASE, now + HARD_LIFE);
      assert FreshIds(live.requests, q, l);
      TablesAfterInsert(live, q, row, now);
      CapAfterInsert(live.requests, q, row, now);
      hide TablesOk, WithinCap, InsertRefused, ActiveOf, FindRepeat;
      assert NoneBlocked(live.(requests := live.requests[q := row]));
    }
  }

  /** An uninterrupted renew keeps all of it too, and never shortens a lease. */
  lemma RenewKeeps(db: Db, caller: AccountId, requestId: Uuid, leaseId: Uuid, now: Time)
    requires Valid(db, now)
    ensures var (after, answer) := RenewOutcome(db, caller, requestId, leaseId, now);
            Valid(after, now) &&
            forall p | p in after.requests ::
              p in db.requests && after.requests[p].leaseExpiresAt >= db.requests[p].leaseExpiresAt
  {
    var live := Purged(db.requests, now);
    ShrinkKeeps(db, live, now);
    var after := RenewOutcome(db, caller, requestId, leaseId, now).0.requests;
    forall a
      ensures ActiveOf(after, a, now) <= ActiveOf(live, a, now)
    {
    }
    forall a
      ensures |ActiveOf(after, a, now)| <= ACTIVE_LIMIT
    {
      SubsetSize(ActiveOf(after, a, now), ActiveOf(live, a, now));
    }
  }

  /** Every uninterrupted call keeps the tables valid; a block leaves no request of its pair behind. */
  lemma OutcomeKeeps(db: Db, call: Call, now: Time, q: Uuid, l: Uuid)
    requires Initial(call) && Valid(db, now) && FreshIds(db.requests, q, l)
    ensures Valid(Outcome(db, call, now, q, l).0, now)
  {
    match call
    case SendCall(caller, name, client, payload, _) =>
      SendKeeps(db, caller, name, client, payload, now, q, l);
      hide Valid, SendOutcome;
    case RenewCall(caller, requestId, leaseId, _) =>
      RenewKeeps(db, caller, requestId, leaseId, now);
      hide Valid, RenewOutcome;
    case CancelCall(_, requestId, leaseId, _) => ShrinkKeeps(db, Without(db.requests, requestId, leaseId), now);
    case BlockCall(caller, name, _) =>
      var a := FindName(db.accounts, name);
      if a.Some? {
        ShrinkKeeps(db, WithoutPair(db.requests, a.value, caller), now);
      }
    case UnblockCall(_, _) =>
    case ListCall(_, _) => ShrinkKeeps(db, Purged(db.requests, now), now);
  }
}
