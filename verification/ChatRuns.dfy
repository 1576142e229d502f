/** Guarantees over whole runs of uninterrupted direct-chat calls. */
module ChatRuns {
  import opened Prelude
  import opened ChatStore
  import opened ChatMachine
  import opened ChatResolvers

  type NewCall = call: Call | Initial(call) witness UnblockCall("", "")

  /** One operation of a run, with its clock reading and the fresh IDs in case it draws any. */
  datatype Op =
    | Invoke(now: Time, call: NewCall, requestId: Uuid, leaseId: Uuid)
    | Purge(now: Time)
    | AddAccount(now: Time, id: AccountId, account: Account)

  ghost predicate LegalOp(op: Op, clock: Time, used: set<Uuid>) {
    clock <= op.now &&
    (op.Invoke? ==> op.requestId !in used && op.leaseId !in used && op.requestId != op.leaseId)
  }

  function UsedAfter(used: set<Uuid>, op: Op): set<Uuid> {
    if op.Invoke? then used + {op.requestId, op.leaseId} else used
  }

  /** The clock does not run backwards, and no ID is drawn twice. */
  ghost predicate Legal(ops: seq<Op>, clock: Time, used: set<Uuid>)
    decreases |ops|
  {
    ops != [] ==> LegalOp(ops[0], clock, used) && Legal(ops[1..], ops[0].now, UsedAfter(used, ops[0]))
  }

  ghost function Effect(db: Db, op: Op): Db
  {
    match op
    case Invoke(now, call, q, l) => Outcome(db, call, now, q, l).0
    case Purge(now) => db.(requests := Purged(db.requests, now))
    case AddAccount(_, id, account) =>
      if AccountFree(db.accounts, id, account) then db.(accounts := db.accounts[id := account]) else db
  }

  ghost function Reply(db: Db, op: Op): Answer
    requires op.Invoke?
  {
    Outcome(db, op.call, op.now, op.requestId, op.leaseId).1
  }

  // ---------------------------------------------------------------- purging is invisible

  /** The ideal store: a request is gone the instant its lease or its hard limit passes. */
  ghost function Vanished(db: Db, now: Time): Db {
    db.(requests := Purged(db.requests, now))
  }

  /** The stores agree on everything but expired rows. */
  ghost predicate Alike(stored: Db, ideal: Db, now: Time) {
    Vanished(stored, now) == Vanished(ideal, now)
  }

  /** A cancel by someone else of a row that has expired and is not purged yet. */
  ghost predicate ForeignCancel(db: Db, op: Op) {
    op.Invoke? && op.call.CancelCall? && Leased(db.requests, op.call.requestId, op.call.leaseId) &&
    var r := db.requests[op.call.requestId];
    r.sender != op.call.caller && !Active(r, op.now)
  }

  lemma PurgedTwice(requests: Requests, early: Time, late: Time)
    requires early <= late
    ensures Purged(Purged(requests, early), late) == Purged(requests, late)
  {
  }

  lemma AlikeLater(stored: Db, ideal: Db, early: Time, late: Time)
    requires early <= late && Alike(stored, ideal, early)
    ensures Alike(stored, ideal, late)
  {
    PurgedTwice(stored.requests, early, late);
    PurgedTwice(ideal.requests, early, late);
  }

  lemma ActiveAlike(stored: Db, ideal: Db, now: Time, q: Uuid)
    requires Alike(stored, ideal, now) && q in stored.requests && Active(stored.requests[q], now)
    ensures q in ideal.requests && ideal.requests[q] == stored.requests[q]
  {
    assert q in Purged(stored.requests, now);
    assert q in Purged(ideal.requests, now);
  }

  /** A foreign cancel is answered InvalidChatRequest, and Cancelled on the ideal store; other answers are the same. */
  predicate AgreeAt(foreign: bool, reply: Answer, ideal: Answer) {
    if foreign then reply == Failed(InvalidChatRequest) && ideal == Cancelled else reply == ideal
  }

  lemma CancelAlike(stored: Db, ideal: Db, op: Op)
    requires op.Invoke? && op.call.CancelCall?
    requires Alike(stored, ideal, op.now) && ideal == Vanished(ideal, op.now)
    ensures Alike(Effect(stored, op), Effect(ideal, op), op.now)
    ensures AgreeAt(ForeignCancel(stored, op), Reply(stored, op), Reply(ideal, op))
  {
    var q := op.call.requestId;
    if q in stored.requests && Active(stored.requests[q], op.now) {
      ActiveAlike(stored, ideal, op.now, q);
    }
    if q in ideal.requests {
      assert q in Purged(ideal.requests, op.now);
      assert q in Purged(stored.requests, op.now);
    }
    var after, idealAfter := Effect(stored, op), Effect(ideal, op);
    assert Purged(after.requests, op.now) == Without(Purged(stored.requests, op.now), q, op.call.leaseId) ||
           after == stored;
  }

  /** One operation on stores that are alike. */
  lemma StepAlike(stored: Db, ideal: Db, op: Op)
    requires op.Invoke? && Alike(stored, ideal, op.now) && ideal == Vanished(ideal, op.now)
    ensures Alike(Effect(stored, op), Effect(ideal, op), op.now)
    ensures AgreeAt(ForeignCancel(stored, op), Reply(stored, op), Reply(ideal, op))
  {
    PurgedTwice(stored.requests, op.now, op.now);
    PurgedTwice(ideal.requests, op.now, op.now);
    match op.call
    case CancelCall(_, _, _, _) => CancelAlike(stored, ideal, op);
    case BlockCall(caller, name, _) =>
      var a := FindName(stored.accounts, name);
      if a.Some? {
        assert Purged(WithoutPair(stored.requests, a.value, caller), op.now) ==
               WithoutPair(Purged(stored.requests, op.now), a.value, caller);
        assert Purged(WithoutPair(ideal.requests, a.value, caller), op.now) ==
               WithoutPair(Purged(ideal.requests, op.now), a.value, caller);
      }
    case _ =>
  }

  lemma OpAlike(stored: Db, ideal: Db, op: Op, clock: Time)
    requires Alike(stored, ideal, clock) && clock <= op.now
    ensures op.Purge? ==> Alike(Effect(stored, op), ideal, op.now)
    ensures !op.Purge? ==> Alike(Effect(stored, op), Effect(Vanished(ideal, op.now), op), op.now)
    ensures op.Invoke? ==>
              AgreeAt(ForeignCancel(stored, op), Reply(stored, op), Reply(Vanished(ideal, op.now), op))
  {
    AlikeLater(stored, ideal, clock, op.now);
    PurgedTwice(stored.requests, op.now, op.now);
    PurgedTwice(ideal.requests, op.now, op.now);
    if op.Invoke? {
      StepAlike(stored, Vanished(ideal, op.now), op);
    }
  }

  /** The answers of a run, purges and registrations answering nothing. */
  ghost function Replies(db: Db, ops: seq<Op>): seq<Answer>
    decreases |ops|
  {
    if ops == [] then [] else
    (if ops[0].Invoke? then [Reply(db, ops[0])] else []) + Replies(Effect(db, ops[0]), ops[1..])
  }

  /** The answers of the same run on the ideal store, which needs no purges. */
  ghost function IdealReplies(db: Db, ops: seq<Op>): seq<Answer>
    decreases |ops|
  {
    if ops == [] then [] else
    var now := Vanished(db, ops[0].now);
    (if ops[0].Invoke? then [Reply(now, ops[0])] else []) + IdealReplies(Effect(now, ops[0]), ops[1..])
  }

  function WithoutPurges(ops: seq<Op>): seq<Op> {
    if ops == [] then []
    else (if ops[0].Purge? then [] else [ops[0]]) + WithoutPurges(ops[1..])
  }

  /** Which answers of a run are to foreign cancels of expired rows. */
  ghost function Foreign(db: Db, ops: seq<Op>): seq<bool>
    decreases |ops|
  {
    if ops == [] then [] else
    (if ops[0].Invoke? then [ForeignCancel(db, ops[0])] else []) + Foreign(Effect(db, ops[0]), ops[1..])
  }

  /** The answers differ exactly at the foreign cancels. */
  ghost predicate DifferExactlyAt(foreign: seq<bool>, replies: seq<Answer>, ideal: seq<Answer>) {
    |replies| == |ideal| == |foreign| && forall i | 0 <= i < |replies| :: AgreeAt(foreign[i], replies[i], ideal[i])
  }

  lemma AgreeCons(f: bool, foreign: seq<bool>, a: Answer, replies: seq<Answer>, b: Answer, ideal: seq<Answer>)
    requires DifferExactlyAt(foreign, replies, ideal) && AgreeAt(f, a, b)
    ensures DifferExactlyAt([f] + foreign, [a] + replies, [b] + ideal)
  {
  }

  /**
    Purges placed anywhere in a run cannot be told from rows that vanish by themselves: every answer of send,
    renew, list, block, unblock and an owner's cancel is that of the ideal store. Only the cancel of an expired
    row by someone who does not own it, the one operation that reads before any purge, is answered otherwise.
   */
  lemma {:induction false} PurgesInvisible(stored: Db, ideal: Db, ops: seq<Op>, clock: Time, used: set<Uuid>)
    requires Alike(stored, ideal, clock) && Legal(ops, clock, used)
    ensures DifferExactlyAt(Foreign(stored, ops), Replies(stored, ops), IdealReplies(ideal, WithoutPurges(ops)))
    decreases |ops|
  {
    if ops != [] {
      var op := ops[0];
      OpAlike(stored, ideal, op, clock);
      hide Effect, Reply, Alike, Vanished, ForeignCancel, LegalOp, UsedAfter, DifferExactlyAt;
      var after := Effect(stored, op);
      var foreign := Foreign(after, ops[1..]);
      if op.Purge? {
        PurgesInvisible(after, ideal, ops[1..], op.now, UsedAfter(used, op));
        assert WithoutPurges(ops) == WithoutPurges(ops[1..]);
        assert Replies(stored, ops) == Replies(after, ops[1..]) && Foreign(stored, ops) == foreign;
      } else {
        var now := Vanished(ideal, op.now);
        var idealAfter := Effect(now, op);
        PurgesInvisible(after, idealAfter, ops[1..], op.now, UsedAfter(used, op));
        assert WithoutPurges(ops)[0] == op && WithoutPurges(ops)[1..] == WithoutPurges(ops[1..]);
        var rest, idealRest := Replies(after, ops[1..]), IdealReplies(idealAfter, WithoutPurges(ops[1..]));
        if op.Invoke? {
          AgreeCons(ForeignCancel(stored, op), foreign, Reply(stored, op), rest, Reply(now, op), idealRest);
        } else {
          assert Replies(stored, ops) == rest && IdealReplies(ideal, WithoutPurges(ops)) == idealRest;
          assert Foreign(stored, ops) == foreign;
        }
      }
    } else {
      assert Replies(stored, ops) == [] && IdealReplies(ideal, WithoutPurges(ops)) == [] && Foreign(stored, ops) == [];
    }
  }

  /**
    So where the purges of a run are placed makes no difference to its answers, but for the foreign cancels: two runs
    that differ in their purges alone have the same answers exactly if the same cancels of theirs meet expired rows.
   */
  lemma PurgePlacementInvisible(db: Db, ops: seq<Op>, ops': seq<Op>, clock: Time, used: set<Uuid>)
    requires Legal(ops, clock, used) && Legal(ops', clock, used) && WithoutPurges(ops) == WithoutPurges(ops')
    ensures Replies(db, ops) == Replies(db, ops') <==> Foreign(db, ops) == Foreign(db, ops')
  {
    PurgesInvisible(db, db, ops, clock, used);
    PurgesInvisible(db, db, ops', clock, used);
    if Foreign(db, ops) == Foreign(db, ops') {
      forall i | 0 <= i < |Replies(db, ops)|
        ensures Replies(db, ops)[i] == Replies(db, ops')[i]
      {
        assert AgreeAt(Foreign(db, ops)[i], Replies(db, ops)[i], IdealReplies(db, WithoutPurges(ops))[i]);
        assert AgreeAt(Foreign(db, ops)[i], Replies(db, ops')[i], IdealReplies(db, WithoutPurges(ops))[i]);
      }
    } else {
      var i :| 0 <= i < |Foreign(db, ops)| && Foreign(db, ops)[i] != Foreign(db, ops')[i];
      assert AgreeAt(Foreign(db, ops)[i], Replies(db, ops)[i], IdealReplies(db, WithoutPurges(ops))[i]);
      assert AgreeAt(Foreign(db, ops')[i], Replies(db, ops')[i], IdealReplies(db, WithoutPurges(ops))[i]);
      assert Replies(db, ops)[i] != Replies(db, ops')[i];
    }
  }

  // ---------------------------------------------------------------- runs keep the tables valid

  ghost function Final(db: Db, ops: seq<Op>): Db
    decreases |ops|
  {
    if ops == [] then db else Final(Effect(db, ops[0]), ops[1..])
  }

  ghost predicate IdsWithin(requests: Requests, used: set<Uuid>) {
    forall q | q in requests :: q in used && requests[q].leaseId in used
  }

  lemma SendIds(db: Db, caller: AccountId, name: string, client: Uuid, payload: Bytes, now: Time, q: Uuid, l: Uuid,
                used: set<Uuid>)
    requires IdsWithin(db.requests, used)
    ensures IdsWithin(SendOutcome(db, caller, name, client, payload, now, q, l).0.requests, used + {q, l})
  {
  }

  lemma IdsAfter(db: Db, op: Op, used: set<Uuid>)
    requires IdsWithin(db.requests, used)
    ensures IdsWithin(Effect(db, op).requests, UsedAfter(used, op))
  {
    if op.Invoke? && op.call.SendCall? {
      SendIds(db, op.call.caller, op.call.recipientName, op.call.clientRequestId, op.call.payload,
              op.now, op.requestId, op.leaseId, used);
    }
    hide SendOutcome;
  }

  lemma SameAccounts(db: Db, call: NewCall, now: Time, q: Uuid, l: Uuid)
    ensures Outcome(db, call, now, q, l).0.accounts == db.accounts
  {
  }

  lemma EffectKeeps(db: Db, op: Op, clock: Time, used: set<Uuid>)
    requires Valid(db, clock) && IdsWithin(db.requests, used) && LegalOp(op, clock, used)
    ensures Valid(Effect(db, op), op.now) && IdsWithin(Effect(db, op).requests, UsedAfter(used, op))
    ensures NamesUnique(db.accounts) ==> NamesUnique(Effect(db, op).accounts)
  {
    IdsAfter(db, op, used);
    LaterKeeps(db, clock, op.now);
    match op
    case Invoke(now, call, q, l) =>
      SameAccounts(db, call, now, q, l);
      hide Valid, Outcome;
      OutcomeKeeps(db, call, now, q, l);
    case Purge(now) => ShrinkKeeps(db, Purged(db.requests, now), now);
    case AddAccount(_, _, _) =>
  }

  function ClockAfter(ops: seq<Op>, clock: Time): Time {
    if ops == [] then clock else ClockAfter(ops[1..], ops[0].now)
  }

  lemma {:induction false} FinalKeeps(db: Db, ops: seq<Op>, clock: Time, used: set<Uuid>)
    requires Valid(db, clock) && IdsWithin(db.requests, used) && Legal(ops, clock, used)
    ensures Valid(Final(db, ops), ClockAfter(ops, clock))
    ensures NamesUnique(db.accounts) ==> NamesUnique(Final(db, ops).accounts)
    decreases |ops|
  {
    if ops != [] {
      EffectKeeps(db, ops[0], clock, used);
      hide Effect, Valid, IdsWithin;
      FinalKeeps(Effect(db, ops[0]), ops[1..], ops[0].now, UsedAfter(used, ops[0]));
    }
  }

  /**
    In every state that uninterrupted calls, purges and registrations reach from the empty tables, and at any moment
    from then on, no sender has more than 25 active requests, no stored request is against a block in force, and no
    name belongs to two accounts.
   */
  lemma ReachableValid(ops: seq<Op>, clock: Time, now: Time, a: AccountId, q: Uuid)
    requires Legal(ops, clock, {}) && now >= ClockAfter(ops, clock)
    ensures var db := Final(Db(map[], map[], map[]), ops);
            |ActiveOf(db.requests, a, now)| <= 25 && NamesUnique(db.accounts) &&
            (q in db.requests ==> (db.requests[q].recipient, db.requests[q].sender) !in db.blocks)
  {
    var empty := Db(map[], map[], map[]);
    forall b
      ensures |ActiveOf(empty.requests, b, clock)| <= ACTIVE_LIMIT
    {
      assert ActiveOf(empty.requests, b, clock) == {};
    }
    FinalKeeps(empty, ops, clock, {});
    LaterKeeps(Final(empty, ops), ClockAfter(ops, clock), now);
    hide Final, TablesOk;
  }

  /** A row not deleted keeps its columns but for the lease, and a deleted one is not inserted again. */
  lemma RowAfter(db: Db, op: Op, used: set<Uuid>, q: Uuid)
    requires q in used && LegalOp(op, op.now, used)
    ensures q in Effect(db, op).requests ==>
              q in db.requests && SameRequest(db.requests[q], Effect(db, op).requests[q])
  {
    if op.Invoke? && op.call.SendCall? {
      SendRows(db, op.call.caller, op.call.recipientName, op.call.clientRequestId, op.call.payload,
               op.now, op.requestId, op.leaseId, q);
    }
    hide SendOutcome;
  }

  /** A send leaves the rows it does not delete as they are, and answers with its own ID or that of a stored row. */
  lemma SendRows(db: Db, caller: AccountId, name: string, client: Uuid, payload: Bytes, now: Time, q: Uuid, l: Uuid,
                 p: Uuid)
    ensures var (after, answer) := SendOutcome(db, caller, name, client, payload, now, q, l);
            (p != q && p in after.requests ==> p in db.requests && after.requests[p] == db.requests[p]) &&
            (answer.Submitted? ==> answer.requestId == q || answer.requestId in db.requests)
  {
    hide InsertRefused, ActiveOf;
  }

  // ---------------------------------------------------------------- the exact lifetime of a request

  /** The operation cancels the request as its owner, or blocks its sender as its recipient. */
  ghost predicate Ends(db: Db, op: Op, q: Uuid, r: Request) {
    op.Invoke? &&
    match op.call
    case CancelCall(caller, requestId, leaseId, _) => caller == r.sender && requestId == q && leaseId == r.leaseId
    case BlockCall(caller, name, _) => caller == r.recipient && FindName(db.accounts, name) == Some(r.sender)
    case _ => false
  }

  predicate Renews(op: Op, q: Uuid, r: Request) {
    op.Invoke? && op.call.RenewCall? && op.call.caller == r.sender && op.call.requestId == q &&
    op.call.leaseId == r.leaseId
  }

  /**
    From a renewal (or the creation) at `last` up to the moment `until`, the sender renews at gaps strictly under
    90 s, and nothing ends the request.
   */
  ghost predicate Sustained(db: Db, ops: seq<Op>, q: Uuid, r: Request, last: Time, until: Time)
    decreases |ops|
  {
    if ops == [] then until < last + LEASE
    else
      ops[0].now < last + LEASE && ops[0].now <= until && !Ends(db, ops[0], q, r) &&
      Sustained(Effect(db, ops[0]), ops[1..], q, r, if Renews(ops[0], q, r) then ops[0].now else last, until)
  }

  /** The request is stored with the lease its last renewal gave it. */
  ghost predicate Held(db: Db, q: Uuid, r: Request, last: Time) {
    q in db.requests && r.sender in db.accounts &&
    db.requests[q] == r.(leaseExpiresAt := Min(last + LEASE, r.hardExpiresAt))
  }

  lemma StaysHeld(db: Db, op: Op, q: Uuid, r: Request, last: Time, used: set<Uuid>)
    requires Held(db, q, r, last) && q in used && LegalOp(op, op.now, used)
    requires op.now < last + LEASE && op.now < r.hardExpiresAt && !Ends(db, op, q, r)
    ensures Held(Effect(db, op), q, r, if Renews(op, q, r) then op.now else last)
  {
  }

  lemma {:induction false} RowFinal(db: Db, ops: seq<Op>, clock: Time, used: set<Uuid>, q: Uuid)
    requires q in used && Legal(ops, clock, used)
    ensures q in Final(db, ops).requests ==>
              q in db.requests && SameRequest(db.requests[q], Final(db, ops).requests[q])
    decreases |ops|
  {
    if ops != [] {
      RowAfter(db, ops[0], used, q);
      hide Effect;
      RowFinal(Effect(db, ops[0]), ops[1..], ops[0].now, UsedAfter(used, ops[0]), q);
    }
  }

  /** The clock reading of the last renewal of the request, or `last` if the operations have none. */
  function LastRenewal(ops: seq<Op>, q: Uuid, r: Request, last: Time): Time
    decreases |ops|
  {
    if ops == [] then last else LastRenewal(ops[1..], q, r, if Renews(ops[0], q, r) then ops[0].now else last)
  }

  lemma {:induction false} HeldFinal(db: Db, ops: seq<Op>, clock: Time, used: set<Uuid>, q: Uuid, r: Request,
                                     last: Time, until: Time)
    requires q in used && Legal(ops, clock, used) && Held(db, q, r, last)
    requires Sustained(db, ops, q, r, last, until) && until < r.hardExpiresAt
    ensures Held(Final(db, ops), q, r, LastRenewal(ops, q, r, last)) && until < LastRenewal(ops, q, r, last) + LEASE
    decreases |ops|
  {
    if ops != [] {
      var op := ops[0];
      StaysHeld(db, op, q, r, last, used);
      hide Effect, Held;
      HeldFinal(Effect(db, op), ops[1..], op.now, UsedAfter(used, op), q, r,
                if Renews(op, q, r) then op.now else last, until);
    }
  }

  lemma AccountStays(db: Db, op: Op, a: AccountId)
    requires a in db.accounts
    ensures a in Effect(db, op).accounts && Effect(db, op).accounts[a] == db.accounts[a]
  {
  }

  /** Accounts are never changed or removed. */
  lemma {:induction false} AccountsStay(db: Db, ops: seq<Op>, a: AccountId)
    requires a in db.accounts
    ensures a in Final(db, ops).accounts && Final(db, ops).accounts[a] == db.accounts[a]
    decreases |ops|
  {
    if ops != [] {
      AccountStays(db, ops[0], a);
      hide Effect;
      AccountsStay(Effect(db, ops[0]), ops[1..], a);
    }
  }

  /** The request is on the recipient's list. */
  ghost predicate Shown(db: Db, q: Uuid, recipient: AccountId, now: Time) {
    exists entry :: entry in ListOutcome(db, recipient, now).1.entries && entry.requestId == q
  }

  /** Whatever operations come after, renewals included, a request is on no list from its hard limit on. */
  lemma NotShownAfterHardLimit(db: Db, ops: seq<Op>, clock: Time, used: set<Uuid>, q: Uuid, a: AccountId, until: Time)
    requires q in db.requests && q in used && Legal(ops, clock, used)
    requires until >= db.requests[q].hardExpiresAt
    ensures !Shown(Final(db, ops), q, a, until)
  {
    RowFinal(db, ops, clock, used, q);
    hide Final;
  }

  /** The request is on the recipient's list, with these columns, the sender's name and this expiry. */
  ghost predicate ShownAs(db: Db, q: Uuid, r: Request, name: string, expiresAt: Time, now: Time) {
    Shown(db, q, r.recipient, now) &&
    forall entry | entry in ListOutcome(db, r.recipient, now).1.entries && entry.requestId == q ::
      Displays(entry, q, r, name, expiresAt)
  }

  lemma HeldIsShown(db: Db, q: Uuid, r: Request, last: Time, now: Time)
    requires Held(db, q, r, last) && now < last + LEASE && now < r.hardExpiresAt
    ensures ShownAs(db, q, r, db.accounts[r.sender].identitty, Min(last + LEASE, r.hardExpiresAt), now)
  {
    var live := db.(requests := Purged(db.requests, now));
    assert q in live.requests;
    assert Entry(db.accounts, q, db.requests[q]) in ListedFor(live, r.recipient, now);
  }

  /**
    The exact lifetime: a request that is renewed at gaps strictly under 90 s, and that no cancel and no block
    ends, is on its recipient's list up to 15 minutes after its creation and not from then on. It is listed with its
    sender's account ID and name, the key and payload stored, its creation time, and the lease of its last renewal.
   */
  lemma ExactLifetime(db: Db, ops: seq<Op>, clock: Time, used: set<Uuid>, q: Uuid, r: Request, last: Time, until: Time)
    requires Valid(db, clock) && q in used && Legal(ops, clock, used) && Held(db, q, r, last)
    requires Sustained(db, ops, q, r, last, until)
    ensures Shown(Final(db, ops), q, r.recipient, until) <==> until < r.createdAt + Seconds(900)
    ensures until < r.createdAt + Seconds(900) ==>
              ShownAs(Final(db, ops), q, r, db.accounts[r.sender].identitty,
                      Min(LastRenewal(ops, q, r, last) + Seconds(90), r.createdAt + Seconds(900)), until)
  {
    assert RowOk(db.accounts, db.requests[q], clock);
    if until < r.hardExpiresAt {
      HeldFinal(db, ops, clock, used, q, r, last, until);
      AccountsStay(db, ops, r.sender);
      hide Final, Sustained, Legal, Valid;
      HeldIsShown(Final(db, ops), q, r, LastRenewal(ops, q, r, last), until);
    } else {
      NotShownAfterHardLimit(db, ops, clock, used, q, r.recipient, until);
    }
  }

  /** The sender has a live request under the client ID. */
  ghost predicate LiveRepeat(db: Db, sender: AccountId, client: Uuid, now: Time) {
    exists p :: p in db.requests && Active(db.requests[p], now) && Repeats(db.requests[p], sender, client)
  }

  /** The account a name belongs to. */
  ghost predicate Named(db: Db, name: string, a: AccountId) {
    a in db.accounts && db.accounts[a].identitty == name
  }

  /** Nothing stands between the sender and the account: they are two, and there is no block. */
  ghost predicate Deliverable(db: Db, sender: AccountId, name: string) {
    exists b :: Named(db, name, b) && b != sender && (b, sender) !in db.blocks
  }

  /**
    When a send delivers: exactly if the sender has an account, no live request under the client ID and fewer than
    25 active requests, and the name is that of another account that does not block the sender. What it stores is
    the caller's message to that account, under the sender's registered key, with a lease from `now`.
   */
  lemma SendDeliversExactly(db: Db, sender: AccountId, name: string, client: Uuid, payload: Bytes, now: Time,
                            q: Uuid, l: Uuid)
    requires Valid(db, now) && NamesUnique(db.accounts) && FreshIds(db.requests, q, l)
    ensures var after := SendOutcome(db, sender, name, client, payload, now, q, l).0;
            q in after.requests <==>
              sender in db.accounts && !LiveRepeat(db, sender, client, now) &&
              |ActiveOf(db.requests, sender, now)| < 25 && Deliverable(db, sender, name)
    ensures var after := SendOutcome(db, sender, name, client, payload, now, q, l).0;
            q in after.requests ==>
              var r := after.requests[q];
              Held(after, q, r, now) && r.leaseId == l && r.clientRequestId == client && r.sender == sender &&
              Named(db, name, r.recipient) && r.payload == payload && r.createdAt == now &&
              r.senderPublicKey == db.accounts[sender].publicKey
  {
    SendKeeps(db, sender, name, client, payload, now, q, l);
    RepeatIsLive(db, sender, client, now);
    assert ActiveOf(Purged(db.requests, now), sender, now) == ActiveOf(db.requests, sender, now);
    hide Valid, InsertRefused, FindRepeat, ActiveOf, LiveRepeat;
  }

  lemma RepeatIsLive(db: Db, sender: AccountId, client: Uuid, now: Time)
    ensures FindRepeat(Purged(db.requests, now), sender, client).Some? <==> LiveRepeat(db, sender, client, now)
  {
    var live := Purged(db.requests, now);
    if FindRepeat(live, sender, client).Some? {
      assert Active(db.requests[FindRepeat(live, sender, client).value], now);
    }
    if p :| p in db.requests && Active(db.requests[p], now) && Repeats(db.requests[p], sender, client) {
      assert p in live && Repeats(live[p], sender, client);
    }
  }

  /**
    From the send to the list: a delivered request that its sender keeps renewing, and that nothing ends, is listed for
    15 minutes with the sender's account ID, registered name and key, the payload given to the send, the send's clock
    reading, and the lease of the last renewal.
   */
  lemma DeliveredIsShown(db: Db, sender: AccountId, name: string, client: Uuid, payload: Bytes, now: Time,
                         q: Uuid, l: Uuid, ops: seq<Op>, used: set<Uuid>, until: Time)
    requires Valid(db, now) && NamesUnique(db.accounts) && FreshIds(db.requests, q, l)
    requires q in used && Legal(ops, now, used)
    requires var after := SendOutcome(db, sender, name, client, payload, now, q, l).0;
             q in after.requests && Sustained(after, ops, q, after.requests[q], now, until)
    ensures var after := SendOutcome(db, sender, name, client, payload, now, q, l).0;
            var r := after.requests[q];
            Named(db, name, r.recipient) &&
            (Shown(Final(after, ops), q, r.recipient, until) <==> until < now + Seconds(900)) &&
            forall entry: Listing | entry.requestId == q &&
                                    entry in ListOutcome(Final(after, ops), r.recipient, until).1.entries ::
              entry.sender == sender && entry.senderIdentitty == db.accounts[sender].identitty &&
              entry.senderPublicKey == db.accounts[sender].publicKey && entry.payload == payload &&
              entry.createdAt == now &&
              entry.expiresAt == Min(LastRenewal(ops, q, r, now) + Seconds(90), now + Seconds(900))
  {
    hide *;
    var after := SendOutcome(db, sender, name, client, payload, now, q, l).0;
    var r := after.requests[q];
    SentRow(db, sender, name, client, payload, now, q, l);
    ExactLifetime(after, ops, now, used, q, r, now, until);
    EntriesShown(Final(after, ops), q, r, db.accounts[sender].identitty,
                 Min(LastRenewal(ops, q, r, now) + Seconds(90), now + Seconds(900)), until);
  }

  /** What is known of the row that a send stores. */
  lemma SentRow(db: Db, sender: AccountId, name: string, client: Uuid, payload: Bytes, now: Time, q: Uuid, l: Uuid)
    requires Valid(db, now) && NamesUnique(db.accounts) && FreshIds(db.requests, q, l)
    requires q in SendOutcome(db, sender, name, client, payload, now, q, l).0.requests
    ensures sender in db.accounts
    ensures var after := SendOutcome(db, sender, name, client, payload, now, q, l).0;
            var r := after.requests[q];
            Valid(after, now) && Held(after, q, r, now) && after.accounts == db.accounts &&
            Named(db, name, r.recipient) && r.sender == sender && r.payload == payload && r.createdAt == now &&
            r.senderPublicKey == db.accounts[sender].publicKey
  {
    SendDeliversExactly(db, sender, name, client, payload, now, q, l);
    SendKeeps(db, sender, name, client, payload, now, q, l);
    SendSparesAccounts(db, sender, name, client, payload, now, q, l);
    hide Valid, SendOutcome, LiveRepeat, ActiveOf, Deliverable;
  }

  /** A request that is shown at all only as it should be. */
  lemma EntriesShown(db: Db, q: Uuid, r: Request, name: string, expiresAt: Time, now: Time)
    requires Shown(db, q, r.recipient, now) ==> ShownAs(db, q, r, name, expiresAt, now)
    ensures forall entry: Listing | entry.requestId == q && entry in ListOutcome(db, r.recipient, now).1.entries ::
              entry.sender == r.sender && entry.senderIdentitty == name &&
              entry.senderPublicKey == r.senderPublicKey && entry.payload == r.payload &&
              entry.createdAt == r.createdAt && entry.expiresAt == expiresAt
  {
    hide ListOutcome;
  }

  lemma SendSparesAccounts(db: Db, caller: AccountId, name: string, client: Uuid, payload: Bytes, now: Time,
                           q: Uuid, l: Uuid)
    ensures SendOutcome(db, caller, name, client, payload, now, q, l).0.accounts == db.accounts
  {
  }

  /** Cancelling again changes nothing and is answered as before. */
  lemma CancelIdempotent(db: Db, caller: AccountId, q: Uuid, l: Uuid)
    ensures var (after, answer) := CancelOutcome(db, caller, q, l);
            CancelOutcome(after, caller, q, l) == (after, answer) &&
            (Leased(db.requests, q, l) && db.requests[q].sender == caller ==>
               answer == Cancelled && q !in after.requests)
  {
  }

  // ---------------------------------------------------------------- retried and first-time sends

  /**
    While the sender's request under a client ID is live, a repeat returns its request and lease IDs with the
    stored expiry, whatever recipient and payload the repeat names, and changes nothing but purging.
   */
  lemma RetryIdempotent(db: Db, q: Uuid, name: string, payload: Bytes, now: Time, q': Uuid, l': Uuid)
    requires Valid(db, now) && q in db.requests && Active(db.requests[q], now)
    ensures var r := db.requests[q];
            SendOutcome(db, r.sender, name, r.clientRequestId, payload, now, q', l') ==
            (Vanished(db, now), Submitted(q, r.leaseId, r.leaseExpiresAt))
  {
    var r, live := db.requests[q], Purged(db.requests, now);
    assert RowOk(db.accounts, r, now);
    assert q in live && Repeats(live[q], r.sender, r.clientRequestId);
  }

  /** The same, for a request stored at any earlier point of a run. */
  lemma RetryAfterRun(db: Db, ops: seq<Op>, clock: Time, used: set<Uuid>, q: Uuid,
                      name: string, payload: Bytes, now: Time, q': Uuid, l': Uuid)
    requires Valid(db, clock) && IdsWithin(db.requests, used) && Legal(ops, clock, used) && q in db.requests
    requires now >= ClockAfter(ops, clock) && q in Final(db, ops).requests && Active(Final(db, ops).requests[q], now)
    ensures var answer := SendOutcome(Final(db, ops), db.requests[q].sender, name, db.requests[q].clientRequestId,
                                      payload, now, q', l').1;
            answer == Submitted(q, db.requests[q].leaseId, Final(db, ops).requests[q].leaseExpiresAt)
  {
    RowFinal(db, ops, clock, used, q);
    FinalKeeps(db, ops, clock, used);
    hide Final;
    LaterKeeps(Final(db, ops), ClockAfter(ops, clock), now);
    RetryIdempotent(Final(db, ops), q, name, payload, now, q', l');
  }

  /** The sender's live rows are the same in both stores. */
  ghost predicate SameLiveRows(db: Db, db': Db, sender: AccountId, now: Time) {
    forall q :: q in ActiveOf(db.requests, sender, now) || q in ActiveOf(db'.requests, sender, now) ==>
      q in db.requests && q in db'.requests && db.requests[q] == db'.requests[q]
  }

  /** The stored request, if any, that a send repeats, as the answer it gets. */
  ghost function RepeatAnswer(db: Db, sender: AccountId, client: Uuid, now: Time): Option<Answer> {
    var live := Purged(db.requests, now);
    var repeat := FindRepeat(live, sender, client);
    if repeat.None? then None
    else Some(Submitted(repeat.value, live[repeat.value].leaseId, live[repeat.value].leaseExpiresAt))
  }

  /** The answer depends on the sender's side of the tables alone. */
  lemma SendAnswer(db: Db, sender: AccountId, name: string, client: Uuid, payload: Bytes, now: Time, q: Uuid, l: Uuid)
    requires Valid(db, now) && FreshIds(db.requests, q, l)
    ensures SendOutcome(db, sender, name, client, payload, now, q, l).1 ==
            if sender !in db.accounts then Failed(Unauthorized)
            else if RepeatAnswer(db, sender, client, now).Some? then RepeatAnswer(db, sender, client, now).value
            else if |ActiveOf(db.requests, sender, now)| >= ACTIVE_LIMIT then Failed(ActiveRequestLimit)
            else Submitted(q, l, now + LEASE)
  {
    SendKeeps(db, sender, name, client, payload, now, q, l);
    assert ActiveOf(Purged(db.requests, now), sender, now) == ActiveOf(db.requests, sender, now);
    hide Valid, InsertRefused, FindRepeat, ActiveOf, Purged, FreshIds;
  }

  /**
    One send is answered alike in any two states that agree on whether the sender has an account and on the
    sender's live rows, whatever the recipients' accounts and blocks: delivered, unknown, blocked or self.
   */
  lemma SendUniform(db: Db, db': Db, sender: AccountId, name: string, client: Uuid, payload: Bytes, now: Time,
                    q: Uuid, l: Uuid)
    requires Valid(db, now) && Valid(db', now) && FreshIds(db.requests, q, l) && FreshIds(db'.requests, q, l)
    requires (sender in db.accounts <==> sender in db'.accounts) && SameLiveRows(db, db', sender, now)
    ensures SendOutcome(db, sender, name, client, payload, now, q, l).1 ==
            SendOutcome(db', sender, name, client, payload, now, q, l).1
  {
    SendAnswer(db, sender, name, client, payload, now, q, l);
    SendAnswer(db', sender, name, client, payload, now, q, l);
    SameRepeat(db, db', sender, client, now);
    assert ActiveOf(db.requests, sender, now) == ActiveOf(db'.requests, sender, now);
    hide SendOutcome, Valid, FindRepeat, ActiveOf, Purged;
  }

  lemma SameRepeat(db: Db, db': Db, sender: AccountId, client: Uuid, now: Time)
    requires Valid(db, now) && Valid(db', now) && SameLiveRows(db, db', sender, now)
    ensures var live, live' := Purged(db.requests, now), Purged(db'.requests, now);
            FindRepeat(live, sender, client) == FindRepeat(live', sender, client) &&
            (FindRepeat(live, sender, client).Some? ==>
             live[FindRepeat(live, sender, client).value] == live'[FindRepeat(live, sender, client).value])
  {
    var repeat := FindRepeat(Purged(db.requests, now), sender, client);
    var repeat' := FindRepeat(Purged(db'.requests, now), sender, client);
    if repeat.Some? {
      assert repeat.value in ActiveOf(db.requests, sender, now);
      RepeatFound(db', sender, client, now, repeat.value);
    } else if repeat'.Some? {
      assert repeat'.value in ActiveOf(db'.requests, sender, now);
      RepeatFound(db, sender, client, now, repeat'.value);
    }
  }

  lemma RepeatFound(db: Db, sender: AccountId, client: Uuid, now: Time, q: Uuid)
    requires Valid(db, now) && q in db.requests && Active(db.requests[q], now)
    requires Repeats(db.requests[q], sender, client)
    ensures FindRepeat(Purged(db.requests, now), sender, client) == Some(q)
  {
    assert q in Purged(db.requests, now);
  }

  /**
    Uniformity is a promise about one send only: while the first answer's lease lasts, a retry repeats the first
    answer's request ID exactly if the first send was delivered.
   */
  lemma RetryMatchesIffDelivered(db: Db, sender: AccountId, name: string, client: Uuid, payload: Bytes,
                                 now: Time, q: Uuid, l: Uuid, later: Time, q': Uuid, l': Uuid)
    requires Valid(db, now) && FreshIds(db.requests, q, l)
    requires SendOutcome(db, sender, name, client, payload, now, q, l).1 == Submitted(q, l, now + LEASE)
    requires now <= later < now + LEASE && q' != q && l' != l
    ensures var (after, _) := SendOutcome(db, sender, name, client, payload, now, q, l);
            var retry := SendOutcome(after, sender, name, client, payload, later, q', l').1;
            (retry.Submitted? && retry.requestId == q) <==> q in after.requests
  {
    SendKeeps(db, sender, name, client, payload, now, q, l);
    var after := SendOutcome(db, sender, name, client, payload, now, q, l).0;
    if q in after.requests {
      LaterKeeps(after, now, later);
      RetryIdempotent(after, q, name, payload, later, q', l');
    }
    SendRows(after, sender, name, client, payload, later, q', l', q);
    hide Valid, FindRepeat, ActiveOf, InsertRefused, Purged;
  }
}
