/**
  What the direct-chat calls answer and change, told by the rows themselves: for each resolver exactly which rows it
  adds, removes or changes, and how its answer relates to them and to the answers of earlier calls.
 */
module ChatAnswers {
  import opened Prelude
  import opened ChatStore
  import opened ChatMachine
  import opened ChatResolvers
  import opened ChatRuns

  /** The caller holds a live request under these IDs. */
  predicate Holds(db: Db, caller: AccountId, q: Uuid, l: Uuid, now: Time) {
    q in db.requests && db.requests[q].leaseId == l && db.requests[q].sender == caller &&
    now < db.requests[q].leaseExpiresAt && now < db.requests[q].hardExpiresAt
  }

  /** The row is kept as it is if it is live at `now`, and is gone otherwise. */
  predicate KeptIfLive(before: Requests, after: Requests, now: Time, p: Uuid) {
    (p in after <==> p in before && now < before[p].leaseExpiresAt && now < before[p].hardExpiresAt) &&
    (p in after ==> after[p] == before[p])
  }

  /**
    A renew succeeds exactly for the holder of a live request. It answers with the request's own IDs and the expiry it
    stores, 90 s from now but no later than 15 minutes after the request's creation, and changes no other column and
    no other row but for the purge.
   */
  lemma RenewExactly(db: Db, caller: AccountId, q: Uuid, l: Uuid, now: Time)
    requires TablesOk(db, now)
    ensures var (after, answer) := RenewOutcome(db, caller, q, l, now);
            after.accounts == db.accounts && after.blocks == db.blocks &&
            (forall p | p != q :: KeptIfLive(db.requests, after.requests, now, p)) &&
            if Holds(db, caller, q, l, now) then
              q in after.requests && SameRequest(db.requests[q], after.requests[q]) &&
              answer == Renewed(q, l, after.requests[q].leaseExpiresAt) &&
              after.requests[q].leaseExpiresAt == Min(now + Seconds(90), db.requests[q].createdAt + Seconds(900))
            else
              answer == Failed(InvalidChatRequest) && KeptIfLive(db.requests, after.requests, now, q)
  {
    assert q in db.requests ==> RowOk(db.accounts, db.requests[q], now);
    hide TablesOk;
  }

  /** A send changes no account, no block and, but for the purge, no row but its own; a list changes none at all. */
  lemma SendAndListChange(db: Db, caller: AccountId, name: string, client: Uuid, payload: Bytes, now: Time,
                          q: Uuid, l: Uuid)
    ensures var after := SendOutcome(db, caller, name, client, payload, now, q, l).0;
            after.accounts == db.accounts && after.blocks == db.blocks &&
            forall p | p != q :: KeptIfLive(db.requests, after.requests, now, p)
    ensures var after := ListOutcome(db, caller, now).0;
            after.accounts == db.accounts && after.blocks == db.blocks &&
            forall p :: KeptIfLive(db.requests, after.requests, now, p)
  {
    hide InsertRefused, ActiveOf, FindRepeat, FindName;
  }

  /**
    A cancel removes the caller's own request, and no other row. It is refused exactly if the IDs are those of someone
    else's stored request, and answers alike whether it removed a request or found none.
   */
  lemma CancelExactly(db: Db, caller: AccountId, q: Uuid, l: Uuid)
    ensures var (after, answer) := CancelOutcome(db, caller, q, l);
            var stored := q in db.requests && db.requests[q].leaseId == l;
            after.accounts == db.accounts && after.blocks == db.blocks &&
            after.requests == (if stored && db.requests[q].sender == caller then db.requests - {q} else db.requests) &&
            answer == if stored && db.requests[q].sender != caller then Failed(InvalidChatRequest) else Cancelled
  {
    if q in db.requests && db.requests[q].leaseId == l && db.requests[q].sender == caller {
      assert CancelOutcome(db, caller, q, l).0.requests == db.requests - {q};
    }
  }

  /**
    A block of the account `a` by its name: the pair's block row is in force from now on, with the time of the first
    block; the requests of the pair are gone, and nothing else changes. The answer names the account and that time.
   */
  lemma BlockExactly(db: Db, caller: AccountId, name: string, a: AccountId, now: Time)
    requires NamesUnique(db.accounts) && Named(db, name, a) && a != caller && caller in db.accounts
    ensures var (after, answer) := BlockOutcome(db, caller, name, now);
            var since := if (caller, a) in db.blocks then db.blocks[(caller, a)] else now;
            answer == Blocked(a, name, since) &&
            after.accounts == db.accounts && after.blocks == db.blocks[(caller, a) := since] &&
            forall q :: (q in after.requests <==>
                           q in db.requests && !(db.requests[q].sender == a && db.requests[q].recipient == caller)) &&
                        (q in after.requests ==> after.requests[q] == db.requests[q])
  {
    assert FindName(db.accounts, name) == Some(a);
  }

  /** A block fails, and changes nothing, exactly if the name is the caller's own or nobody's. */
  lemma BlockRefused(db: Db, caller: AccountId, name: string, now: Time)
    requires NamesUnique(db.accounts) && caller in db.accounts
    requires !exists a :: Named(db, name, a) && a != caller
    ensures BlockOutcome(db, caller, name, now) ==
            (db, Failed(if Named(db, name, caller) then SelfBlock else AccountNotFound))
  {
    if Named(db, name, caller) {
      assert FindName(db.accounts, name) == Some(caller);
    } else {
      assert forall a | a in db.accounts && db.accounts[a].identitty == name :: Named(db, name, a);
    }
  }

  /** No operation unblocks `a` for `b`. */
  ghost predicate KeepsBlock(ops: seq<Op>, b: AccountId, a: AccountId) {
    forall i | 0 <= i < |ops| :: !(ops[i].Invoke? && ops[i].call == UnblockCall(b, a))
  }

  lemma BlockStays(db: Db, op: Op, b: AccountId, a: AccountId)
    requires (b, a) in db.blocks && !(op.Invoke? && op.call == UnblockCall(b, a))
    ensures (b, a) in Effect(db, op).blocks && Effect(db, op).blocks[(b, a)] == db.blocks[(b, a)]
  {
    hide SendOutcome, RenewOutcome;
    if op.Invoke? && op.call.SendCall? {
      SendSparesBlocks(db, op.call.caller, op.call.recipientName, op.call.clientRequestId, op.call.payload,
                       op.now, op.requestId, op.leaseId);
    } else if op.Invoke? && op.call.RenewCall? {
      RenewSparesBlocks(db, op.call.caller, op.call.requestId, op.call.leaseId, op.now);
    }
  }

  lemma SendSparesBlocks(db: Db, caller: AccountId, name: string, client: Uuid, payload: Bytes, now: Time, q: Uuid,
                         l: Uuid)
    ensures SendOutcome(db, caller, name, client, payload, now, q, l).0.blocks == db.blocks
  {
  }

  lemma RenewSparesBlocks(db: Db, caller: AccountId, q: Uuid, l: Uuid, now: Time)
    ensures RenewOutcome(db, caller, q, l, now).0.blocks == db.blocks
  {
  }

  lemma {:induction false} BlockStaysFinal(db: Db, ops: seq<Op>, b: AccountId, a: AccountId)
    requires (b, a) in db.blocks && KeepsBlock(ops, b, a)
    ensures (b, a) in Final(db, ops).blocks && Final(db, ops).blocks[(b, a)] == db.blocks[(b, a)]
    decreases |ops|
  {
    if ops != [] {
      BlockStays(db, ops[0], b, a);
      assert KeepsBlock(ops[1..], b, a);
      hide Effect;
      BlockStaysFinal(Effect(db, ops[0]), ops[1..], b, a);
    }
  }

  /**
    A repeated block answers what the first one answered: whatever came in between, short of the unblock, the account,
    its name and the time of the block are the same.
   */
  lemma BlockAgain(db: Db, caller: AccountId, name: string, a: AccountId, now: Time, ops: seq<Op>, later: Time,
                   used: set<Uuid>)
    requires Valid(db, now) && NamesUnique(db.accounts) && IdsWithin(db.requests, used) && Legal(ops, now, used)
    requires Named(db, name, a) && a != caller && caller in db.accounts && KeepsBlock(ops, caller, a)
    ensures var (after, answer) := BlockOutcome(db, caller, name, now);
            answer.Blocked? && BlockOutcome(Final(after, ops), caller, name, later).1 == answer
  {
    var after := BlockOutcome(db, caller, name, now).0;
    BlockExactly(db, caller, name, a, now);
    var q, l := TwoFresh(used);
    OutcomeKeeps(db, BlockCall(caller, name, LookupTarget), now, q, l);
    BlockStaysFinal(after, ops, caller, a);
    AccountsStay(after, ops, a);
    AccountsStay(after, ops, caller);
    FinalKeeps(after, ops, now, used);
    hide Valid, Final, BlockOutcome, Legal;
    BlockExactly(Final(after, ops), caller, name, a, later);
  }

  /** An unblock removes the block of the pair and nothing else. */
  lemma UnblockExactly(db: Db, caller: AccountId, a: AccountId, now: Time, q: Uuid, l: Uuid)
    ensures var (after, answer) := Outcome(db, UnblockCall(caller, a), now, q, l);
            answer == Unblocked && after.accounts == db.accounts && after.requests == db.requests &&
            forall pair :: (pair in after.blocks <==> pair in db.blocks && pair != (caller, a)) &&
                           (pair in after.blocks ==> after.blocks[pair] == db.blocks[pair])
  {
  }

  /**
    A block keeps the account's sends out, and the unblock lets them in again: after the one no send of the account is
    delivered to the blocker, and after the other it is, under the usual conditions on the sender's side.
   */
  lemma BlockThenUnblock(db: Db, b: AccountId, name: string, a: AccountId, sent: string, now: Time, client: Uuid,
                         payload: Bytes, q: Uuid, l: Uuid)
    requires Valid(db, now) && NamesUnique(db.accounts) && FreshIds(db.requests, q, l)
    requires Named(db, name, a) && Named(db, sent, b) && a != b
    ensures var blocked := BlockOutcome(db, b, name, now).0;
            var unblocked := Outcome(blocked, UnblockCall(b, a), now, q, l).0;
            q !in SendOutcome(blocked, a, sent, client, payload, now, q, l).0.requests &&
            (q in SendOutcome(unblocked, a, sent, client, payload, now, q, l).0.requests <==>
               !LiveRepeat(unblocked, a, client, now) && |ActiveOf(unblocked.requests, a, now)| < 25)
  {
    var blocked := BlockOutcome(db, b, name, now).0;
    var unblocked := Outcome(blocked, UnblockCall(b, a), now, q, l).0;
    BlockExactly(db, b, name, a, now);
    OutcomeKeeps(db, BlockCall(b, name, LookupTarget), now, q, l);
    assert FreshIds(blocked.requests, q, l);
    OutcomeKeeps(blocked, UnblockCall(b, a), now, q, l);
    UnblockExactly(blocked, b, a, now, q, l);
    SendDeliversExactly(blocked, a, sent, client, payload, now, q, l);
    SendDeliversExactly(unblocked, a, sent, client, payload, now, q, l);
    assert Named(unblocked, sent, b) && Named(blocked, sent, b);
    hide Valid, SendOutcome, BlockOutcome, LiveRepeat, ActiveOf;
    assert Deliverable(unblocked, a, sent);
    assert !Deliverable(blocked, a, sent);
  }

  /** A registration that takes nobody's ID, name or key adds its account; another changes nothing. */
  lemma Registers(db: Db, now: Time, id: AccountId, account: Account)
    ensures var after := Effect(db, AddAccount(now, id, account));
            after.blocks == db.blocks && after.requests == db.requests &&
            if id !in db.accounts && (forall a | a in db.accounts ::
                 db.accounts[a].identitty != account.identitty && db.accounts[a].publicKey != account.publicKey)
            then after.accounts == db.accounts[id := account] else after.accounts == db.accounts
  {
  }

  /**
    From the empty tables: once any two accounts have registered, with different IDs, names and keys, a request from
    the one to the other is delivered and listed.
   */
  lemma FirstContact(a: AccountId, b: AccountId, sender: Account, recipient: Account, client: Uuid, payload: Bytes,
                     now: Time, q: Uuid, l: Uuid)
    requires a != b && sender.identitty != recipient.identitty && sender.publicKey != recipient.publicKey
    ensures var one := Effect(Db(map[], map[], map[]), AddAccount(now, a, sender));
            var tables := Effect(one, AddAccount(now, b, recipient));
            var sent := Effect(tables, Invoke(now, SendCall(a, recipient.identitty, client, payload, SendPurge), q, l));
            Shown(sent, q, b, now)
  {
    var empty := Db(map[], map[], map[]);
    var one := Effect(empty, AddAccount(now, a, sender));
    var tables := Effect(one, AddAccount(now, b, recipient));
    Registers(empty, now, a, sender);
    Registers(one, now, b, recipient);
    assert tables == Db(map[a := sender, b := recipient], map[], map[]);
    assert tables.accounts[b] == recipient && tables.accounts[a] == sender;
    var call: NewCall := SendCall(a, recipient.identitty, client, payload, SendPurge);
    var sent := Effect(tables, Invoke(now, call, q, l));
    assert sent == SendOutcome(tables, a, recipient.identitty, client, payload, now, q, l).0;
    hide Effect;
    FirstStored(tables, a, b, sender, recipient, client, payload, now, q, l);
    HeldIsShown(sent, q, sent.requests[q], now, now);
  }

  lemma FirstStored(db: Db, a: AccountId, b: AccountId, sender: Account, recipient: Account, client: Uuid,
                    payload: Bytes, now: Time, q: Uuid, l: Uuid)
    requires a != b && sender.identitty != recipient.identitty
    requires db == Db(map[a := sender, b := recipient], map[], map[])
    ensures var after := SendOutcome(db, a, recipient.identitty, client, payload, now, q, l).0;
            q in after.requests && Held(after, q, after.requests[q], now) && after.requests[q].recipient == b &&
            now < after.requests[q].hardExpiresAt
  {
    assert db.accounts[b].identitty == recipient.identitty;
    forall c
      ensures ActiveOf(db.requests, c, now) == {}
    {
    }
    SendDeliversExactly(db, a, recipient.identitty, client, payload, now, q, l);
    assert Named(db, recipient.identitty, b);
    assert Deliverable(db, a, recipient.identitty);
    hide SendOutcome, ActiveOf;
  }
}
