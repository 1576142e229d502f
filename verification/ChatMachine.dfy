/**
  The direct-chat resolvers as a machine that interleaves their statements in any order. No resolver runs in a
  transaction, so between two statements of one call any statement of another call, the background purge, a
  registration or the passage of time may come. A call may also be dropped between two statements.
 */
module ChatMachine {
  import opened Prelude
  import opened ChatStore

  // ---------------------------------------------------------------- calls and their program points

  /** What a send computes between its count and its recipient lookup. */
  datatype Ticket = Ticket(publicKey: Bytes, now: Time, requestId: Uuid, leaseId: Uuid)

  datatype SendPoint =
    | SendPurge
    | LookupSender
    | LookupRepeat(publicKey: Bytes)
    | CountActive(publicKey: Bytes)
    | Stamp(publicKey: Bytes)
    | LookupRecipient(ticket: Ticket)
    | CheckBlock(ticket: Ticket, recipient: AccountId)
    | Insert(ticket: Ticket, recipient: AccountId)

  datatype RenewPoint = RenewPurge | SelectLease | StampLease(hardExpiresAt: Time) | UpdateLease(expiresAt: Time)

  datatype CancelPoint = SelectOwner | DeleteRequest

  datatype BlockPoint =
    | LookupTarget
    | StampBlock(target: AccountId, identitty: string)
    | InsertBlock(target: AccountId, identitty: string, blockedAt: Time)
    | DeletePair(target: AccountId, identitty: string)
    | ReadBlock(target: AccountId, identitty: string)

  datatype ListPoint = ListPurge | SelectActive

  /** A call whose caller and arguments have been validated, at its next statement. */
  datatype Call =
    | SendCall(caller: AccountId, recipientName: string, clientRequestId: Uuid, payload: Bytes, send: SendPoint)
    | RenewCall(caller: AccountId, requestId: Uuid, leaseId: Uuid, renew: RenewPoint)
    | CancelCall(caller: AccountId, requestId: Uuid, leaseId: Uuid, cancel: CancelPoint)
    | BlockCall(caller: AccountId, name: string, block: BlockPoint)
    | UnblockCall(caller: AccountId, accountId: AccountId)
    | ListCall(caller: AccountId, list: ListPoint)
    | Done(answer: Answer)

  predicate Initial(call: Call) {
    match call
    case SendCall(_, _, _, _, p) => p == SendPurge
    case RenewCall(_, _, _, p) => p == RenewPurge
    case CancelCall(_, _, _, p) => p == SelectOwner
    case BlockCall(_, _, p) => p == LookupTarget
    case UnblockCall(_, _) => true
    case ListCall(_, p) => p == ListPurge
    case Done(_) => false
  }

  function NewRequest(call: Call, ticket: Ticket, recipient: AccountId): Request
    requires call.SendCall?
  {
    Request(ticket.leaseId, call.clientRequestId, call.caller, recipient, ticket.publicKey, call.payload,
            ticket.now, ticket.now + LEASE, ticket.now + HARD_LIFE)
  }

  // ---------------------------------------------------------------- one statement of a call

  ghost function SendNext(db: Db, call: Call, now: Time, requestId: Uuid, leaseId: Uuid): (Db, Call)
    requires call.SendCall?
  {
    match call.send
    case SendPurge => (db.(requests := Purged(db.requests, now)), call.(send := LookupSender))
    case LookupSender =>
      (db, if call.caller in db.accounts then call.(send := LookupRepeat(db.accounts[call.caller].publicKey))
           else Done(Failed(Unauthorized)))
    case LookupRepeat(key) =>
      (db, match FindRepeat(db.requests, call.caller, call.clientRequestId)
           case Some(q) => Done(Submitted(q, db.requests[q].leaseId, db.requests[q].leaseExpiresAt))
           case None => call.(send := CountActive(key)))
    case CountActive(key) =>
      (db, if |ActiveOf(db.requests, call.caller, now)| >= ACTIVE_LIMIT then Done(Failed(ActiveRequestLimit))
           else call.(send := Stamp(key)))
    case Stamp(key) => (db, call.(send := LookupRecipient(Ticket(key, now, requestId, leaseId))))
    case LookupRecipient(t) =>
      (db, match FindName(db.accounts, call.recipientName)
           case Some(b) => call.(send := CheckBlock(t, b))
           case None => Done(Submitted(t.requestId, t.leaseId, t.now + LEASE)))
    case CheckBlock(t, b) =>
      (db, if (b, call.caller) !in db.blocks && b != call.caller then call.(send := Insert(t, b))
           else Done(Submitted(t.requestId, t.leaseId, t.now + LEASE)))
    case Insert(t, b) =>
      var row := NewRequest(call, t, b);
      if InsertRefused(db, t.requestId, row) then (db, Done(Failed(Internal)))
      else (db.(requests := db.requests[t.requestId := row]), Done(Submitted(t.requestId, t.leaseId, t.now + LEASE)))
  }

  ghost function RenewNext(db: Db, call: Call, now: Time): (Db, Call)
    requires call.RenewCall?
  {
    match call.renew
    case RenewPurge => (db.(requests := Purged(db.requests, now)), call.(renew := SelectLease))
    case SelectLease =>
      (db, if Leased(db.requests, call.requestId, call.leaseId) && db.requests[call.requestId].sender == call.caller
           then call.(renew := StampLease(db.requests[call.requestId].hardExpiresAt))
           else Done(Failed(InvalidChatRequest)))
    case StampLease(hard) => (db, call.(renew := UpdateLease(Min(now + LEASE, hard))))
    case UpdateLease(expires) =>
      (db.(requests := WithLease(db.requests, call.requestId, expires)),
       Done(Renewed(call.requestId, call.leaseId, expires)))
  }

  ghost function CancelNext(db: Db, call: Call): (Db, Call)
    requires call.CancelCall?
  {
    match call.cancel
    case SelectOwner =>
      (db, if !Leased(db.requests, call.requestId, call.leaseId) then Done(Cancelled)
           else if db.requests[call.requestId].sender != call.caller then Done(Failed(InvalidChatRequest))
           else call.(cancel := DeleteRequest))
    case DeleteRequest => (db.(requests := Without(db.requests, call.requestId, call.leaseId)), Done(Cancelled))
  }

  ghost function BlockNext(db: Db, call: Call, now: Time): (Db, Call)
    requires call.BlockCall?
  {
    match call.block
    case LookupTarget =>
      (db, match FindName(db.accounts, call.name)
           case None => Done(Failed(AccountNotFound))
           case Some(a) =>
             if a == call.caller then Done(Failed(SelfBlock))
             else call.(block := StampBlock(a, db.accounts[a].identitty)))
    case StampBlock(a, name) => (db, call.(block := InsertBlock(a, name, now)))
    case InsertBlock(a, name, at) =>
      if call.caller !in db.accounts || a !in db.accounts then (db, Done(Failed(Internal)))
      else (if (call.caller, a) in db.blocks then db else db.(blocks := db.blocks[(call.caller, a) := at]),
            call.(block := DeletePair(a, name)))
    case DeletePair(a, name) =>
      (db.(requests := WithoutPair(db.requests, a, call.caller)), call.(block := ReadBlock(a, name)))
    case ReadBlock(a, name) =>
      (db, if (call.caller, a) in db.blocks then Done(Blocked(a, name, db.blocks[(call.caller, a)]))
           else Done(Failed(Internal)))
  }

  ghost function ListNext(db: Db, call: Call, now: Time): (Db, Call)
    requires call.ListCall?
  {
    match call.list
    case ListPurge => (db.(requests := Purged(db.requests, now)), call.(list := SelectActive))
    case SelectActive => (db, Done(Listed(ListedFor(db, call.caller, now))))
  }

  /** The call's next statement, at clock reading `now` and with fresh IDs in case it draws any. */
  ghost function Next(db: Db, call: Call, now: Time, requestId: Uuid, leaseId: Uuid): (Db, Call) {
    match call
    case SendCall(_, _, _, _, _) => SendNext(db, call, now, requestId, leaseId)
    case RenewCall(_, _, _, _) => RenewNext(db, call, now)
    case CancelCall(_, _, _, _) => CancelNext(db, call)
    case BlockCall(_, _, _) => BlockNext(db, call, now)
    case UnblockCall(caller, blocked) => (db.(blocks := db.blocks - {(caller, blocked)}), Done(Unblocked))
    case ListCall(_, _) => ListNext(db, call, now)
    case Done(_) => (db, call)
  }

  // ---------------------------------------------------------------- the machine

  datatype Sys = Sys(db: Db, clock: Time, calls: map<nat, Call>, used: set<Uuid>)

  datatype Event =
    | Start(c: nat, call: Call)
    | Exec(c: nat, requestId: Uuid, leaseId: Uuid)
    | Drop(c: nat)
    | Tick(now: Time)
    | Sweep
    | Register(id: AccountId, account: Account)

  ghost predicate Enabled(s: Sys, e: Event) {
    match e
    case Start(c, call) => c !in s.calls && Initial(call)
    case Exec(c, q, l) => c in s.calls && !s.calls[c].Done? && q !in s.used && l !in s.used && q != l
    case Drop(c) => c in s.calls
    case Tick(now) => s.clock <= now
    case Sweep => true
    case Register(id, account) => AccountFree(s.db.accounts, id, account)
  }

  ghost function Apply(s: Sys, e: Event): Sys
    requires Enabled(s, e)
  {
    match e
    case Start(c, call) => s.(calls := s.calls[c := call])
    case Exec(c, q, l) =>
      var (db, call) := Next(s.db, s.calls[c], s.clock, q, l);
      s.(db := db, calls := s.calls[c := call], used := s.used + {q, l})
    case Drop(c) => s.(calls := s.calls - {c})
    case Tick(now) => s.(clock := now)
    case Sweep => s.(db := s.db.(requests := Purged(s.db.requests, s.clock)))
    case Register(id, account) => s.(db := s.db.(accounts := s.db.accounts[id := account]))
  }

  /** A statement's effect on the machine. */
  lemma ExecIs(s: Sys, c: nat, q: Uuid, l: Uuid, after: Db, next: Call)
    requires Enabled(s, Exec(c, q, l)) && Next(s.db, s.calls[c], s.clock, q, l) == (after, next)
    ensures Apply(s, Exec(c, q, l)) == s.(db := after, calls := s.calls[c := next], used := s.used + {q, l})
  {
    hide Next;
  }

  ghost predicate Step(s: Sys, t: Sys) {
    exists e :: Enabled(s, e) && t == Apply(s, e)
  }

  ghost predicate Fresh(s: Sys) {
    s.db == Db(map[], map[], map[]) && s.calls == map[] && s.used == {}
  }

  ghost predicate StepsAt(run: seq<Sys>, i: nat)
    requires i + 1 < |run|
  {
    Step(run[i], run[i+1])
  }

  /** A run from the empty tables. */
  ghost predicate IsRun(run: seq<Sys>) {
    |run| > 0 && Fresh(run[0]) && forall i | 0 <= i < |run| - 1 :: StepsAt(run, i)
  }

  // ---------------------------------------------------------------- what every step keeps

  predicate HasTicket(call: Call) {
    call.SendCall? && (call.send.LookupRecipient? || call.send.CheckBlock? || call.send.Insert?)
  }

  ghost predicate TicketOk(s: Sys, t: Ticket) {
    t.now <= s.clock && t.requestId in s.used && t.leaseId in s.used && t.requestId !in s.db.requests &&
    forall q | q in s.db.requests :: s.db.requests[q].leaseId != t.leaseId
  }

  ghost predicate SendOk(s: Sys, call: Call)
    requires call.SendCall?
  {
    (HasTicket(call) ==> TicketOk(s, call.send.ticket)) &&
    (match call.send
     case SendPurge => true
     case LookupSender => true
     case LookupRepeat(key) => HasKey(s, call.caller, key)
     case CountActive(key) => HasKey(s, call.caller, key)
     case Stamp(key) => HasKey(s, call.caller, key)
     case LookupRecipient(t) => HasKey(s, call.caller, t.publicKey)
     case CheckBlock(t, b) => HasKey(s, call.caller, t.publicKey) && b in s.db.accounts
     case Insert(t, b) => HasKey(s, call.caller, t.publicKey) && b in s.db.accounts && b != call.caller)
  }

  ghost predicate HasKey(s: Sys, a: AccountId, key: Bytes) {
    a in s.db.accounts && s.db.accounts[a].publicKey == key
  }

  /** The ID has been drawn and no send still holds it, so no row can be inserted under it any more. */
  ghost predicate Spent(s: Sys, q: Uuid) {
    q in s.used && forall c | c in s.calls && HasTicket(s.calls[c]) :: s.calls[c].send.ticket.requestId != q
  }

  ghost predicate CallOk(s: Sys, call: Call) {
    match call
    case SendCall(_, _, _, _, _) => SendOk(s, call)
    case RenewCall(caller, q, _, StampLease(hard)) =>
      Spent(s, q) &&
      (q in s.db.requests ==> s.db.requests[q].sender == caller && s.db.requests[q].hardExpiresAt == hard)
    case RenewCall(caller, q, _, UpdateLease(expires)) =>
      Spent(s, q) && expires <= s.clock + LEASE &&
      (q in s.db.requests ==> s.db.requests[q].sender == caller && expires <= s.db.requests[q].hardExpiresAt)
    case _ => true
  }

  ghost predicate CallsOk(s: Sys) {
    forall c | c in s.calls :: CallOk(s, s.calls[c])
  }

  /** No two calls hold the same ticket IDs. */
  ghost predicate TicketsApart(s: Sys) {
    forall c, d | c in s.calls && d in s.calls && c != d && HasTicket(s.calls[c]) && HasTicket(s.calls[d]) ::
      s.calls[c].send.ticket.requestId != s.calls[d].send.ticket.requestId &&
      s.calls[c].send.ticket.leaseId != s.calls[d].send.ticket.leaseId
  }

  ghost predicate IdsUsed(s: Sys) {
    forall q | q in s.db.requests :: q in s.used && s.db.requests[q].leaseId in s.used
  }

  ghost predicate Inv(s: Sys) {
    TablesOk(s.db, s.clock) && IdsUsed(s) && CallsOk(s) && TicketsApart(s)
  }

  /** Every row of `after` is a row of `before`. */
  ghost predicate Shrinks(before: Requests, after: Requests) {
    forall q | q in after :: q in before && after[q] == before[q]
  }

  /** The three ways a statement may change the requests: delete rows, insert a send's row, renew a lease. */
  ghost predicate RequestsChange(db: Db, call: Call, after: Requests) {
    || Shrinks(db.requests, after)
    || (call.SendCall? && call.send.Insert? &&
        var row := NewRequest(call, call.send.ticket, call.send.recipient);
        !InsertRefused(db, call.send.ticket.requestId, row) &&
        after == db.requests[call.send.ticket.requestId := row])
    || (call.RenewCall? && call.renew.UpdateLease? && call.requestId in db.requests &&
        after == WithLease(db.requests, call.requestId, call.renew.expiresAt))
  }

  lemma StatementChanges(db: Db, call: Call, now: Time, q: Uuid, l: Uuid)
    ensures Next(db, call, now, q, l).0.accounts == db.accounts
    ensures RequestsChange(db, call, Next(db, call, now, q, l).0.requests)
  {
  }

  lemma ShrinkKeepsTables(db: Db, after: Requests, now: Time)
    requires TablesOk(db, now) && Shrinks(db.requests, after)
    ensures TablesOk(db.(requests := after), now)
  {
  }

  lemma InsertKeepsTables(s: Sys, call: Call)
    requires Inv(s) && call.SendCall? && call.send.Insert? && CallOk(s, call)
    requires !InsertRefused(s.db, call.send.ticket.requestId, NewRequest(call, call.send.ticket, call.send.recipient))
    ensures TablesOk(s.db.(requests := s.db.requests[call.send.ticket.requestId :=
                                         NewRequest(call, call.send.ticket, call.send.recipient)]), s.clock)
  {
  }

  lemma UpdateKeepsTables(s: Sys, call: Call)
    requires Inv(s) && call.RenewCall? && call.renew.UpdateLease? && CallOk(s, call)
    ensures TablesOk(s.db.(requests := WithLease(s.db.requests, call.requestId, call.renew.expiresAt)), s.clock)
  {
  }

  /** A statement changes the requests in one of the three ways, so the tables stay in order. */
  lemma ExecKeepsTables(s: Sys, c: nat, q: Uuid, l: Uuid)
    requires Inv(s) && Enabled(s, Exec(c, q, l))
    ensures TablesOk(Apply(s, Exec(c, q, l)).db, s.clock) && IdsUsed(Apply(s, Exec(c, q, l)))
  {
    var call := s.calls[c];
    StatementChanges(s.db, call, s.clock, q, l);
    var after := Next(s.db, call, s.clock, q, l).0.requests;
    hide Next;
    if Shrinks(s.db.requests, after) {
      ShrinkKeepsTables(s.db, after, s.clock);
    } else if call.SendCall? {
      InsertKeepsTables(s, call);
    } else {
      UpdateKeepsTables(s, call);
    }
  }

  lemma TicketAfter(s: Sys, c: nat, q: Uuid, l: Uuid)
    requires Enabled(s, Exec(c, q, l))
    ensures var next := Next(s.db, s.calls[c], s.clock, q, l).1;
            HasTicket(next) ==> if HasTicket(s.calls[c]) then next.send.ticket == s.calls[c].send.ticket
                                else next.send.ticket.requestId == q && next.send.ticket.leaseId == l
  {
  }

  /** A spent ID stays spent. */
  lemma SpentKept(s: Sys, e: Event, id: Uuid)
    requires Enabled(s, e) && Spent(s, id)
    ensures Spent(Apply(s, e), id)
  {
    if e.Exec? {
      TicketAfter(s, e.c, e.requestId, e.leaseId);
      hide Next;
    }
  }

  /** The ID of a stored row is spent. */
  lemma StoredSpent(s: Sys, id: Uuid)
    requires Inv(s) && id in s.db.requests
    ensures Spent(s, id)
  {
    forall c | c in s.calls && HasTicket(s.calls[c])
      ensures s.calls[c].send.ticket.requestId != id
    {
      assert CallOk(s, s.calls[c]);
    }
  }

  /** What another call knows survives a statement. */
  lemma OthersKept(s: Sys, c: nat, q: Uuid, l: Uuid, d: nat)
    requires Inv(s) && Enabled(s, Exec(c, q, l)) && d in s.calls && d != c
    ensures CallOk(Apply(s, Exec(c, q, l)), s.calls[d])
  {
    var call, other := s.calls[c], s.calls[d];
    assert CallOk(s, call) && CallOk(s, other);
    StatementChanges(s.db, call, s.clock, q, l);
    if HasTicket(call) && HasTicket(other) {
      assert call.send.ticket.requestId != other.send.ticket.requestId;
    }
    if other.RenewCall? && Spent(s, other.requestId) {
      SpentKept(s, Exec(c, q, l), other.requestId);
      assert HasTicket(call) ==> call.send.ticket.requestId != other.requestId;
    }
    hide Next, Spent;
  }

  lemma OwnSendKept(s: Sys, c: nat, q: Uuid, l: Uuid)
    requires Inv(s) && Enabled(s, Exec(c, q, l)) && s.calls[c].SendCall?
    ensures CallOk(Apply(s, Exec(c, q, l)), Next(s.db, s.calls[c], s.clock, q, l).1)
  {
    assert CallOk(s, s.calls[c]);
    hide Spent, InsertRefused;
  }

  lemma OwnRenewKept(s: Sys, c: nat, q: Uuid, l: Uuid)
    requires Inv(s) && Enabled(s, Exec(c, q, l)) && s.calls[c].RenewCall?
    ensures CallOk(Apply(s, Exec(c, q, l)), Next(s.db, s.calls[c], s.clock, q, l).1)
  {
    var call := s.calls[c];
    assert CallOk(s, call);
    if call.renew.SelectLease? && call.requestId in s.db.requests {
      StoredSpent(s, call.requestId);
    }
    if Spent(s, call.requestId) {
      SpentKept(s, Exec(c, q, l), call.requestId);
    }
    hide Spent;
  }

  /** What a call knows after its own statement. */
  lemma OwnKept(s: Sys, c: nat, q: Uuid, l: Uuid)
    requires Inv(s) && Enabled(s, Exec(c, q, l))
    ensures CallOk(Apply(s, Exec(c, q, l)), Next(s.db, s.calls[c], s.clock, q, l).1)
  {
    if s.calls[c].SendCall? {
      OwnSendKept(s, c, q, l);
    } else if s.calls[c].RenewCall? {
      OwnRenewKept(s, c, q, l);
    }
    hide SendNext, RenewNext;
  }

  lemma TicketsKept(s: Sys, c: nat, q: Uuid, l: Uuid)
    requires Inv(s) && Enabled(s, Exec(c, q, l))
    ensures TicketsApart(Apply(s, Exec(c, q, l)))
  {
    var call := s.calls[c];
    TicketAfter(s, c, q, l);
    forall d | d in s.calls && HasTicket(s.calls[d])
      ensures s.calls[d].send.ticket.requestId in s.used && s.calls[d].send.ticket.leaseId in s.used
    {
      assert CallOk(s, s.calls[d]);
    }
    hide Next;
  }

  /** Every step of every call, the purge, a registration, a dropped call and the clock keep the invariant. */
  lemma InvKept(s: Sys, e: Event)
    requires Inv(s) && Enabled(s, e)
    ensures Inv(Apply(s, e))
  {
    match e
    case Exec(c, q, l) =>
      ExecKeepsTables(s, c, q, l);
      OwnKept(s, c, q, l);
      TicketsKept(s, c, q, l);
      forall d | d in s.calls && d != c
        ensures CallOk(Apply(s, e), s.calls[d])
      {
        OthersKept(s, c, q, l, d);
      }
    case Start(c, call) => StartKeeps(s, c, call);
    case Register(id, account) => RegisterKeeps(s, id, account);
    case Drop(c) => QuietKeeps(s, e);
    case Tick(now) => QuietKeeps(s, e);
    case Sweep => QuietKeeps(s, e);
  }

  /** Outside a statement, what a call knows is kept since rows are only deleted. */
  lemma EasyCallKept(s: Sys, e: Event, call: Call)
    requires Enabled(s, e) && !e.Exec? && CallOk(s, call)
    ensures CallOk(Apply(s, e), call)
  {
    if call.RenewCall? && Spent(s, call.requestId) {
      SpentKept(s, e, call.requestId);
    }
    hide Spent;
  }

  lemma QuietKeeps(s: Sys, e: Event)
    requires Inv(s) && Enabled(s, e) && (e.Drop? || e.Tick? || e.Sweep?)
    ensures Inv(Apply(s, e))
  {
    ShrinkKeepsTables(s.db, Purged(s.db.requests, s.clock), s.clock);
    forall d | d in s.calls
      ensures CallOk(Apply(s, e), s.calls[d])
    {
      assert CallOk(s, s.calls[d]);
      EasyCallKept(s, e, s.calls[d]);
    }
  }

  lemma StartKeeps(s: Sys, c: nat, call: Call)
    requires Inv(s) && Enabled(s, Start(c, call))
    ensures Inv(Apply(s, Start(c, call)))
  {
    forall d | d in s.calls
      ensures CallOk(Apply(s, Start(c, call)), s.calls[d])
    {
      assert CallOk(s, s.calls[d]);
      EasyCallKept(s, Start(c, call), s.calls[d]);
    }
  }

  lemma RegisterKeeps(s: Sys, id: AccountId, account: Account)
    requires Inv(s) && Enabled(s, Register(id, account))
    ensures Inv(Apply(s, Register(id, account)))
  {
    forall d | d in s.calls
      ensures CallOk(Apply(s, Register(id, account)), s.calls[d])
    {
      assert CallOk(s, s.calls[d]);
      EasyCallKept(s, Register(id, account), s.calls[d]);
    }
  }

  lemma StepInv(s: Sys, t: Sys)
    requires Inv(s) && Step(s, t)
    ensures Inv(t)
  {
    var e :| Enabled(s, e) && t == Apply(s, e);
    hide Inv, Apply;
    InvKept(s, e);
  }

  lemma FreshInv(s: Sys)
    requires Fresh(s)
    ensures Inv(s)
  {
  }

  lemma StepAt(run: seq<Sys>, n: nat)
    requires IsRun(run) && n + 1 < |run|
    ensures Step(run[n], run[n+1])
  {
    assert StepsAt(run, n);
  }

  /** The invariant holds in every state of every run. */
  lemma {:induction false} RunInv(run: seq<Sys>, n: nat)
    requires IsRun(run) && n < |run|
    ensures Inv(run[n])
  {
    if n == 0 {
      FreshInv(run[0]);
    } else {
      RunInv(run, n-1);
      StepAt(run, n-1);
      hide IsRun, Inv, Step;
      StepInv(run[n-1], run[n]);
    }
  }
}
