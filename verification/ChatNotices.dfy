/**
  The other half: whatever call may meet an expired request, some run tells whether a purge has come in between. So
  the condition of ChatSweeps is exact.
 */
module ChatNotices {
  import opened Prelude
  import opened ChatStore
  import opened ChatMachine
  import opened ChatResolvers
  import opened ChatRevival
  import opened ChatSweeps

  /** Some run, without foreign cancels of expired requests, answers a call otherwise in the two states. */
  ghost predicate Tell(s: Sys, t: Sys) {
    exists es :: NoForeignSelect(s, es) && !AnswersAgree(After(s, es), After(t, es))
  }

  lemma TellBack(s: Sys, t: Sys, e: Event)
    requires !ForeignSelect(s, e) && Tell(Do(s, e), Do(t, e))
    ensures Tell(s, t)
  {
    var es :| NoForeignSelect(Do(s, e), es) && !AnswersAgree(After(Do(s, e), es), After(Do(t, e), es));
    var more := [e] + es;
    assert more[1..] == es;
    hide Do, ForeignSelect, AnswersAgree;
    assert NoForeignSelect(s, more) && After(s, more) == After(Do(s, e), es) && After(t, more) == After(Do(t, e), es);
  }

  lemma TellNow(s: Sys, t: Sys)
    requires !AnswersAgree(s, t)
    ensures Tell(s, t)
  {
    assert NoForeignSelect(s, []) && After(s, []) == s && After(t, []) == t;
  }

  /** The states differ in expired requests, among them `q`, that are gone from `t`. */
  ghost predicate Misses(s: Sys, t: Sys, q: Uuid) {
    Good(s) && t == s.(db := s.db.(requests := t.db.requests)) && Shrinks(s.db.requests, t.db.requests) &&
    q in s.db.requests && q !in t.db.requests
  }

  /** A statement that touches no table goes through in both states. */
  lemma QuietMisses(s: Sys, t: Sys, q: Uuid, c: nat, id: Uuid, l: Uuid, next: Call)
    requires Misses(s, t, q) && Enabled(s, Exec(c, id, l))
    requires Next(s.db, s.calls[c], s.clock, id, l) == (s.db, next)
    requires Next(t.db, s.calls[c], s.clock, id, l) == (t.db, next)
    ensures Misses(Do(s, Exec(c, id, l)), Do(t, Exec(c, id, l)), q)
    ensures Do(s, Exec(c, id, l)) == s.(calls := s.calls[c := next], used := s.used + {id, l})
  {
    GoodKept(s, Exec(c, id, l));
    hide Next, Good;
  }

  // A list shows the request.

  lemma ListedTells(s: Sys, t: Sys, q: Uuid, c: nat)
    requires Misses(s, t, q) && ActiveIn(s, q)
    requires c in s.calls && s.calls[c] == ListCall(s.db.requests[q].recipient, SelectActive)
    ensures Tell(s, t)
  {
    var id, l := TwoFresh(s.used);
    var b := s.db.requests[q].recipient;
    var s1, t1 := Do(s, Exec(c, id, l)), Do(t, Exec(c, id, l));
    assert RowOk(s.db.accounts, s.db.requests[q], s.clock);
    assert s1.calls[c] == Done(Listed(ListedFor(s.db, b, s.clock)));
    assert t1.calls[c] == Done(Listed(ListedFor(t.db, b, t.clock)));
    hide Good, Next;
    assert Entry(s.db.accounts, q, s.db.requests[q]) in ListedFor(s.db, b, s.clock);
    assert forall entry | entry in ListedFor(t.db, b, t.clock) :: entry.requestId != q;
    TellNow(s1, t1);
    TellBack(s, t, Exec(c, id, l));
  }

  lemma PurgeMisses(s: Sys, t: Sys, q: Uuid, c: nat, id: Uuid, l: Uuid)
    requires Misses(s, t, q) && ActiveIn(s, q) && Enabled(s, Exec(c, id, l))
    requires s.calls[c].ListCall? && s.calls[c].list.ListPurge?
    ensures var s1, t1 := Do(s, Exec(c, id, l)), Do(t, Exec(c, id, l));
            Misses(s1, t1, q) && ActiveIn(s1, q) && s1.db.requests[q] == s.db.requests[q] &&
            c in s1.calls && s1.calls[c] == s.calls[c].(list := SelectActive)
  {
    var next := s.calls[c].(list := SelectActive);
    GoodKept(s, Exec(c, id, l));
    assert q in s.db.requests;
    hide Good;
    ExecIs(s, c, id, l, s.db.(requests := Purged(s.db.requests, s.clock)), next);
    ExecIs(t, c, id, l, t.db.(requests := Purged(t.db.requests, t.clock)), next);
    hide Next, Apply;
  }

  lemma ListTells(s: Sys, t: Sys, q: Uuid)
    requires Misses(s, t, q) && ActiveIn(s, q)
    ensures Tell(s, t)
  {
    var c := Above(s.calls.Keys);
    var start := Start(c, ListCall(s.db.requests[q].recipient, ListPurge));
    StartMisses(s, t, q, c, start.call);
    var s1, t1 := Do(s, start), Do(t, start);
    var id, l := TwoFresh(s1.used);
    hide Good, Next, Do;
    PurgeMisses(s1, t1, q, c, id, l);
    ListedTells(Do(s1, Exec(c, id, l)), Do(t1, Exec(c, id, l)), q, c);
    TellBack(s1, t1, Exec(c, id, l));
    TellBack(s, t, start);
  }

  // A renew finds the request, or revives it.

  /** The renew's UPDATE makes the request active in `s`. */
  lemma UpdateMisses(s: Sys, t: Sys, q: Uuid, c: nat, id: Uuid, l: Uuid)
    requires Misses(s, t, q) && Enabled(s, Exec(c, id, l)) && s.calls[c].RenewCall? && s.calls[c].requestId == q
    requires s.calls[c].renew.UpdateLease? && Sees(s, q, s.calls[c])
    ensures Misses(Do(s, Exec(c, id, l)), Do(t, Exec(c, id, l)), q) && ActiveIn(Do(s, Exec(c, id, l)), q)
  {
    var call := s.calls[c];
    var renewed := Done(Renewed(q, call.leaseId, call.renew.expiresAt));
    GoodKept(s, Exec(c, id, l));
    hide Good;
    ExecIs(s, c, id, l, s.db.(requests := WithLease(s.db.requests, q, call.renew.expiresAt)), renewed);
    ExecIs(t, c, id, l, t.db, renewed);
    hide Next, Apply;
  }

  lemma UpdateTells(s: Sys, t: Sys, q: Uuid, c: nat)
    requires Misses(s, t, q) && c in s.calls && s.calls[c].RenewCall? && s.calls[c].requestId == q
    requires s.calls[c].renew.UpdateLease? && Sees(s, q, s.calls[c])
    ensures Tell(s, t)
  {
    var id, l := TwoFresh(s.used);
    var e := Exec(c, id, l);
    assert Enabled(s, e) && !ForeignSelect(s, e);
    hide *;
    UpdateMisses(s, t, q, c, id, l);
    ListTells(Do(s, e), Do(t, e), q);
    TellBack(s, t, e);
  }

  lemma StampTells(s: Sys, t: Sys, q: Uuid, c: nat)
    requires Misses(s, t, q) && c in s.calls && s.calls[c].RenewCall? && s.calls[c].requestId == q
    requires s.calls[c].renew.StampLease? && Sees(s, q, s.calls[c])
    ensures Tell(s, t)
  {
    var id, l := TwoFresh(s.used);
    var e := Exec(c, id, l);
    assert CallOk(s, s.calls[c]);
    var expires := Min(s.clock + LEASE, s.db.requests[q].hardExpiresAt);
    QuietMisses(s, t, q, c, id, l, s.calls[c].(renew := UpdateLease(expires)));
    hide Good, Next, Do;
    UpdateTells(Do(s, e), Do(t, e), q, c);
    TellBack(s, t, e);
  }

  lemma SelectTells(s: Sys, t: Sys, q: Uuid, c: nat)
    requires Misses(s, t, q) && c in s.calls && s.calls[c].RenewCall? && s.calls[c].requestId == q
    requires s.calls[c].renew.SelectLease? && Sees(s, q, s.calls[c])
    ensures Tell(s, t)
  {
    var q1, l1 := TwoFresh(s.used);
    var s1, t1 := Do(s, Exec(c, q1, l1)), Do(t, Exec(c, q1, l1));
    var q2, l2 := TwoFresh(s1.used);
    var s2, t2 := Do(s1, Exec(c, q2, l2)), Do(t1, Exec(c, q2, l2));
    var q3, l3 := TwoFresh(s2.used);
    var s3, t3 := Do(s2, Exec(c, q3, l3)), Do(t2, Exec(c, q3, l3));
    hide Good, SendNext, CancelNext, BlockNext, ListNext, Purged, WithLease;
    assert t1.calls[c] == t2.calls[c] == t3.calls[c] == Done(Failed(InvalidChatRequest));
    assert s3.calls[c].Done? && s3.calls[c].answer.Renewed?;
    TellNow(s3, t3);
    hide Next, Do;
    TellBack(s2, t2, Exec(c, q3, l3));
    TellBack(s1, t1, Exec(c, q2, l2));
    TellBack(s, t, Exec(c, q1, l1));
  }

  // A send finds the request with its INSERT.

  ghost predicate SendSees(s: Sys, q: Uuid, c: nat)
    requires q in s.db.requests
  {
    c in s.calls && s.calls[c].SendCall? && Sees(s, q, s.calls[c])
  }

  lemma RefusedInOne(s: Sys, t: Sys, q: Uuid, c: nat)
    requires Misses(s, t, q) && SendSees(s, q, c) && s.calls[c].send.Insert?
    ensures var call := s.calls[c];
            var row := NewRequest(call, call.send.ticket, call.send.recipient);
            InsertRefused(s.db, call.send.ticket.requestId, row) &&
            !InsertRefused(t.db, call.send.ticket.requestId, row)
  {
    var call := s.calls[c];
    assert CallOk(s, call);
    assert forall p | p in t.db.requests :: !Repeats(t.db.requests[p], call.caller, call.clientRequestId);
    hide NamesUnique, CallsOk, TicketsApart, RowOk;
  }

  lemma InsertTells(s: Sys, t: Sys, q: Uuid, c: nat)
    requires Misses(s, t, q) && SendSees(s, q, c) && s.calls[c].send.Insert?
    ensures Tell(s, t)
  {
    var id, l := TwoFresh(s.used);
    var call := s.calls[c];
    RefusedInOne(s, t, q, c);
    hide InsertRefused, Good, Sees, Repeats;
    var s1, t1 := Do(s, Exec(c, id, l)), Do(t, Exec(c, id, l));
    assert s1.calls[c] == Done(Failed(Internal));
    assert t1.calls[c].Done? && t1.calls[c].answer.Submitted?;
    TellNow(s1, t1);
    TellBack(s, t, Exec(c, id, l));
  }

  lemma OpenTells(s: Sys, t: Sys, q: Uuid, c: nat)
    requires Misses(s, t, q) && SendSees(s, q, c) && s.calls[c].send.CheckBlock?
    requires (s.calls[c].send.recipient, s.calls[c].caller) !in s.db.blocks
    ensures Tell(s, t)
  {
    var id, l := TwoFresh(s.used);
    var call := s.calls[c];
    QuietMisses(s, t, q, c, id, l, call.(send := Insert(call.send.ticket, call.send.recipient)));
    hide Good, Next, Do;
    InsertTells(Do(s, Exec(c, id, l)), Do(t, Exec(c, id, l)), q, c);
    TellBack(s, t, Exec(c, id, l));
  }

  lemma UnblockMisses(s: Sys, t: Sys, q: Uuid, d: nat, a: AccountId, b: AccountId)
    requires Misses(s, t, q) && d in s.calls && s.calls[d] == UnblockCall(b, a)
    ensures exists e :: !ForeignSelect(s, e) && Misses(Do(s, e), Do(t, e), q) && Do(s, e).clock == s.clock &&
              Do(s, e).db == s.db.(blocks := s.db.blocks - {(b, a)}) && Do(s, e).calls == s.calls[d := Done(Unblocked)]
  {
    var id, l := TwoFresh(s.used);
    var e := Exec(d, id, l);
    GoodKept(s, e);
    hide Good;
    assert !ForeignSelect(s, e) && Misses(Do(s, e), Do(t, e), q);
  }

  lemma StartMisses(s: Sys, t: Sys, q: Uuid, d: nat, call: Call)
    requires Misses(s, t, q) && d !in s.calls && Initial(call)
    ensures Misses(Do(s, Start(d, call)), Do(t, Start(d, call)), q)
    ensures Do(s, Start(d, call)) == s.(calls := s.calls[d := call])
  {
    GoodKept(s, Start(d, call));
  }

  /** An unblock by the recipient lets the send through. */
  lemma CheckTells(s: Sys, t: Sys, q: Uuid, c: nat)
    requires Misses(s, t, q) && SendSees(s, q, c) && s.calls[c].send.CheckBlock?
    ensures Tell(s, t)
  {
    var call := s.calls[c];
    var b := call.send.recipient;
    hide Good, Next;
    if (b, call.caller) !in s.db.blocks {
      OpenTells(s, t, q, c);
    } else {
      var d := Above(s.calls.Keys);
      var start := Start(d, UnblockCall(b, call.caller));
      StartMisses(s, t, q, d, start.call);
      var s1, t1 := Do(s, start), Do(t, start);
      hide Do, Misses;
      UnblockMisses(s1, t1, q, d, call.caller, b);
      var e :| !ForeignSelect(s1, e) && Misses(Do(s1, e), Do(t1, e), q) && Do(s1, e).clock == s.clock &&
               Do(s1, e).db == s.db.(blocks := s.db.blocks - {(b, call.caller)}) &&
               Do(s1, e).calls == s1.calls[d := Done(Unblocked)];
      assert SendSees(Do(s1, e), q, c);
      OpenTells(Do(s1, e), Do(t1, e), q, c);
      TellBack(s1, t1, e);
      TellBack(s, t, start);
    }
  }

  lemma FoundTells(s: Sys, t: Sys, q: Uuid, c: nat)
    requires Misses(s, t, q) && SendSees(s, q, c) && s.calls[c].send.LookupRecipient?
    requires FindName(s.db.accounts, s.calls[c].recipientName).Some?
    ensures Tell(s, t)
  {
    var id, l := TwoFresh(s.used);
    var call := s.calls[c];
    var b := FindName(s.db.accounts, call.recipientName).value;
    QuietMisses(s, t, q, c, id, l, call.(send := CheckBlock(call.send.ticket, b)));
    hide Good, Next, Do;
    CheckTells(Do(s, Exec(c, id, l)), Do(t, Exec(c, id, l)), q, c);
    TellBack(s, t, Exec(c, id, l));
  }

  /** A finite set of sequences leaves one out. */
  lemma {:induction false} FreshSeq<T>(used: set<seq<T>>, x: T) returns (s: seq<T>)
    ensures s !in used
  {
    var lengths: set<nat> := set u | u in used :: |u|;
    var n := Above(lengths);
    s := seq(n, _ => x);
    forall u | u in used
      ensures |u| != n
    {
      assert |u| in lengths;
    }
  }

  /** An account that may be registered under a name nobody has. */
  lemma {:induction false} NewAccount(accounts: map<AccountId, Account>, name: string)
    returns (id: AccountId, account: Account)
    requires FindName(accounts, name).None?
    ensures AccountFree(accounts, id, account) && FindName(accounts[id := account], name) == Some(id)
  {
    var keys := set a | a in accounts :: accounts[a].publicKey;
    id := FreshSeq(accounts.Keys, 'a');
    var key := FreshSeq(keys, 0);
    account := Account(name, key, 0);
    assert forall a | a in accounts :: accounts[a].publicKey in keys;
    assert accounts[id := account][id].identitty == name;
  }

  /** A registration under the recipient's name lets the send go on. */
  lemma RecipientTells(s: Sys, t: Sys, q: Uuid, c: nat)
    requires Misses(s, t, q) && SendSees(s, q, c) && s.calls[c].send.LookupRecipient?
    ensures Tell(s, t)
  {
    var name := s.calls[c].recipientName;
    if FindName(s.db.accounts, name).Some? {
      hide Good;
      FoundTells(s, t, q, c);
    } else {
      var id, account := NewAccount(s.db.accounts, name);
      var e := Register(id, account);
      assert RowOk(s.db.accounts, s.db.requests[q], s.clock);
      GoodKept(s, e);
      hide Good, AccountFree, FindName;
      assert SendSees(Do(s, e), q, c) && Misses(Do(s, e), Do(t, e), q) by {
        hide Next;
      }
      hide SendSees, Misses, Do;
      FoundTells(Do(s, e), Do(t, e), q, c);
      TellBack(s, t, e);
    }
  }

  lemma StampedTells(s: Sys, t: Sys, q: Uuid, c: nat)
    requires Misses(s, t, q) && SendSees(s, q, c) && s.calls[c].send.Stamp?
    ensures Tell(s, t)
  {
    var id, l := TwoFresh(s.used);
    var call := s.calls[c];
    QuietMisses(s, t, q, c, id, l, call.(send := LookupRecipient(Ticket(call.send.publicKey, s.clock, id, l))));
    hide Good, Next, Do;
    RecipientTells(Do(s, Exec(c, id, l)), Do(t, Exec(c, id, l)), q, c);
    TellBack(s, t, Exec(c, id, l));
  }

  /** Once all requests have run out, the send passes its count. */
  lemma CountTells(s: Sys, t: Sys, q: Uuid, c: nat)
    requires Misses(s, t, q) && SendSees(s, q, c) && s.calls[c].send.CountActive?
    ensures Tell(s, t)
  {
    var e := Tick(s.clock + HARD_LIFE);
    var s1, t1, call := Do(s, e), Do(t, e), s.calls[c];
    AllLapsed(s, t, q, c);
    var id, l := TwoFresh(s1.used);
    hide Good, Sees, ActiveOf;
    QuietMisses(s1, t1, q, c, id, l, call.(send := Stamp(call.send.publicKey)));
    var s2, t2 := Do(s1, Exec(c, id, l)), Do(t1, Exec(c, id, l));
    hide Next, Do, Misses;
    SeesStamp(s1, s2, q, c);
    StampedTells(s2, t2, q, c);
    TellBack(s1, t1, Exec(c, id, l));
    TellBack(s, t, e);
  }

  /** What the send may meet from its count on, it may meet from its stamp on. */
  lemma SeesStamp(s: Sys, t: Sys, q: Uuid, c: nat)
    requires q in s.db.requests && SendSees(s, q, c) && s.calls[c].send.CountActive?
    requires t.db == s.db && c in t.calls && t.calls[c] == s.calls[c].(send := Stamp(s.calls[c].send.publicKey))
    ensures SendSees(t, q, c)
  {
  }

  lemma AllLapsed(s: Sys, t: Sys, q: Uuid, c: nat)
    requires Misses(s, t, q) && SendSees(s, q, c) && s.calls[c].send.CountActive?
    ensures var s1, t1 := Do(s, Tick(s.clock + HARD_LIFE)), Do(t, Tick(s.clock + HARD_LIFE));
            Misses(s1, t1, q) && SendSees(s1, q, c) && s1.calls == s.calls &&
            forall a :: ActiveOf(s1.db.requests, a, s1.clock) == {} == ActiveOf(t1.db.requests, a, t1.clock)
  {
    GoodKept(s, Tick(s.clock + HARD_LIFE));
    forall p | p in s.db.requests
      ensures !Active(s.db.requests[p], s.clock + HARD_LIFE)
    {
      assert RowOk(s.db.accounts, s.db.requests[p], s.clock);
    }
    hide Good;
  }

  // A send finds the request with its SELECT.

  /** The call is past its SELECT by client ID, and will not answer with the request ID `q`. */
  predicate Elsewhere(call: Call, q: Uuid) {
    (call.Done? && !(call.answer.Submitted? && call.answer.requestId == q)) ||
    (call.SendCall? && !call.send.SendPurge? && !call.send.LookupSender? && !call.send.LookupRepeat? &&
     (HasTicket(call) ==> call.send.ticket.requestId != q))
  }

  lemma ElsewhereKept(db: Db, call: Call, now: Time, q: Uuid, id: Uuid, l: Uuid)
    requires Elsewhere(call, q) && call.SendCall? && id != q
    ensures Elsewhere(Next(db, call, now, id, l).1, q)
  {
  }

  /** The call goes on in `t` to its own answer. */
  lemma {:induction false} AnsweredTells(s: Sys, t: Sys, q: Uuid, c: nat)
    requires c in s.calls && c in t.calls && s.calls[c].Done? && s.calls[c].answer.Submitted?
    requires s.calls[c].answer.requestId == q && Elsewhere(t.calls[c], q) && q in t.used
    ensures Tell(s, t)
    decreases Rank(t.calls[c])
  {
    if t.calls[c].Done? {
      TellNow(s, t);
    } else {
      var id, l := TwoFresh(t.used);
      var e := Exec(c, id, l);
      ElsewhereKept(t.db, t.calls[c], t.clock, q, id, l);
      RankFalls(t.db, t.calls[c], t.clock, id, l);
      hide Next, Rank;
      AnsweredTells(Do(s, e), Do(t, e), q, c);
      TellBack(s, t, e);
    }
  }

  lemma RepeatTells(s: Sys, t: Sys, q: Uuid, c: nat)
    requires Misses(s, t, q) && SendSees(s, q, c) && s.calls[c].send.LookupRepeat?
    ensures Tell(s, t)
  {
    var id, l := TwoFresh(s.used);
    var call := s.calls[c];
    assert FindRepeat(s.db.requests, call.caller, call.clientRequestId) == Some(q);
    assert FindRepeat(t.db.requests, call.caller, call.clientRequestId) == None;
    var s1, t1 := Do(s, Exec(c, id, l)), Do(t, Exec(c, id, l));
    assert q in t.used;
    hide Good, FindRepeat;
    AnsweredTells(s1, t1, q, c);
    TellBack(s, t, Exec(c, id, l));
  }

  lemma SenderTells(s: Sys, t: Sys, q: Uuid, c: nat)
    requires Misses(s, t, q) && SendSees(s, q, c) && s.calls[c].send.LookupSender?
    ensures Tell(s, t)
  {
    var id, l := TwoFresh(s.used);
    var call := s.calls[c];
    assert RowOk(s.db.accounts, s.db.requests[q], s.clock);
    QuietMisses(s, t, q, c, id, l, call.(send := LookupRepeat(s.db.accounts[call.caller].publicKey)));
    hide Good, Next, Do;
    RepeatTells(Do(s, Exec(c, id, l)), Do(t, Exec(c, id, l)), q, c);
    TellBack(s, t, Exec(c, id, l));
  }

  lemma SeenTells(s: Sys, t: Sys, q: Uuid, c: nat)
    requires Misses(s, t, q) && c in s.calls && Sees(s, q, s.calls[c])
    ensures Tell(s, t)
  {
    hide Good;
    if s.calls[c].RenewCall? {
      match s.calls[c].renew
      case SelectLease => SelectTells(s, t, q, c);
      case StampLease(_) => StampTells(s, t, q, c);
      case UpdateLease(_) => UpdateTells(s, t, q, c);
    } else {
      match s.calls[c].send
      case LookupSender => SenderTells(s, t, q, c);
      case LookupRepeat(_) => RepeatTells(s, t, q, c);
      case CountActive(_) => CountTells(s, t, q, c);
      case Stamp(_) => StampedTells(s, t, q, c);
      case LookupRecipient(_) => RecipientTells(s, t, q, c);
      case CheckBlock(_, _) => CheckTells(s, t, q, c);
      case Insert(_, _) => InsertTells(s, t, q, c);
    }
  }

  /** A purge now changes no answer of any run that follows, foreign cancels of expired requests aside. */
  ghost predicate SweepInvisible(s: Sys) {
    forall es | NoForeignSelect(s, es) :: AnswersAgree(After(s, es), After(Apply(s, Sweep), es))
  }

  lemma SweepNoticed(s: Sys)
    requires Good(s) && !NoneSeen(s)
    ensures !SweepInvisible(s)
  {
    var t := Apply(s, Sweep);
    var q :| q in s.db.requests && !Active(s.db.requests[q], s.clock) && !Unseen(s, q);
    var c :| c in s.calls && Sees(s, q, s.calls[c]);
    hide Good, Sees, Unseen, NoneSeen;
    assert Misses(s, t, q);
    hide Misses, Apply;
    SeenTells(s, t, q, c);
    var es :| NoForeignSelect(s, es) && !AnswersAgree(After(s, es), After(t, es));
  }

  lemma {:induction false} RunGood(run: seq<Sys>, n: nat)
    requires IsRun(run) && n < |run|
    ensures Good(run[n])
  {
    if n == 0 {
      FreshInv(run[0]);
    } else {
      RunGood(run, n - 1);
      StepAt(run, n - 1);
      var e :| Enabled(run[n-1], e) && run[n] == Apply(run[n-1], e);
      hide Good, IsRun, Apply;
      GoodKept(run[n-1], e);
    }
  }

  /**
    Exactly when a purge between the statements of other calls is invisible, in every state of every run: no run that
    follows answers a call otherwise than it would have without the purge, if and only if no call in flight can still
    meet an expired request. Those are a send past its purge under the same client ID that may yet reach its SELECT or
    its INSERT, and a renew past its purge that will find the request or revive it.
   */
  lemma SweepInvisibleExactly(run: seq<Sys>, n: nat)
    requires IsRun(run) && n < |run|
    ensures SweepInvisible(run[n]) <==> NoneSeen(run[n])
  {
    var s := run[n];
    RunGood(run, n);
    hide Good, NoneSeen;
    if NoneSeen(s) {
      forall es | NoForeignSelect(s, es)
        ensures AnswersAgree(After(s, es), After(Apply(s, Sweep), es))
      {
        SweepUnseen(s, es);
      }
    } else {
      SweepNoticed(s);
    }
  }
}
