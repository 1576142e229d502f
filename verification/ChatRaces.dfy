/**
  Runs that show the interleaved guarantees to be the best possible: the cap's bound is reached, a renew in between
  carries a sender past it, and a request can be stored after its recipient's block has returned.
 */
module ChatRaces {
  import opened Prelude
  import opened ChatStore
  import opened ChatMachine
  import opened ChatGuarantees
  import opened ChatCap
  import opened ChatPaths
  import opened ChatRevival

  const ALICE: AccountId := "acct_a"
  const BOB: AccountId := "acct_b"
  const ALICE_ACCOUNT: Account := Account("alice", [0], 0)
  const BOB_ACCOUNT: Account := Account("bob", [1], 0)
  const ACCOUNTS: map<AccountId, Account> := map[ALICE := ALICE_ACCOUNT, BOB := BOB_ACCOUNT]

  function Sending(client: nat, point: SendPoint): Call {
    SendCall(ALICE, "bob", client, [7], point)
  }

  /** A send of Alice's, stamped at `now`, that has passed its block check. */
  predicate AtInsert(call: Call, client: nat, now: Time) {
    call.SendCall? && call.send.Insert? && call == Sending(client, Insert(call.send.ticket, BOB)) &&
    call.send.ticket.now == now && call.send.ticket.publicKey == [0]
  }

  /**
    Of Alice's sends 0, 1, ..., the first `inserted` have returned, and the others up to `started` are about to
    insert. The first was stamped at 0 and the others at `now`.
   */
  ghost predicate Scene(s: Sys, started: nat, inserted: nat, now: Time) {
    inserted <= started && Quiet(s, inserted, now) &&
    (forall c: nat :: c in s.calls <==> c < started) &&
    (forall c: nat | inserted <= c < started :: AtInsert(s.calls[c], c, now))
  }

  /** In addition, send `started` is under way. */
  ghost predicate Mid(s: Sys, started: nat, inserted: nat, point: SendPoint, now: Time) {
    inserted <= started && Quiet(s, inserted, now) &&
    (forall c: nat :: c in s.calls <==> c <= started) &&
    (forall c: nat | inserted <= c < started :: AtInsert(s.calls[c], c, now)) &&
    s.calls[started] == Sending(started, point)
  }

  /** Alice's first `inserted` sends have returned, and nothing is blocked. */
  ghost predicate Quiet(s: Sys, inserted: nat, now: Time) {
    0 <= now < LEASE && s.clock == now && (inserted == 0 ==> now == 0) && Inv(s) &&
    s.db.accounts == ACCOUNTS && s.db.blocks == map[] && Stored(s.db.requests, inserted, now) &&
    forall c: nat | c < inserted && c in s.calls :: s.calls[c].Done?
  }

  ghost predicate Stored(requests: Requests, inserted: nat, now: Time) {
    |requests| == inserted && (forall q | q in requests :: OfAlice(requests[q], inserted, now)) &&
    (inserted > 0 ==> exists q :: q in requests && requests[q].clientRequestId == 0)
  }

  predicate OfAlice(r: Request, clients: nat, now: Time) {
    r.sender == ALICE && r.recipient == BOB && r.clientRequestId < clients &&
    r.createdAt == (if r.clientRequestId == 0 then 0 else now) &&
    r.leaseExpiresAt == r.createdAt + LEASE && r.hardExpiresAt == r.createdAt + HARD_LIFE
  }

  lemma {:induction false} Range(from: nat, to: nat) returns (range: set<nat>)
    requires from <= to
    ensures |range| == to - from && forall n: nat :: n in range <==> from <= n < to
  {
    if from == to {
      range := {};
    } else {
      range := Range(from, to - 1);
      range := range + {to - 1};
    }
  }

  /** A set of numbers of a range is no larger than the range. */
  lemma RangeBounds(s: set<nat>, from: nat, to: nat)
    requires from <= to && forall n | n in s :: from <= n < to
    ensures |s| <= to - from
  {
    var range := Range(from, to);
    SubsetSize(s, range);
  }

  ghost predicate OverlapIn(s: Sys, k: nat, m: nat) {
    |Sends(s, ALICE)| <= k && |Renews(s, ALICE)| <= m
  }

  /** A run takes one more step, within the bounds on overlapping calls. */
  lemma {:induction false} ExtendWithin(run: seq<Sys>, e: Event, k: nat, m: nat) returns (longer: seq<Sys>)
    requires IsRun(run) && OverlapAtMost(run, ALICE, k, m) && Enabled(Last(run), e)
    requires OverlapIn(Apply(Last(run), e), k, m)
    ensures longer == run + [Apply(Last(run), e)] && IsRun(longer) && OverlapAtMost(longer, ALICE, k, m)
  {
    longer := Extend(run, e);
  }

  // ---------------------------------------------------------------- one send

  predicate Alices(point: SendPoint, now: Time) {
    match point
    case SendPurge => true
    case LookupSender => true
    case LookupRepeat(key) => key == [0]
    case CountActive(key) => key == [0]
    case Stamp(key) => key == [0]
    case LookupRecipient(t) => t.publicKey == [0] && t.now == now
    case CheckBlock(t, b) => t.publicKey == [0] && t.now == now && b == BOB
    case Insert(t, b) => t.publicKey == [0] && t.now == now && b == BOB
  }

  function Following(point: SendPoint, now: Time, q: Uuid, l: Uuid): SendPoint {
    match point
    case SendPurge => LookupSender
    case LookupSender => LookupRepeat([0])
    case LookupRepeat(key) => CountActive(key)
    case CountActive(key) => Stamp(key)
    case Stamp(key) => LookupRecipient(Ticket(key, now, q, l))
    case LookupRecipient(t) => CheckBlock(t, BOB)
    case CheckBlock(t, b) => Insert(t, b)
    case Insert(_, _) => point
  }

  function Remaining(point: SendPoint): nat {
    match point
    case SendPurge => 7 case LookupSender => 6 case LookupRepeat(_) => 5 case CountActive(_) => 4
    case Stamp(_) => 3 case LookupRecipient(_) => 2 case CheckBlock(_, _) => 1 case Insert(_, _) => 0
  }

  /** Nothing stops Alice's send at this point. */
  ghost predicate Unhindered(db: Db, client: nat, point: SendPoint, now: Time) {
    db.accounts == ACCOUNTS && db.blocks == map[] && Alices(point, now) && !point.Insert? &&
    (point.SendPurge? ==> Purged(db.requests, now) == db.requests) &&
    (point.LookupRepeat? ==> forall q | q in db.requests :: db.requests[q].clientRequestId != client) &&
    (point.CountActive? ==> |ActiveOf(db.requests, ALICE, now)| < ACTIVE_LIMIT)
  }

  lemma Advances(db: Db, client: nat, point: SendPoint, now: Time, q: Uuid, l: Uuid)
    requires Unhindered(db, client, point, now)
    ensures Next(db, Sending(client, point), now, q, l) == (db, Sending(client, Following(point, now, q, l)))
    ensures Alices(Following(point, now, q, l), now) && Remaining(Following(point, now, q, l)) == Remaining(point) - 1
  {
    match point
    case LookupRepeat(_) => assert FindRepeat(db.requests, ALICE, client) == None;
    case LookupRecipient(_) => assert db.accounts[BOB].identitty == "bob";
    case _ =>
  }

  lemma StoredUnhindered(db: Db, client: nat, inserted: nat, point: SendPoint, now: Time)
    requires db.accounts == ACCOUNTS && db.blocks == map[] && Alices(point, now) && !point.Insert?
    requires Stored(db.requests, inserted, now) && inserted <= client && 0 <= now < LEASE
    requires point.CountActive? ==> inserted < ACTIVE_LIMIT
    ensures Unhindered(db, client, point, now)
  {
    assert Purged(db.requests, now) == db.requests;
    SubsetSize(ActiveOf(db.requests, ALICE, now), db.requests.Keys);
  }

  lemma MidOverlap(s: Sys, started: nat, inserted: nat, point: SendPoint, now: Time)
    requires Mid(s, started, inserted, point, now)
    ensures OverlapIn(s, started + 1 - inserted, 0)
  {
    RangeBounds(Sends(s, ALICE), inserted, started + 1);
    assert Renews(s, ALICE) == {};
  }

  lemma SceneOverlap(s: Sys, started: nat, inserted: nat, now: Time)
    requires Scene(s, started, inserted, now)
    ensures OverlapIn(s, started - inserted, 0)
  {
    RangeBounds(Sends(s, ALICE), inserted, started);
    assert Renews(s, ALICE) == {};
  }

  lemma MidExec(s: Sys, started: nat, inserted: nat, point: SendPoint, now: Time, q: Uuid, l: Uuid)
    requires Mid(s, started, inserted, point, now) && Enabled(s, Exec(started, q, l))
    requires Alices(point, now) && !point.Insert? && inserted < ACTIVE_LIMIT
    ensures Mid(Apply(s, Exec(started, q, l)), started, inserted, Following(point, now, q, l), now)
    ensures Alices(Following(point, now, q, l), now)
    ensures Remaining(Following(point, now, q, l)) < Remaining(point)
  {
    hide ALICE_ACCOUNT, BOB_ACCOUNT, ALICE, BOB, ACCOUNTS;
    StoredUnhindered(s.db, started, inserted, point, now);
    Advances(s.db, started, point, now, q, l);
    InvKept(s, Exec(started, q, l));
    hide Next, Inv, Stored;
    ExecIs(s, started, q, l, s.db, Sending(started, Following(point, now, q, l)));
    hide Apply;
  }

  /** A run to a scene, with at most `k` of Alice's sends overlapping and no renews. */
  ghost predicate SceneRun(run: seq<Sys>, k: nat, started: nat, inserted: nat, now: Time) {
    |run| > 0 && IsRun(run) && OverlapAtMost(run, ALICE, k, 0) && Scene(Last(run), started, inserted, now)
  }

  ghost predicate SceneReached(k: nat, started: nat, inserted: nat, now: Time) {
    exists run :: SceneRun(run, k, started, inserted, now)
  }

  ghost predicate MidRun(run: seq<Sys>, k: nat, started: nat, inserted: nat, point: SendPoint, now: Time) {
    IsRun(run) && OverlapAtMost(run, ALICE, k, 0) && Mid(Last(run), started, inserted, point, now)
  }

  /** The send under way goes on until it is about to insert. */
  lemma {:induction false} Advance(run: seq<Sys>, started: nat, inserted: nat, point: SendPoint, now: Time, k: nat)
    requires MidRun(run, k, started, inserted, point, now)
    requires Alices(point, now) && inserted < ACTIVE_LIMIT && started + 1 - inserted <= k
    ensures SceneReached(k, started + 1, inserted, now)
    decreases Remaining(point)
  {
    hide ALICE_ACCOUNT, BOB_ACCOUNT, ALICE, BOB, ACCOUNTS;
    assert |run| > 0;
    hide Mid, Scene, IsRun, OverlapAtMost, Next, Apply, Alices;
    if point.Insert? {
      MidIsScene(Last(run), started, inserted, point, now);
      assert SceneRun(run, k, started + 1, inserted, now);
    } else {
      var s := Last(run);
      MidEnabled(s, started, inserted, point, now);
      var q, l := TwoFresh(s.used);
      MidExec(s, started, inserted, point, now, q, l);
      MidOverlap(Apply(s, Exec(started, q, l)), started, inserted, Following(point, now, q, l), now);
      var longer := ExtendWithin(run, Exec(started, q, l), k, 0);
      assert MidRun(longer, k, started, inserted, Following(point, now, q, l), now);
      Advance(longer, started, inserted, Following(point, now, q, l), now, k);
    }
  }

  lemma MidEnabled(s: Sys, started: nat, inserted: nat, point: SendPoint, now: Time)
    requires Mid(s, started, inserted, point, now)
    ensures started in s.calls && !s.calls[started].Done? && inserted <= started
  {
  }

  lemma MidIsScene(s: Sys, started: nat, inserted: nat, point: SendPoint, now: Time)
    requires Mid(s, started, inserted, point, now) && Alices(point, now) && point.Insert?
    ensures Scene(s, started + 1, inserted, now)
  {
    hide Quiet;
  }

  lemma MidStart(s: Sys, started: nat, inserted: nat, now: Time)
    requires Scene(s, started, inserted, now)
    ensures Enabled(s, Start(started, Sending(started, SendPurge)))
    ensures Mid(Apply(s, Start(started, Sending(started, SendPurge))), started, inserted, SendPurge, now)
  {
    hide ALICE_ACCOUNT, BOB_ACCOUNT, ALICE, BOB, ACCOUNTS;
    InvKept(s, Start(started, Sending(started, SendPurge)));
    hide Inv, Stored;
  }

  lemma {:induction false} StartOne(run: seq<Sys>, started: nat, inserted: nat, now: Time, k: nat)
    requires SceneRun(run, k, started, inserted, now) && inserted < ACTIVE_LIMIT && started + 1 - inserted <= k
    ensures SceneReached(k, started + 1, inserted, now)
  {
    hide ALICE_ACCOUNT, BOB_ACCOUNT, ALICE, BOB, ACCOUNTS;
    var e := Start(started, Sending(started, SendPurge));
    MidStart(Last(run), started, inserted, now);
    MidOverlap(Apply(Last(run), e), started, inserted, SendPurge, now);
    assert inserted <= started;
    hide Scene, Mid, OverlapAtMost, IsRun;
    var longer := ExtendWithin(run, e, k, 0);
    assert MidRun(longer, k, started, inserted, SendPurge, now);
    Advance(longer, started, inserted, SendPurge, now, k);
  }

  lemma StoredGrows(requests: Requests, inserted: nat, now: Time, q: Uuid, r: Request)
    requires Stored(requests, inserted, now) && q !in requests && OfAlice(r, inserted + 1, now)
    requires r.clientRequestId == inserted
    ensures Stored(requests[q := r], inserted + 1, now)
  {
    var after := requests[q := r];
    assert after.Keys == requests.Keys + {q};
    if inserted > 0 {
      var p :| p in requests && requests[p].clientRequestId == 0;
      assert after[p].clientRequestId == 0;
    } else {
      assert after[q].clientRequestId == 0;
    }
  }

  /** Alice's insert succeeds, since no stored request of hers has its client ID. */
  lemma Inserts(s: Sys, c: nat, client: nat, now: Time, q: Uuid, l: Uuid)
    requires Inv(s) && c in s.calls && AtInsert(s.calls[c], client, now)
    requires forall p | p in s.db.requests :: s.db.requests[p].clientRequestId != client
    ensures var t := s.calls[c].send.ticket;
            t.requestId !in s.db.requests &&
            Next(s.db, s.calls[c], s.clock, q, l) ==
            (s.db.(requests := s.db.requests[t.requestId := NewRequest(s.calls[c], t, BOB)]),
             Done(Submitted(t.requestId, t.leaseId, now + LEASE)))
  {
    assert CallOk(s, s.calls[c]);
    InsertRefusedExactly(s, c);
    hide Inv, InsertRefused;
  }

  /** The tables after Alice's insert, and what she has stored. */
  function WithInsert(db: Db, call: Call): Db
    requires call.SendCall? && call.send.Insert?
  {
    db.(requests := db.requests[call.send.ticket.requestId := NewRequest(call, call.send.ticket, BOB)])
  }

  lemma {:induction false} InsertIs(s: Sys, c: nat, client: nat, now: Time, q: Uuid, l: Uuid) returns (done: Call)
    requires Inv(s) && c in s.calls && AtInsert(s.calls[c], client, now) && Enabled(s, Exec(c, q, l))
    requires forall p | p in s.db.requests :: s.db.requests[p].clientRequestId != client
    ensures done.Done? && s.calls[c].send.ticket.requestId !in s.db.requests
    ensures Next(s.db, s.calls[c], s.clock, q, l) == (WithInsert(s.db, s.calls[c]), done)
    ensures Apply(s, Exec(c, q, l)) ==
            s.(db := WithInsert(s.db, s.calls[c]), calls := s.calls[c := done], used := s.used + {q, l})
  {
    var t := s.calls[c].send.ticket;
    done := Done(Submitted(t.requestId, t.leaseId, now + LEASE));
    Inserts(s, c, client, now, q, l);
    hide Inv, Next;
    ExecIs(s, c, q, l, WithInsert(s.db, s.calls[c]), done);
  }

  lemma StoredWithInsert(db: Db, call: Call, client: nat, now: Time)
    requires Stored(db.requests, client, now) && AtInsert(call, client, now) && (client == 0 ==> now == 0)
    requires call.send.ticket.requestId !in db.requests
    ensures Stored(WithInsert(db, call).requests, client + 1, now)
  {
    hide Stored;
    StoredGrows(db.requests, client, now, call.send.ticket.requestId, NewRequest(call, call.send.ticket, BOB));
  }

  lemma OtherClients(requests: Requests, inserted: nat, now: Time)
    requires Stored(requests, inserted, now)
    ensures forall p | p in requests :: requests[p].clientRequestId != inserted
  {
  }

  lemma SceneInsert(s: Sys, started: nat, inserted: nat, now: Time, q: Uuid, l: Uuid)
    requires Scene(s, started, inserted, now) && inserted < started && Enabled(s, Exec(inserted, q, l))
    ensures Scene(Apply(s, Exec(inserted, q, l)), started, inserted + 1, now)
  {
    hide ALICE_ACCOUNT, BOB_ACCOUNT, ALICE, BOB, ACCOUNTS, Inv, Stored, Next, Apply, AtInsert;
    OtherClients(s.db.requests, inserted, now);
    InvKept(s, Exec(inserted, q, l));
    IsAtInsert(s.calls[inserted], inserted, now);
    var done := InsertIs(s, inserted, inserted, now, q, l);
    StoredWithInsert(s.db, s.calls[inserted], inserted, now);
  }

  lemma IsAtInsert(call: Call, client: nat, now: Time)
    requires AtInsert(call, client, now)
    ensures call.SendCall? && call.send.Insert?
  {
  }

  lemma {:induction false} InsertOne(run: seq<Sys>, started: nat, inserted: nat, now: Time, k: nat)
    requires SceneRun(run, k, started, inserted, now) && inserted < started <= inserted + k
    ensures SceneReached(k, started, inserted + 1, now)
  {
    hide ALICE_ACCOUNT, BOB_ACCOUNT, ALICE, BOB, ACCOUNTS;
    var q, l := TwoFresh(Last(run).used);
    SceneInsert(Last(run), started, inserted, now, q, l);
    SceneOverlap(Apply(Last(run), Exec(inserted, q, l)), started, inserted + 1, now);
    hide Scene;
    var longer := ExtendWithin(run, Exec(inserted, q, l), k, 0);
    assert SceneRun(longer, k, started, inserted + 1, now);
  }

  // ---------------------------------------------------------------- the cap's bound is reached

  lemma {:induction false} Registered(k: nat)
    ensures SceneReached(k, 0, 0, 0)
  {
    var s := Sys(Db(map[], map[], map[]), 0, map[], {});
    var run := [s];
    assert Sends(s, ALICE) == {} && Renews(s, ALICE) == {};
    var e := Register(ALICE, ALICE_ACCOUNT);
    assert Sends(Apply(s, e), ALICE) == {} && Renews(Apply(s, e), ALICE) == {};
    run := ExtendWithin(run, e, k, 0);
    var f := Register(BOB, BOB_ACCOUNT);
    assert Sends(Apply(Last(run), f), ALICE) == {} && Renews(Apply(Last(run), f), ALICE) == {};
    run := ExtendWithin(run, f, k, 0);
    assert Last(run).db.accounts == ACCOUNTS;
    assert SceneRun(run, k, 0, 0, 0);
  }

  lemma SceneLater(s: Sys, now: Time)
    requires Scene(s, 1, 1, 0) && 0 <= now < LEASE
    ensures Scene(Apply(s, Tick(now)), 1, 1, now)
  {
    InvKept(s, Tick(now));
    hide Inv;
  }

  lemma {:induction false} FirstSend(now: Time, k: nat)
    requires k > 0 && 0 <= now < LEASE
    ensures SceneReached(k, 1, 1, now)
  {
    hide SceneRun;
    Registered(k);
    var run :| SceneRun(run, k, 0, 0, 0);
    StartOne(run, 0, 0, 0, k);
    run :| SceneRun(run, k, 1, 0, 0);
    InsertOne(run, 1, 0, 0, k);
    run :| SceneRun(run, k, 1, 1, 0);
    WaitUntil(run, now, k);
  }

  lemma {:induction false} WaitUntil(run: seq<Sys>, now: Time, k: nat)
    requires SceneRun(run, k, 1, 1, 0) && k > 0 && 0 <= now < LEASE
    ensures SceneReached(k, 1, 1, now)
  {
    SceneLater(Last(run), now);
    SceneOverlap(Apply(Last(run), Tick(now)), 1, 1, now);
    assert Enabled(Last(run), Tick(now));
    hide Scene;
    var longer := ExtendWithin(run, Tick(now), k, 0);
    assert SceneRun(longer, k, 1, 1, now);
  }

  /** Sends one at a time, the first at 0 and the others at `now`, until there are `n` requests. */
  lemma {:induction false} OneByOne(n: nat, now: Time, k: nat)
    requires 0 < n <= ACTIVE_LIMIT && k > 0 && 0 <= now < LEASE
    ensures SceneReached(k, n, n, now)
  {
    hide SceneRun;
    if n == 1 {
      FirstSend(now, k);
    } else {
      OneByOne(n - 1, now, k);
      var run :| SceneRun(run, k, n - 1, n - 1, now);
      StartOne(run, n - 1, n - 1, now, k);
      run :| SceneRun(run, k, n, n - 1, now);
      InsertOne(run, n, n - 1, now, k);
    }
  }

  /** Then `n` sends at once, up to their inserts. */
  lemma {:induction false} Together(n: nat, k: nat)
    requires n <= k && k > 0
    ensures SceneReached(k, 24 + n, 24, 0)
  {
    hide SceneRun;
    if n == 0 {
      OneByOne(24, 0, k);
    } else {
      Together(n - 1, k);
      var run :| SceneRun(run, k, 24 + n - 1, 24, 0);
      StartOne(run, 24 + n - 1, 24, 0, k);
    }
  }

  lemma {:induction false} AllInsert(n: nat, k: nat)
    requires n <= k && k > 0
    ensures SceneReached(k, 24 + k, 24 + n, 0)
  {
    hide SceneRun;
    if n == 0 {
      Together(k, k);
    } else {
      AllInsert(n - 1, k);
      var run :| SceneRun(run, k, 24 + k, 24 + n - 1, 0);
      InsertOne(run, 24 + k, 24 + n - 1, 0, k);
    }
  }

  /** For every k > 0 a run with at most k overlapping sends, and no renews at all, reaches 24 + k active requests. */
  lemma {:induction false} BoundReached(k: nat) returns (run: seq<Sys>)
    requires k > 0
    ensures IsRun(run) && OverlapAtMost(run, ALICE, k, 0)
    ensures |ActiveOf(Last(run).db.requests, ALICE, Last(run).clock)| == ACTIVE_LIMIT - 1 + k
  {
    AllInsert(k, k);
    run :| SceneRun(run, k, 24 + k, 24 + k, 0);
    hide IsRun, OverlapAtMost;
    assert ActiveOf(Last(run).db.requests, ALICE, 0) == Last(run).db.requests.Keys;
  }

  /** At most `k` sends of the account overlap, and its renews run back to back. */
  ghost predicate SendsOverlap(run: seq<Sys>, a: AccountId, k: nat) {
    IsRun(run) && RenewsAlone(run, a) && forall i | 0 <= i < |run| :: |Sends(run[i], a)| <= k
  }

  ghost predicate ActiveAtMost(run: seq<Sys>, a: AccountId, bound: int) {
    forall i | 0 <= i < |run| :: |ActiveOf(run[i].db.requests, a, run[i].clock)| <= bound
  }

  lemma NoRenewsAlone(run: seq<Sys>, a: AccountId, k: nat)
    requires OverlapAtMost(run, a, k, 0)
    ensures RenewsAlone(run, a)
  {
    forall i | 0 <= i < |run|
      ensures Renewing(run[i], a) == {}
    {
      SubsetSize(Renewing(run[i], a), Renews(run[i], a));
    }
  }

  /**
    The exact cap: over all runs in which at most `k` sends of an account overlap and its renews run back to back,
    with anything else interleaved, 24 + k is the least bound on the account's active requests.
   */
  lemma CapExact(k: nat, bound: int)
    requires k > 0
    ensures (forall run: seq<Sys>, a: AccountId | SendsOverlap(run, a, k) :: ActiveAtMost(run, a, bound))
       <==> bound >= ACTIVE_LIMIT - 1 + k
  {
    if bound >= ACTIVE_LIMIT - 1 + k {
      forall run: seq<Sys>, a: AccountId | SendsOverlap(run, a, k)
        ensures ActiveAtMost(run, a, bound)
      {
        forall i | 0 <= i < |run|
          ensures |ActiveOf(run[i].db.requests, a, run[i].clock)| <= bound
        {
          SendsBounded(run, a, k, i);
        }
      }
    } else {
      var run := BoundReached(k);
      NoRenewsAlone(run, ALICE, k);
      assert SendsOverlap(run, ALICE, k);
      assert !ActiveAtMost(run, ALICE, bound);
    }
  }

  /** So the documented limit of 25 is kept in every such run exactly if no two sends of an account ever overlap. */
  lemma LimitKeptExactly(k: nat)
    ensures (forall run: seq<Sys>, a: AccountId | SendsOverlap(run, a, k) :: ActiveAtMost(run, a, ACTIVE_LIMIT))
       <==> k <= 1
  {
    if k > 0 {
      CapExact(k, ACTIVE_LIMIT);
    } else {
      forall run: seq<Sys>, a: AccountId | SendsOverlap(run, a, k)
        ensures ActiveAtMost(run, a, ACTIVE_LIMIT)
      {
        assert SendsOverlap(run, a, 1);
        CapExact(1, ACTIVE_LIMIT);
      }
    }
  }

  // ---------------------------------------------------------------- a renew in between revives a request

  /** Alice's renew, as call 25, and her 26th send, as call 26, are under way on tables `db`; other sends are done. */
  ghost predicate Duo(s: Sys, db: Db, clock: Time, renew: Call, send: Call) {
    Inv(s) && s.db == db && s.clock == clock && (forall c: nat :: c in s.calls <==> c <= 26) &&
    (forall c: nat | c < 25 :: s.calls[c].Done?) && s.calls[25] == renew && s.calls[26] == send &&
    !renew.SendCall? && !send.RenewCall?
  }

  ghost predicate DuoRun(run: seq<Sys>) {
    IsRun(run) && OverlapAtMost(run, ALICE, 1, 1)
  }

  lemma DuoOverlap(s: Sys, db: Db, clock: Time, renew: Call, send: Call)
    requires Duo(s, db, clock, renew, send)
    ensures OverlapIn(s, 1, 1)
  {
    SubsetSize(Sends(s, ALICE), {26});
    SubsetSize(Renews(s, ALICE), {25});
  }

  lemma {:induction false} DuoTick(run: seq<Sys>, db: Db, clock: Time, renew: Call, send: Call, later: Time)
    returns (longer: seq<Sys>)
    requires DuoRun(run) && Duo(Last(run), db, clock, renew, send) && clock <= later
    ensures DuoRun(longer) && Continues(run, longer) && Duo(Last(longer), db, later, renew, send)
  {
    InvKept(Last(run), Tick(later));
    hide Inv;
    DuoOverlap(Apply(Last(run), Tick(later)), db, later, renew, send);
    longer := ExtendWithin(run, Tick(later), 1, 1);
  }

  /** The renew takes a statement. */
  lemma {:induction false} DuoRenew(run: seq<Sys>, db: Db, clock: Time, renew: Call, send: Call, after: Db, next: Call)
    returns (longer: seq<Sys>)
    requires DuoRun(run) && Duo(Last(run), db, clock, renew, send) && renew.RenewCall?
    requires RenewNext(db, renew, clock) == (after, next)
    ensures DuoRun(longer) && Continues(run, longer) && Duo(Last(longer), after, clock, next, send)
  {
    hide ALICE_ACCOUNT, BOB_ACCOUNT, ALICE, BOB, ACCOUNTS;
    var q, l := TwoFresh(Last(run).used);
    InvKept(Last(run), Exec(25, q, l));
    hide Inv, SendNext, OverlapAtMost, IsRun;
    DuoOverlap(Apply(Last(run), Exec(25, q, l)), after, clock, next, send);
    longer := ExtendWithin(run, Exec(25, q, l), 1, 1);
    assert Continues(run, longer);
  }

  lemma StaysSend(db: Db, call: Call, now: Time, q: Uuid, l: Uuid)
    requires call.SendCall?
    ensures !Next(db, call, now, q, l).1.RenewCall?
  {
  }

  /** The send takes a statement. */
  lemma {:induction false} DuoSend(run: seq<Sys>, db: Db, clock: Time, renew: Call, send: Call, q: Uuid, l: Uuid,
                                   after: Db, next: Call)
    returns (longer: seq<Sys>)
    requires DuoRun(run) && Duo(Last(run), db, clock, renew, send) && send.SendCall?
    requires Enabled(Last(run), Exec(26, q, l)) && Next(db, send, clock, q, l) == (after, next)
    ensures DuoRun(longer) && Continues(run, longer) && Duo(Last(longer), after, clock, renew, next)
  {
    hide ALICE_ACCOUNT, BOB_ACCOUNT, ALICE, BOB, ACCOUNTS;
    StaysSend(db, send, clock, q, l);
    hide Inv, Next, OverlapAtMost, IsRun;
    InvKept(Last(run), Exec(26, q, l));
    DuoOverlap(Apply(Last(run), Exec(26, q, l)), after, clock, renew, next);
    longer := ExtendWithin(run, Exec(26, q, l), 1, 1);
    assert Continues(run, longer);
  }

  /** The send goes on until `last` statements are left before its insert. */
  lemma {:induction false} DuoAdvance(run: seq<Sys>, db: Db, clock: Time, renew: Call, point: SendPoint, last: nat)
    returns (longer: seq<Sys>, after: SendPoint)
    requires DuoRun(run) && Duo(Last(run), db, clock, renew, Sending(25, point))
    requires Alices(point, clock) && last <= Remaining(point)
    requires forall p | Alices(p, clock) && last < Remaining(p) <= Remaining(point) :: Unhindered(db, 25, p, clock)
    ensures DuoRun(longer) && Continues(run, longer) && Duo(Last(longer), db, clock, renew, Sending(25, after))
    ensures Alices(after, clock) && Remaining(after) == last
    decreases Remaining(point)
  {
    hide ALICE_ACCOUNT, BOB_ACCOUNT, ALICE, BOB, ACCOUNTS;
    longer, after := run, point;
    if last < Remaining(point) {
      assert Unhindered(db, 25, point, clock);
      var q, l := TwoFresh(Last(run).used);
      assert Enabled(Last(run), Exec(26, q, l));
      Advances(db, 25, point, clock, q, l);
      hide Unhindered, Duo, IsRun, OverlapAtMost, Next, Enabled;
      var following := Following(point, clock, q, l);
      var next := DuoSend(run, db, clock, renew, Sending(25, point), q, l, db, Sending(25, following));
      longer, after := DuoAdvance(next, db, clock, renew, following, last);
      ContinuesTwice(run, next, longer);
    }
  }

  /** Alice's 25 requests, of which one was stored earlier than the others. */
  ghost predicate Full(db: Db, q: Uuid) {
    db.accounts == ACCOUNTS && db.blocks == map[] && Stored(db.requests, 25, 1) && q in db.requests &&
    db.requests[q].clientRequestId == 0 && TablesOk(db, 1)
  }

  lemma StartOverlap(s: Sys, renew: Call)
    requires Scene(s, 25, 25, 1) && renew.RenewCall?
    ensures OverlapIn(s.(calls := s.calls[25 := renew]), 1, 1)
  {
    SubsetSize(Sends(s.(calls := s.calls[25 := renew]), ALICE), {});
    SubsetSize(Renews(s.(calls := s.calls[25 := renew]), ALICE), {25});
  }

  lemma StartDuo(s: Sys, renew: Call, send: Call)
    requires Scene(s, 25, 25, 1) && Initial(renew) && renew.RenewCall? && Initial(send) && send.SendCall?
    ensures Enabled(s, Start(25, renew)) && Enabled(Apply(s, Start(25, renew)), Start(26, send))
    ensures Duo(Apply(Apply(s, Start(25, renew)), Start(26, send)), s.db, 1, renew, send)
  {
    hide ALICE_ACCOUNT, BOB_ACCOUNT, ALICE, BOB, ACCOUNTS;
    InvKept(s, Start(25, renew));
    InvKept(Apply(s, Start(25, renew)), Start(26, send));
    hide Inv, Stored;
  }

  /** A run to the renew of the earliest request and the 26th send at these points, on the tables with 25 requests. */
  ghost predicate RenewAt(run: seq<Sys>, db: Db, q: Uuid, clock: Time, renew: RenewPoint, send: SendPoint) {
    |run| > 0 && q in db.requests && Full(db, q) && DuoRun(run) &&
    Duo(Last(run), db, clock, RenewCall(ALICE, q, db.requests[q].leaseId, renew), Sending(25, send))
  }

  ghost predicate RenewReached(clock: Time, renew: RenewPoint, send: SendPoint) {
    exists run, db, q :: RenewAt(run, db, q, clock, renew, send)
  }

  lemma {:induction false} SceneFull(s: Sys)
    requires Scene(s, 25, 25, 1)
    ensures exists q :: q in s.db.requests && Full(s.db, q)
  {
    var q :| q in s.db.requests && s.db.requests[q].clientRequestId == 0;
    assert Full(s.db, q);
  }

  lemma {:induction false} DuoStarts()
    ensures RenewReached(1, RenewPurge, SendPurge)
  {
    hide ALICE_ACCOUNT, BOB_ACCOUNT, ALICE, BOB, ACCOUNTS, Scene, Full, Inv, IsRun, Apply, Enabled, Duo;
    OneByOne(25, 1, 1);
    var run :| SceneRun(run, 1, 25, 25, 1);
    var db := Last(run).db;
    SceneFull(Last(run));
    var q :| q in db.requests && Full(db, q);
    var renew, send := RenewCall(ALICE, q, db.requests[q].leaseId, RenewPurge), Sending(25, SendPurge);
    StartOverlap(Last(run), renew);
    StartDuo(Last(run), renew, send);
    StartIs(Last(run), 25, renew);
    var one := ExtendWithin(run, Start(25, renew), 1, 1);
    DuoOverlap(Apply(Last(one), Start(26, send)), db, 1, renew, send);
    var two := ExtendWithin(one, Start(26, send), 1, 1);
    assert RenewAt(two, db, q, 1, RenewPurge, SendPurge);
  }

  lemma StartIs(s: Sys, c: nat, call: Call)
    requires Enabled(s, Start(c, call))
    ensures Apply(s, Start(c, call)) == s.(calls := s.calls[c := call])
  {
  }

  /** The renew passes its SELECT. */
  lemma {:induction false} Selects(run: seq<Sys>, db: Db, q: Uuid)
    requires RenewAt(run, db, q, 1, RenewPurge, SendPurge)
    ensures exists longer :: RenewAt(longer, db, q, 1, StampLease(HARD_LIFE), SendPurge)
  {
    var renew, send := RenewCall(ALICE, q, db.requests[q].leaseId, RenewPurge), Sending(25, SendPurge);
    var select, stamp := renew.(renew := SelectLease), renew.(renew := StampLease(HARD_LIFE));
    assert Purged(db.requests, 1) == db.requests;
    hide Duo, DuoRun, TablesOk;
    var longer := DuoRenew(run, db, 1, renew, send, db, select);
    longer := DuoRenew(longer, db, 1, select, send, db, stamp);
    assert RenewAt(longer, db, q, 1, StampLease(HARD_LIFE), SendPurge);
  }

  lemma NotYetLapsed(db: Db, q: Uuid, p: SendPoint)
    requires Full(db, q) && Alices(p, 1) && 4 < Remaining(p) <= 7
    ensures Unhindered(db, 25, p, 1)
  {
    StoredUnhindered(db, 25, 25, p, 1);
  }

  /** At the end of the earliest lease, with the renew past its SELECT and the send about to count. */
  lemma {:induction false} Lapses()
    ensures RenewReached(LEASE, StampLease(HARD_LIFE), CountActive([0]))
  {
    hide ALICE_ACCOUNT, BOB_ACCOUNT, ALICE, BOB, ACCOUNTS;
    hide Duo, DuoRun, Full, Unhindered;
    DuoStarts();
    var run, db, q :| RenewAt(run, db, q, 1, RenewPurge, SendPurge);
    Selects(run, db, q);
    run :| RenewAt(run, db, q, 1, StampLease(HARD_LIFE), SendPurge);
    var stamp := RenewCall(ALICE, q, db.requests[q].leaseId, StampLease(HARD_LIFE));
    forall p | Alices(p, 1) && 4 < Remaining(p) <= 7
      ensures Unhindered(db, 25, p, 1)
    {
      NotYetLapsed(db, q, p);
    }
    var counting, point := DuoAdvance(run, db, 1, stamp, SendPurge, 4);
    assert point == CountActive([0]);
    var lapsed := DuoTick(counting, db, 1, stamp, Sending(25, point), LEASE);
    assert RenewAt(lapsed, db, q, LEASE, StampLease(HARD_LIFE), CountActive([0]));
  }

  lemma OneLapsed(db: Db, q: Uuid, p: SendPoint)
    requires Full(db, q) && Alices(p, LEASE) && 0 < Remaining(p) <= 4
    ensures !Active(db.requests[q], LEASE) && Unhindered(db, 25, p, LEASE)
  {
    SubsetSize(ActiveOf(db.requests, ALICE, LEASE), db.requests.Keys - {q});
    assert |db.requests.Keys - {q}| == 24;
  }

  /** The tables with a 26th request, stored at the end of the earliest lease. */
  ghost predicate Latecomer(db: Db, after: Db, r: Uuid) {
    after.accounts == ACCOUNTS && r !in db.requests && after.requests.Keys == db.requests.Keys + {r} &&
    (forall p | p in db.requests :: after.requests[p] == db.requests[p]) &&
    after.requests[r].sender == ALICE && after.requests[r].leaseExpiresAt == LEASE + LEASE &&
    after.requests[r].hardExpiresAt == LEASE + HARD_LIFE
  }

  lemma {:induction false} DuoInserts(run: seq<Sys>, db: Db, q: Uuid, renew: Call, point: SendPoint)
    returns (longer: seq<Sys>, after: Db, next: Call)
    requires DuoRun(run) && Duo(Last(run), db, LEASE, renew, Sending(25, point)) && Full(db, q)
    requires Alices(point, LEASE) && point.Insert?
    ensures DuoRun(longer) && Continues(run, longer) && Duo(Last(longer), after, LEASE, renew, next)
    ensures Latecomer(db, after, point.ticket.requestId)
  {
    var s := Last(run);
    var p, l := TwoFresh(s.used);
    OtherClients(db.requests, 25, 1);
    assert s.calls[26] == Sending(25, point) && AtInsert(s.calls[26], 25, LEASE) && s.db == db;
    assert Enabled(s, Exec(26, p, l));
    hide ALICE_ACCOUNT, BOB_ACCOUNT, ALICE, BOB, ACCOUNTS, Inv, Stored, Next, Apply, DuoRun, Enabled, Duo, AtInsert;
    next := DuoInserted(s, db, renew, point, p, l);
    after := WithInsert(db, Sending(25, point));
    LatecomerStored(db, q, point);
    longer := DuoSend(run, db, LEASE, renew, Sending(25, point), p, l, after, next);
  }

  lemma {:induction false} DuoInserted(s: Sys, db: Db, renew: Call, point: SendPoint, p: Uuid, l: Uuid)
    returns (next: Call)
    requires Duo(s, db, LEASE, renew, Sending(25, point)) && Enabled(s, Exec(26, p, l))
    requires Alices(point, LEASE) && point.Insert?
    requires forall r | r in db.requests :: db.requests[r].clientRequestId != 25
    ensures Next(db, Sending(25, point), LEASE, p, l) == (WithInsert(db, Sending(25, point)), next)
    ensures point.ticket.requestId !in db.requests
  {
    hide Inv, Next, Apply;
    next := InsertIs(s, 26, 25, LEASE, p, l);
  }

  lemma LatecomerStored(db: Db, q: Uuid, point: SendPoint)
    requires Full(db, q) && Alices(point, LEASE) && point.Insert? && point.ticket.requestId !in db.requests
    ensures Latecomer(db, WithInsert(db, Sending(25, point)), point.ticket.requestId)
  {
    hide Stored, TablesOk;
  }

  /** The request is on Bob's list. */
  ghost predicate OnBobsList(db: Db, now: Time, q: Uuid) {
    exists entry :: entry in ListedFor(db, BOB, now) && entry.requestId == q
  }

  /** The renew's last two statements. */
  lemma {:induction false} DuoUpdates(run: seq<Sys>, db: Db, q: Uuid, l: Uuid, send: Call)
    returns (longer: seq<Sys>, renew: Call)
    requires DuoRun(run) && Duo(Last(run), db, LEASE, RenewCall(ALICE, q, l, StampLease(HARD_LIFE)), send)
    ensures DuoRun(longer) && Continues(run, longer)
    ensures Duo(Last(longer), db.(requests := WithLease(db.requests, q, LEASE + LEASE)), LEASE, renew, send)
  {
    var stamp := RenewCall(ALICE, q, l, StampLease(HARD_LIFE));
    var update := stamp.(renew := UpdateLease(LEASE + LEASE));
    hide Duo, DuoRun, Continues;
    var stamped := DuoRenew(run, db, LEASE, stamp, send, db, update);
    var final := db.(requests := WithLease(db.requests, q, LEASE + LEASE));
    renew := Done(Renewed(q, l, LEASE + LEASE));
    longer := DuoRenew(stamped, db, LEASE, update, send, final, renew);
    ContinuesTwice(run, stamped, longer);
  }

  /** From the lapse on: the send stores its request, and the renew's UPDATE goes through. */
  lemma {:induction false} DuoEnds(lapsed: seq<Sys>, db: Db, q: Uuid)
    returns (revived: seq<Sys>, after: Db, r: Uuid, renew: Call, send: Call)
    requires Full(db, q) && DuoRun(lapsed)
    requires Duo(Last(lapsed), db, LEASE, RenewCall(ALICE, q, db.requests[q].leaseId, StampLease(HARD_LIFE)),
                 Sending(25, CountActive([0])))
    ensures DuoRun(revived) && Continues(lapsed, revived)
    ensures Duo(Last(revived), after.(requests := WithLease(after.requests, q, LEASE + LEASE)), LEASE, renew, send)
    ensures Latecomer(db, after, r)
  {
    hide ALICE_ACCOUNT, BOB_ACCOUNT, ALICE, BOB, ACCOUNTS;
    var l := db.requests[q].leaseId;
    var stamp := RenewCall(ALICE, q, l, StampLease(HARD_LIFE));
    forall p | Alices(p, LEASE) && 0 < Remaining(p) <= 4
      ensures Unhindered(db, 25, p, LEASE)
    {
      OneLapsed(db, q, p);
    }
    hide Duo, DuoRun, Continues, Unhindered, Latecomer, WithLease;
    var inserting, point := DuoAdvance(lapsed, db, LEASE, stamp, CountActive([0]), 0);
    var inserted;
    inserted, after, send := DuoInserts(inserting, db, q, stamp, point);
    ContinuesTwice(lapsed, inserting, inserted);
    r := point.ticket.requestId;
    revived, renew := DuoUpdates(inserted, after, q, l, send);
    ContinuesTwice(lapsed, inserted, revived);
  }

  lemma AllActive(db: Db, q: Uuid, after: Db, r: Uuid)
    requires Full(db, q) && Latecomer(db, after, r)
    ensures var final := after.(requests := WithLease(after.requests, q, LEASE + LEASE));
            |ActiveOf(final.requests, ALICE, LEASE)| == 26 && OnBobsList(final, LEASE, q)
  {
    var final := after.(requests := WithLease(after.requests, q, LEASE + LEASE));
    assert forall p | p in db.requests :: OfAlice(db.requests[p], 25, 1);
    assert |db.requests| == 25;
    hide Full, Stored, TablesOk;
    AllOf(db, q, after, r);
    hide ActiveOf;
    ActiveIsListed(final, LEASE, q);
  }

  lemma AllOf(db: Db, q: Uuid, after: Db, r: Uuid)
    requires q in db.requests && db.requests[q].clientRequestId == 0 && Latecomer(db, after, r)
    requires |db.requests| == 25 && forall p | p in db.requests :: OfAlice(db.requests[p], 25, 1)
    requires forall p | p in db.requests && p != q :: db.requests[p].clientRequestId != 0
    ensures |ActiveOf(WithLease(after.requests, q, LEASE + LEASE), ALICE, LEASE)| == 26
  {
    var requests := WithLease(after.requests, q, LEASE + LEASE);
    assert requests.Keys == db.requests.Keys + {r};
    assert forall p | p in requests :: Active(requests[p], LEASE) && requests[p].sender == ALICE;
    assert ActiveOf(requests, ALICE, LEASE) == requests.Keys;
  }

  lemma ActiveIsListed(db: Db, now: Time, q: Uuid)
    requires q in db.requests && db.requests[q].recipient == BOB && Active(db.requests[q], now)
    requires db.requests[q].sender in db.accounts
    ensures OnBobsList(db, now, q)
  {
    assert Entry(db.accounts, q, db.requests[q]) in ListedFor(db, BOB, now);
  }

  /**
    What a renew can do in between. In the run `lapsed` Alice's request `q` has run out, a renew of it is past its
    SELECT, and a send of hers is about to count 24 active requests. Going on, the send's request is stored and then
    the renew's UPDATE brings `q` back onto Bob's list, which makes 26 active requests with one send and one renew
    overlapping. A purge instead would have removed `q`.
   */
  lemma {:induction false} RenewRevives() returns (lapsed: seq<Sys>, revived: seq<Sys>, q: Uuid)
    ensures Continues(lapsed, revived) && OverlapAtMost(revived, ALICE, 1, 1)
    ensures q in Last(lapsed).db.requests && q !in Apply(Last(lapsed), Sweep).db.requests
    ensures !OnBobsList(Last(lapsed).db, Last(lapsed).clock, q) && OnBobsList(Last(revived).db, Last(revived).clock, q)
    ensures |ActiveOf(Last(revived).db.requests, ALICE, Last(revived).clock)| == 26
  {
    var db, after, r, renew, send;
    Lapses();
    lapsed, db, q :| RenewAt(lapsed, db, q, LEASE, StampLease(HARD_LIFE), CountActive([0]));
    revived, after, r, renew, send := DuoEnds(lapsed, db, q);
    var final := after.(requests := WithLease(after.requests, q, LEASE + LEASE));
    assert Last(lapsed).db == db && Last(revived).db == final && Last(lapsed).clock == Last(revived).clock == LEASE;
    OneLapsed(db, q, CountActive([0]));
    NotListed(Last(lapsed), q);
    AllActive(db, q, after, r);
    hide Duo, Latecomer, WithLease, ActiveOf, OnBobsList, Inv, IsRun, Apply, OverlapAtMost, Stored, TablesOk;
  }

  lemma NotListed(s: Sys, q: Uuid)
    requires q in s.db.requests && !Active(s.db.requests[q], s.clock)
    ensures !OnBobsList(s.db, s.clock, q) && q !in Apply(s, Sweep).db.requests
  {
  }

  // ---------------------------------------------------------------- a send overtakes a block

  function Blocking(point: BlockPoint): Call {
    BlockCall(BOB, "alice", point)
  }

  function AfterBlock(point: BlockPoint): Call {
    match point
    case LookupTarget => Blocking(StampBlock(ALICE, "alice"))
    case StampBlock(a, name) => Blocking(InsertBlock(a, name, 0))
    case InsertBlock(a, name, _) => Blocking(DeletePair(a, name))
    case DeletePair(a, name) => Blocking(ReadBlock(a, name))
    case ReadBlock(a, name) => Done(Blocked(a, name, 0))
  }

  function BlockRemaining(call: Call): nat {
    if !call.BlockCall? then 0 else
    match call.block
    case LookupTarget => 5 case StampBlock(_, _) => 4 case InsertBlock(_, _, _) => 3
    case DeletePair(_, _) => 2 case ReadBlock(_, _) => 1
  }

  predicate OnAlice(call: Call) {
    call == Done(Blocked(ALICE, "alice", 0)) ||
    (call.BlockCall? && call == Blocking(call.block) &&
     match call.block
     case LookupTarget => true
     case StampBlock(a, name) => a == ALICE && name == "alice"
     case InsertBlock(a, name, at) => a == ALICE && name == "alice" && at == 0
     case DeletePair(a, name) => a == ALICE && name == "alice"
     case ReadBlock(a, name) => a == ALICE && name == "alice")
  }

  /** Alice's send waits at its insert while Bob's block of her goes through. */
  ghost predicate Waiting(s: Sys, block: Call) {
    s.clock == 0 && s.db.accounts == ACCOUNTS && s.db.requests == map[] && Inv(s) &&
    s.calls.Keys == {0, 1} && AtInsert(s.calls[0], 0, 0) && s.calls[1] == block && OnAlice(block) &&
    s.db.blocks == (if block.Done? || block.block.DeletePair? || block.block.ReadBlock? then map[(BOB, ALICE) := 0]
                    else map[])
  }

  lemma BlockAdvances(db: Db, point: BlockPoint, q: Uuid, l: Uuid)
    requires db.accounts == ACCOUNTS && db.requests == map[] && OnAlice(Blocking(point))
    requires db.blocks == (if point.DeletePair? || point.ReadBlock? then map[(BOB, ALICE) := 0] else map[])
    ensures var (after, next) := Next(db, Blocking(point), 0, q, l);
            next == AfterBlock(point) && after.accounts == ACCOUNTS && after.requests == map[] &&
            after.blocks == (if point.LookupTarget? || point.StampBlock? then map[] else map[(BOB, ALICE) := 0])
  {
    assert ACCOUNTS[ALICE].identitty == "alice";
  }

  ghost predicate WaitingRun(run: seq<Sys>, block: Call) {
    |run| > 0 && IsRun(run) && Waiting(Last(run), block)
  }

  ghost predicate BlockReached(block: Call) {
    exists run :: WaitingRun(run, block)
  }

  lemma {:induction false} BlockReturns(run: seq<Sys>, block: Call)
    requires WaitingRun(run, block)
    ensures BlockReached(Done(Blocked(ALICE, "alice", 0)))
    decreases BlockRemaining(block)
  {
    if block.Done? {
      assert WaitingRun(run, Done(Blocked(ALICE, "alice", 0)));
    } else {
      var s := Last(run);
      var q, l := TwoFresh(s.used);
      BlockAdvances(s.db, block.block, q, l);
      InvKept(s, Exec(1, q, l));
      var longer := Extend(run, Exec(1, q, l));
      hide Inv, Next, IsRun;
      assert WaitingRun(longer, AfterBlock(block.block));
      BlockReturns(longer, AfterBlock(block.block));
    }
  }

  /** A block that has returned and is in force, and a request it should have kept out, stored and listed. */
  ghost predicate Overtaken(s: Sys, t: Sys, q: Uuid) {
    1 in s.calls && s.calls[1] == Done(Blocked(ALICE, "alice", 0)) && InForce(s, BOB, ALICE) && q !in s.db.requests &&
    InForce(t, BOB, ALICE) && q in t.db.requests &&
    t.db.requests[q].sender == ALICE && t.db.requests[q].recipient == BOB && Active(t.db.requests[q], t.clock) &&
    ALICE in t.db.accounts && Entry(t.db.accounts, q, t.db.requests[q]) in ListedFor(t.db, BOB, t.clock)
  }

  lemma WaitingInserts(s: Sys, q: Uuid, l: Uuid)
    requires Waiting(s, Done(Blocked(ALICE, "alice", 0))) && Enabled(s, Exec(0, q, l))
    ensures Overtaken(s, Apply(s, Exec(0, q, l)), s.calls[0].send.ticket.requestId)
  {
    assert CallOk(s, s.calls[0]);
    InsertRefusedExactly(s, 0);
    hide Inv, InsertRefused;
  }

  lemma {:induction false} BlockBegins(s: Sys)
    requires Scene(s, 1, 0, 0)
    ensures Enabled(s, Start(1, Blocking(LookupTarget)))
    ensures Waiting(Apply(s, Start(1, Blocking(LookupTarget))), Blocking(LookupTarget))
  {
    InvKept(s, Start(1, Blocking(LookupTarget)));
    hide Inv;
    assert s.db.requests == map[];
  }

  lemma {:induction false} BlockStarts()
    ensures BlockReached(Blocking(LookupTarget))
  {
    hide Scene, Waiting, IsRun, OverlapAtMost;
    Registered(1);
    var run :| SceneRun(run, 1, 0, 0, 0);
    StartOne(run, 0, 0, 0, 1);
    run :| SceneRun(run, 1, 1, 0, 0);
    BlockBegins(Last(run));
    run := Extend(run, Start(1, Blocking(LookupTarget)));
    assert WaitingRun(run, Blocking(LookupTarget));
  }

  /**
    Blocking does not keep out every request of the blocked sender: in this run Bob's block of Alice has returned
    and stays in force, and the next statement stores her request, active and on Bob's list.
   */
  lemma {:induction false} SendOvertakesBlock() returns (run: seq<Sys>, q: Uuid)
    ensures IsRun(run) && |run| > 1 && Overtaken(run[|run|-2], run[|run|-1], q)
  {
    hide Waiting, IsRun, Overtaken, Enabled, Apply, Next, Inv;
    WaitsThrough();
    var waits :| WaitingRun(waits, Done(Blocked(ALICE, "alice", 0)));
    var s := Last(waits);
    WaitingSend(s);
    var p, l := TwoFresh(s.used);
    q := s.calls[0].send.ticket.requestId;
    WaitingInserts(s, p, l);
    run := Extend(waits, Exec(0, p, l));
    assert run[|run|-2] == s && run[|run|-1] == Apply(s, Exec(0, p, l));
  }

  /** The run in which the block has returned while the send waits. */
  lemma {:induction false} WaitsThrough()
    ensures BlockReached(Done(Blocked(ALICE, "alice", 0)))
  {
    hide WaitingRun;
    BlockStarts();
    var run :| WaitingRun(run, Blocking(LookupTarget));
    BlockReturns(run, Blocking(LookupTarget));
  }

  lemma {:induction false} WaitingSend(s: Sys)
    requires Waiting(s, Done(Blocked(ALICE, "alice", 0)))
    ensures 0 in s.calls && s.calls[0].SendCall? && s.calls[0].send.Insert?
    ensures forall p, l | p !in s.used && l !in s.used && p != l :: Enabled(s, Exec(0, p, l))
  {
  }
}
