/**
  The direct-chat resolvers as imperative code over the tables: each method runs its SQL statements in order
  and is proved to have the outcome of ChatResolvers. The clock reading and the fresh UUIDs are parameters.
 */
module ChatService {
  import opened Prelude
  import opened ChatStore
  import opened ChatResolvers
  import Timestamps

  /** The unique columns of the accounts table. */
  ghost predicate ColumnsUnique(accounts: map<AccountId, Account>) {
    NamesUnique(accounts) &&
    (forall a, b | a in accounts && b in accounts && accounts[a].publicKey == accounts[b].publicKey :: a == b)
  }

  lemma ColumnsStayUnique(accounts: map<AccountId, Account>, id: AccountId, account: Account)
    requires ColumnsUnique(accounts) && AccountFree(accounts, id, account)
    ensures ColumnsUnique(accounts[id := account])
  {
  }

  ghost predicate OldestFirst(rows: seq<Listing>) {
    forall i, j | 0 <= i < j < |rows| :: rows[i].createdAt <= rows[j].createdAt
  }

  /** ORDER BY created_at compares the stored texts. */
  ghost predicate InTextOrder(rows: seq<Listing>)
    requires forall i | 0 <= i < |rows| :: Timestamps.InRange(rows[i].createdAt)
  {
    forall i, j | 0 <= i < j < |rows| ::
      !Timestamps.TextLess(Timestamps.Text(rows[j].createdAt), Timestamps.Text(rows[i].createdAt))
  }

  /** In the years 0 to 9999, ordering by the stored text is ordering by time. */
  lemma TextOrderIsOldestFirst(rows: seq<Listing>)
    requires forall i | 0 <= i < |rows| :: Timestamps.InRange(rows[i].createdAt)
    ensures InTextOrder(rows) <==> OldestFirst(rows)
  {
    forall i, j | 0 <= i < j < |rows|
      ensures Timestamps.TextLess(Timestamps.Text(rows[j].createdAt), Timestamps.Text(rows[i].createdAt)) <==>
              rows[j].createdAt < rows[i].createdAt
    {
      Timestamps.TextOrder(rows[j].createdAt, rows[i].createdAt);
    }
  }

  /** The row shows the stored request, live at `now`, to its recipient. */
  predicate ShowsStored(row: Listing, db: Db, recipient: AccountId, now: Time) {
    row.requestId in db.requests &&
    var r := db.requests[row.requestId];
    r.recipient == recipient && now < r.leaseExpiresAt && now < r.hardExpiresAt && r.sender in db.accounts &&
    Displays(row, row.requestId, r, db.accounts[r.sender].identitty, r.leaseExpiresAt)
  }

  /** Every live request to the recipient has its row, and only one. */
  ghost predicate ListsAll(rows: seq<Listing>, db: Db, recipient: AccountId, now: Time) {
    (forall i, j | 0 <= i < j < |rows| :: rows[i].requestId != rows[j].requestId) &&
    forall q | q in db.requests && db.requests[q].recipient == recipient && Active(db.requests[q], now) ::
      exists row :: row in rows && row.requestId == q
  }

  class Service {
    var accounts: map<AccountId, Account>
    var blocks: Blocks
    var requests: Requests
    ghost var clock: Time

    function Tables(): Db
      reads this
    {
      Db(accounts, blocks, requests)
    }

    ghost predicate Valid()
      reads this
    {
      ChatResolvers.Valid(Tables(), clock) && ColumnsUnique(accounts)
    }

    constructor (ghost now: Time)
      ensures Valid() && Tables() == Db(map[], map[], map[]) && clock == now
    {
      accounts, blocks, requests, clock := map[], map[], map[], now;
      new;
      forall a: AccountId
        ensures ActiveOf(requests, a, now) == {}
      {
      }
    }

    /** `remove_expired_live_chat_requests`, the background purge and the first statement of several resolvers. */
    method RemoveExpired(now: Time)
      requires Valid() && clock <= now
      modifies this`requests, this`clock
      ensures Valid() && clock == now && requests == Purged(old(requests), now)
    {
      LaterKeeps(Tables(), clock, now);
      ShrinkKeeps(Tables(), Purged(requests, now), now);
      requests := map q | q in requests && !(requests[q].leaseExpiresAt <= now || requests[q].hardExpiresAt <= now)
                      :: requests[q];
      clock := now;
      assert requests == Purged(old(requests), now);
    }

    method Send(caller: AccountId, recipientName: string, clientRequestId: Uuid, payload: Bytes,
                now: Time, requestId: Uuid, leaseId: Uuid) returns (answer: Answer)
      requires Valid() && clock <= now && FreshIds(requests, requestId, leaseId)
      modifies this`requests, this`clock
      ensures Valid() && clock == now
      ensures (Tables(), answer) ==
              SendOutcome(old(Tables()), caller, recipientName, clientRequestId, payload, now, requestId, leaseId)
    {
      LaterKeeps(Tables(), clock, now);
      SendKeeps(Tables(), caller, recipientName, clientRequestId, payload, now, requestId, leaseId);
      RemoveExpired(now);
      if caller !in accounts {
        return Failed(Unauthorized);
      }
      if q :| q in requests && Repeats(requests[q], caller, clientRequestId) {
        return Submitted(q, requests[q].leaseId, requests[q].leaseExpiresAt);
      }
      if |ActiveOf(requests, caller, now)| >= ACTIVE_LIMIT {
        return Failed(ActiveRequestLimit);
      }
      answer := Submitted(requestId, leaseId, now + LEASE);
      var recipient := Lookup(recipientName);
      if recipient.Some? && (recipient.value, caller) !in blocks && recipient.value != caller {
        var row := Request(leaseId, clientRequestId, caller, recipient.value, accounts[caller].publicKey, payload,
                           now, now + LEASE, now + HARD_LIFE);
        if InsertRefused(Tables(), requestId, row) {
          return Failed(Internal);
        }
        requests := requests[requestId := row];
      }
    }

    /** SELECT by the unique name column. */
    method Lookup(identitty: string) returns (found: Option<AccountId>)
      requires ColumnsUnique(accounts)
      ensures found == FindName(accounts, identitty)
    {
      if a :| a in accounts && accounts[a].identitty == identitty {
        return Some(a);
      }
      return None;
    }

    method Renew(caller: AccountId, requestId: Uuid, leaseId: Uuid, now: Time) returns (answer: Answer)
      requires Valid() && clock <= now
      modifies this`requests, this`clock
      ensures Valid() && clock == now
      ensures (Tables(), answer) == RenewOutcome(old(Tables()), caller, requestId, leaseId, now)
    {
      LaterKeeps(Tables(), clock, now);
      RenewKeeps(Tables(), caller, requestId, leaseId, now);
      RemoveExpired(now);
      if !(requestId in requests && requests[requestId].leaseId == leaseId && requests[requestId].sender == caller) {
        return Failed(InvalidChatRequest);
      }
      var expires := Min(now + LEASE, requests[requestId].hardExpiresAt);
      requests := requests[requestId := requests[requestId].(leaseExpiresAt := expires)];
      return Renewed(requestId, leaseId, expires);
    }

    method Cancel(caller: AccountId, requestId: Uuid, leaseId: Uuid) returns (answer: Answer)
      requires Valid()
      modifies this`requests
      ensures Valid()
      ensures (Tables(), answer) == CancelOutcome(old(Tables()), caller, requestId, leaseId)
    {
      ShrinkKeeps(Tables(), Without(requests, requestId, leaseId), clock);
      if requestId in requests && requests[requestId].leaseId == leaseId {
        if requests[requestId].sender != caller {
          return Failed(InvalidChatRequest);
        }
        requests := map q | q in requests && !(q == requestId && requests[q].leaseId == leaseId) :: requests[q];
      }
      return Cancelled;
    }

    method Block(caller: AccountId, name: string, now: Time) returns (answer: Answer)
      requires Valid() && clock <= now
      modifies this`blocks, this`requests, this`clock
      ensures Valid() && clock == now
      ensures (Tables(), answer) == BlockOutcome(old(Tables()), caller, name, now)
      ensures answer.Blocked? ==> forall q | q in requests ::
                !(requests[q].sender == answer.accountId && requests[q].recipient == caller)
    {
      LaterKeeps(Tables(), clock, now);
      clock := now;
      var target := Lookup(name);
      if target.None? {
        return Failed(AccountNotFound);
      }
      var a := target.value;
      if a == caller {
        return Failed(SelfBlock);
      }
      if caller !in accounts {
        return Failed(Internal);
      }
      ShrinkKeeps(Tables(), WithoutPair(requests, a, caller), now);
      if (caller, a) !in blocks {
        blocks := blocks[(caller, a) := now];
      }
      requests := map q | q in requests && !(requests[q].sender == a && requests[q].recipient == caller) :: requests[q];
      return Blocked(a, accounts[a].identitty, blocks[(caller, a)]);
    }

    method Unblock(caller: AccountId, accountId: AccountId) returns (answer: Answer)
      requires Valid()
      modifies this`blocks
      ensures Valid()
      ensures Tables() == old(Tables()).(blocks := old(blocks) - {(caller, accountId)}) && answer == Unblocked
    {
      blocks := blocks - {(caller, accountId)};
      return Unblocked;
    }

    /** `live_chat_requests`, whose entries ListIsExact characterises. */
    method List(caller: AccountId, now: Time) returns (rows: seq<Listing>)
      requires Valid() && clock <= now
      modifies this`requests, this`clock
      ensures Valid() && clock == now
      ensures Tables() == ListOutcome(old(Tables()), caller, now).0
      ensures OldestFirst(rows) && multiset(rows) == multiset(ListOutcome(old(Tables()), caller, now).1.entries)
      ensures forall row | row in rows :: ShowsStored(row, old(Tables()), caller, now)
      ensures ListsAll(rows, old(Tables()), caller, now)
    {
      ghost var before := Tables();
      LaterKeeps(before, clock, now);
      ListIsExact(before, caller, now);
      RemoveExpired(now);
      var found := ListedFor(Tables(), caller, now);
      rows := Ordered(found);
      RowsOfSet(rows, found);
      RowsAreExact(rows, before, caller, now);
    }

    method Ordered(found: set<Listing>) returns (rows: seq<Listing>)
      ensures OldestFirst(rows) && multiset(rows) == multiset(found)
    {
      rows := [];
      var rest := found;
      while rest != {}
        invariant OldestFirst(rows) && multiset(rows) + multiset(rest) == multiset(found)
        invariant forall i, next | 0 <= i < |rows| && next in rest :: rows[i].createdAt <= next.createdAt
        decreases |rest|
      {
        OldestExists(rest);
        var next :| next in rest && forall row | row in rest :: next.createdAt <= row.createdAt;
        rows := rows + [next];
        rest := rest - {next};
      }
    }

    /** `register_account`'s INSERT; the validation before it is in the Login module. */
    method Register(id: AccountId, account: Account) returns (accepted: bool)
      requires Valid()
      modifies this`accounts
      ensures Valid()
      ensures accepted <==> AccountFree(old(accounts), id, account)
      ensures accounts == if accepted then old(accounts)[id := account] else old(accounts)
    {
      accepted := AccountFree(accounts, id, account);
      if accepted {
        AccountsGrow(Tables(), id, account, clock);
        ColumnsStayUnique(accounts, id, account);
        hide ChatResolvers.Valid, ColumnsUnique, AccountFree;
        accounts := accounts[id := account];
      }
    }
  }

  /**
    The list is exactly the active requests addressed to the caller, each once and with its stored columns under its
    sender's name: the account join loses no row, since every sender has an account.
   */
  lemma ListIsExact(db: Db, recipient: AccountId, now: Time)
    requires TablesOk(db, now)
    ensures var entries := ListOutcome(db, recipient, now).1.entries;
            (forall row | row in entries :: ShowsStored(row, db, recipient, now)) &&
            (forall q | q in db.requests && db.requests[q].recipient == recipient && Active(db.requests[q], now) ::
               exists row :: row in entries && row.requestId == q) &&
            forall row, other | row in entries && other in entries && row.requestId == other.requestId :: row == other
  {
    var live := db.(requests := Purged(db.requests, now));
    var entries := ListedFor(live, recipient, now);
    forall q | q in db.requests && db.requests[q].recipient == recipient && Active(db.requests[q], now)
      ensures exists row :: row in entries && row.requestId == q
    {
      assert RowOk(db.accounts, db.requests[q], now);
      assert q in live.requests;
      assert Entry(db.accounts, q, db.requests[q]) in entries;
    }
  }

  lemma RowsOfSet(rows: seq<Listing>, found: set<Listing>)
    requires multiset(rows) == multiset(found)
    ensures (forall row :: row in rows <==> row in found) && forall i, j | 0 <= i < j < |rows| :: rows[i] != rows[j]
  {
    forall row
      ensures row in rows <==> row in found
    {
      assert row in multiset(rows) <==> row in multiset(found);
    }
    forall i, j | 0 <= i < j < |rows|
      ensures rows[i] != rows[j]
    {
      assert rows == rows[..j] + rows[j..];
      assert rows[i] in multiset(rows[..j]) && multiset(rows)[rows[i]] <= 1;
    }
  }

  lemma RowsAreExact(rows: seq<Listing>, db: Db, recipient: AccountId, now: Time)
    requires TablesOk(db, now)
    requires forall row :: row in rows <==> row in ListOutcome(db, recipient, now).1.entries
    requires forall i, j | 0 <= i < j < |rows| :: rows[i] != rows[j]
    ensures (forall row | row in rows :: ShowsStored(row, db, recipient, now)) && ListsAll(rows, db, recipient, now)
  {
    ListIsExact(db, recipient, now);
    hide ListOutcome, ShowsStored, TablesOk;
  }

  lemma {:induction false} OldestExists(rows: set<Listing>)
    requires rows != {}
    ensures exists row :: row in rows && forall other | other in rows :: row.createdAt <= other.createdAt
    decreases |rows|
  {
    var row :| row in rows;
    if rows != {row} {
      OldestExists(rows - {row});
      var oldest :| oldest in rows - {row} &&
                    forall other | other in rows - {row} :: oldest.createdAt <= other.createdAt;
      var first := if oldest.createdAt <= row.createdAt then oldest else row;
      assert forall other | other in rows :: other == row || other in rows - {row};
      assert first in rows && forall other | other in rows :: first.createdAt <= other.createdAt;
    }
  }
}
