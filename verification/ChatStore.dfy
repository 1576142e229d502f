/**
  The tables of the direct-chat rendezvous and the SQL statements its resolvers run on them. A statement is
  atomic; the resolvers that string statements together are in ChatMachine (interleaved) and ChatService
  (uninterrupted).
 */
module ChatStore {
  import opened Prelude

  type AccountId = string
  type Uuid = nat

  datatype Account = Account(identitty: string, publicKey: Bytes, createdAt: Time)

  /** A row of `live_chat_requests`; the table maps the primary key, the request ID, to the other columns. */
  datatype Request = Request(
    leaseId: Uuid,
    clientRequestId: Uuid,
    sender: AccountId,
    recipient: AccountId,
    senderPublicKey: Bytes,
    payload: Bytes,
    createdAt: Time,
    leaseExpiresAt: Time,
    hardExpiresAt: Time)

  type Requests = map<Uuid, Request>

  /** Blocks map (blocker, blocked) to the time the row says it was created. */
  type Blocks = map<(AccountId, AccountId), Time>

  datatype Db = Db(accounts: map<AccountId, Account>, blocks: Blocks, requests: Requests)

  const LEASE: Time := Seconds(90)
  const HARD_LIFE: Time := Seconds(900)
  const ACTIVE_LIMIT: nat := 25

  datatype Error = Unauthorized | ActiveRequestLimit | InvalidChatRequest | AccountNotFound | SelfBlock | Internal

  /** One entry of `liveChatRequests`. */
  datatype Listing = Listing(
    requestId: Uuid,
    sender: AccountId,
    senderIdentitty: string,
    senderPublicKey: Bytes,
    payload: Bytes,
    createdAt: Time,
    expiresAt: Time)

  datatype Answer =
    | Submitted(requestId: Uuid, leaseId: Uuid, leaseExpiresAt: Time)
    | Renewed(requestId: Uuid, leaseId: Uuid, expiresAt: Time)
    | Cancelled
    | Blocked(accountId: AccountId, identitty: string, blockedAt: Time)
    | Unblocked
    | Listed(entries: set<Listing>)
    | Failed(error: Error)

  // ---------------------------------------------------------------- statements

  predicate Active(r: Request, now: Time) {
    r.leaseExpiresAt > now && r.hardExpiresAt > now
  }

  /** DELETE of the rows whose lease or hard limit has passed. */
  function Purged(requests: Requests, now: Time): Requests {
    map q | q in requests && Active(requests[q], now) :: requests[q]
  }

  predicate Repeats(r: Request, sender: AccountId, clientRequestId: Uuid) {
    r.sender == sender && r.clientRequestId == clientRequestId
  }

  /** SELECT by (sender, client request ID), of which the unique index allows one row. */
  ghost function FindRepeat(requests: Requests, sender: AccountId, clientRequestId: Uuid): Option<Uuid> {
    if exists q :: q in requests && Repeats(requests[q], sender, clientRequestId)
    then Some(var q :| q in requests && Repeats(requests[q], sender, clientRequestId); q)
    else None
  }

  function ActiveOf(requests: Requests, sender: AccountId, now: Time): set<Uuid> {
    set q | q in requests && requests[q].sender == sender && Active(requests[q], now)
  }

  /** SELECT by name, of which the unique column allows one row. */
  ghost function FindName(accounts: map<AccountId, Account>, identitty: string): Option<AccountId> {
    if exists a :: a in accounts && accounts[a].identitty == identitty
    then Some(var a :| a in accounts && accounts[a].identitty == identitty; a)
    else None
  }

  /** A constraint refuses an INSERT: primary key, unique lease, unique (sender, client ID), foreign keys. */
  predicate InsertRefused(db: Db, requestId: Uuid, r: Request) {
    requestId in db.requests ||
    (exists q | q in db.requests ::
       db.requests[q].leaseId == r.leaseId || Repeats(db.requests[q], r.sender, r.clientRequestId)) ||
    r.sender !in db.accounts || r.recipient !in db.accounts
  }

  /** No constraint of the accounts table refuses the row: primary key, unique name, unique key. */
  predicate AccountFree(accounts: map<AccountId, Account>, id: AccountId, account: Account) {
    id !in accounts &&
    (forall a | a in accounts :: accounts[a].identitty != account.identitty) &&
    forall a | a in accounts :: accounts[a].publicKey != account.publicKey
  }

  predicate Leased(requests: Requests, requestId: Uuid, leaseId: Uuid) {
    requestId in requests && requests[requestId].leaseId == leaseId
  }

  function WithLease(requests: Requests, requestId: Uuid, expiresAt: Time): Requests {
    if requestId in requests then requests[requestId := requests[requestId].(leaseExpiresAt := expiresAt)]
    else requests
  }

  function Without(requests: Requests, requestId: Uuid, leaseId: Uuid): Requests {
    map q | q in requests && !(q == requestId && requests[q].leaseId == leaseId) :: requests[q]
  }

  function WithoutPair(requests: Requests, sender: AccountId, recipient: AccountId): Requests {
    map q | q in requests && !(requests[q].sender == sender && requests[q].recipient == recipient) :: requests[q]
  }

  function Entry(accounts: map<AccountId, Account>, q: Uuid, r: Request): Listing
    requires r.sender in accounts
  {
    Listing(q, r.sender, accounts[r.sender].identitty, r.senderPublicKey, r.payload, r.createdAt, r.leaseExpiresAt)
  }

  /** The active rows for a recipient, joined with their senders' accounts. */
  function ListedFor(db: Db, recipient: AccountId, now: Time): set<Listing> {
    set q | q in db.requests && db.requests[q].recipient == recipient && Active(db.requests[q], now) &&
            db.requests[q].sender in db.accounts :: Entry(db.accounts, q, db.requests[q])
  }

  /** The requests agree in the columns that no statement changes. */
  predicate SameRequest(r: Request, t: Request) {
    t == r.(leaseExpiresAt := t.leaseExpiresAt)
  }

  /** What an entry tells its reader of a request: who sent it, under which name and key, what, when and until when. */
  predicate Displays(entry: Listing, q: Uuid, r: Request, name: string, expiresAt: Time) {
    entry.requestId == q && entry.sender == r.sender && entry.senderIdentitty == name &&
    entry.senderPublicKey == r.senderPublicKey && entry.payload == r.payload &&
    entry.createdAt == r.createdAt && entry.expiresAt == expiresAt
  }

  // ---------------------------------------------------------------- table invariants

  /** A row of a table whose clock readings lie at or before `now`. */
  ghost predicate RowOk(accounts: map<AccountId, Account>, r: Request, now: Time) {
    r.hardExpiresAt == r.createdAt + HARD_LIFE && r.leaseExpiresAt <= r.hardExpiresAt &&
    r.createdAt <= now && r.leaseExpiresAt <= now + LEASE &&
    r.sender in accounts && r.senderPublicKey == accounts[r.sender].publicKey &&
    r.recipient in accounts && r.recipient != r.sender
  }

  ghost predicate RowsOk(db: Db, now: Time) {
    forall q | q in db.requests :: RowOk(db.accounts, db.requests[q], now)
  }

  ghost predicate LeasesUnique(requests: Requests) {
    forall p, q | p in requests && q in requests && requests[p].leaseId == requests[q].leaseId :: p == q
  }

  ghost predicate ClientsUnique(requests: Requests) {
    forall p, q | p in requests && q in requests &&
      Repeats(requests[p], requests[q].sender, requests[q].clientRequestId) :: p == q
  }

  /** The unique name column. */
  ghost predicate NamesUnique(accounts: map<AccountId, Account>) {
    forall a, b | a in accounts && b in accounts && accounts[a].identitty == accounts[b].identitty :: a == b
  }

  ghost predicate TablesOk(db: Db, now: Time) {
    RowsOk(db, now) && LeasesUnique(db.requests) && ClientsUnique(db.requests)
  }
}
