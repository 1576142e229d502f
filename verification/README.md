# Verification of the tiTTY backend

A Dafny model of the service's stateful parts, with proofs about all inputs, all runs and all interleavings.

* **Direct chat** (`ChatStore`, `ChatMachine`, `ChatGuarantees`, `ChatCap`, `ChatPaths`, `ChatRevival`, `ChatBlocks`, `ChatRaces`, `ChatSweeps`, `ChatNotices`, `ChatResolvers`, `ChatService`, `ChatRuns`, `ChatAnswers`).
  The resolvers send, renew, cancel, block, unblock and list work on three tables, and none runs in a transaction.
  `ChatMachine` interleaves their SQL statements in any order with each other, with the background purge, with registrations, with dropped calls and with the clock.
  `ChatService` is the same code as methods over the tables; `ChatResolvers` gives what a call does when nothing comes in between and proves that the machine, left alone, does just that.
  `ChatGuarantees` and `ChatCap` say what survives interleaving. Where a promise does not, `ChatRaces` has the runs, and `ChatBlocks` (blocks), `ChatRevival` (leases), `ChatCap` with `ChatRaces` (the limit) and `ChatSweeps` with `ChatNotices` (purges) say exactly when it fails.
  `ChatRuns` has the promises that hold over runs of uninterrupted calls, and `ChatAnswers` what each of them changes and answers, told by the rows.
* **Login** (`Login`, `LoginService`, `LoginRuns`, `Validation`, `EndToEnd`). Registration, challenges and `authenticate` as a machine with SQLite's single write lock, rollbacks and the startup cleanup; the same as methods; name normalisation; and the product of login and direct chat.
* **Rate limiter** (`RateLimiter`). One shared map of buckets, over runs that mix keys and whose clock readings may be out of order.
* **Timestamps and metrics** (`Timestamps`, `Metrics`). The text order the SQL relies on, the counters by quarter hour, the report's totals and its map.

Time is in whole nanoseconds. Each statement of an interleaved call reads the clock by itself, an uninterrupted call reads it once, and clocks do not run backwards except where the rate limiter allows a lag.
Fresh UUIDs and random nonces are parameters constrained to be new. SHA-256, Ed25519 and the token MAC are ideal functions: hash and signature are parameters, injectivity of the hash is a stated hypothesis where it is needed, and only issued claims carry a valid MAC.

## Where the code and its documentation differ

* README.md:144 says that blocking removes the blocked sender's active requests. The block's DELETE does (`ChatBlocks.BlockClears`), but a send that passed its block check before is stored after the block has returned (`ChatRaces.SendOvertakesBlock`). A request of the pair can still be stored exactly if such a send is in flight (`ChatBlocks.StoredThroughBlock`), and can be active exactly up to 15 minutes after the send's clock reading (`ChatBlocks.ActiveThroughBlock`).
* The limit of 25 active requests (src/graphql/mutation.rs:206-217) is exceeded by overlapping calls. With at most k overlapping sends and renews that run back to back the least bound is 24 + k, so 25 is kept exactly for k <= 1 (`ChatRaces.CapExact`, `ChatRaces.LimitKeptExactly`). A renew interleaved with one send can make 26 too (`ChatRaces.RenewRevives`).
* A renew past its own purge may bring back a request whose lease has run out since, where a purge in between would have removed it (`ChatRaces.RenewRevives`). `ChatRevival.RevivalExact` says exactly which requests can be active again, and `ChatNotices.SweepInvisibleExactly` exactly when a purge between the statements of other calls is invisible. Between uninterrupted calls it always is, but for a cancel by someone else (`ChatRuns.PurgesInvisible`).
* README.md:146 promises one answer for delivered, unknown and blocked recipients. That holds for a send (`ChatRuns.SendUniform`); a retry repeats the first request ID exactly if the first send was delivered (`ChatRuns.RetryMatchesIffDelivered`).
* `RateLimiter::check` reads the clock before it takes the lock (src/rate_limit.rs:43-45), so readings may be processed out of order. A key's answers are those of a counter of its own exactly if window plus lag stay within the hour a bucket is kept (`RateLimiter.RefinementExact`).
* The startup cleanup compares RFC 3339 text with `CURRENT_TIMESTAMP` (src/db.rs:41), which have different separators. It deletes the unused challenges of earlier UTC days, so expired ones of the current day stay; and it deletes those that expire after the year 9999, whose texts start with a sign (`Login.CleanupExact`).

## Model

| member | source | states |
|---|---|---|
| `RateLimiter.Limiter.Check` | src/rate_limit.rs:42-83 | the locked map after a call and the answer, in place: evict, refuse at the cap, insert, start a new window, count; the map stays within 4096 buckets |
| `RateLimiter.MapBounded` | src/rate_limit.rs:51-64 | in every run the shared map holds at most 4096 buckets |
| `RateLimiter.RefinesCounter` | src/rate_limit.rs:42-83 | when window plus lag fit in the hour of retention, a key's answers in any mixed run are those of a one-key counter without eviction, but for refusals by the cap |
| `RateLimiter.RefinementExact` | src/rate_limit.rs:43-83 | that refinement holds in every run if and only if the limit is zero, the window is zero, or window plus lag are at most an hour |
| `RateLimiter.StaleBreaks` | src/rate_limit.rs:43-51 | the run in which a late reading meets an evicted bucket and the limit is granted twice in one window |
| `RateLimiter.TracksAlways` | src/rate_limit.rs:51-74 | in every run the map holds the counter's bucket, or the bucket was evicted after its window ended |
| `RateLimiter.IntervalBound` | src/rate_limit.rs:61-82 | an interval of n windows holds fewer than (n+1) times the limit of allowed calls of a key, fewer than (n+m+1) times if readings lag by at most m windows, whatever other keys, evictions and cap refusals are mixed in |
| `RateLimiter.IntervalBoundExact` | src/rate_limit.rs:61-82 | over all runs with monotone readings, for a limit above zero and windows of at least two clock ticks, (n+1) times the limit minus one is the least bound on the allowed calls in n > 0 windows |
| `RateLimiter.RefusalJustified` | src/rate_limit.rs:70-78 | a call refused other than by the cap was preceded by `limit` allowed calls of its key within a window and the lag |
| `RateLimiter.CapExact` | src/rate_limit.rs:51-59 | with monotone readings and windows of at most an hour, the cap refuses an attempt if and only if the key's own counter has no bucket started within the last hour and at least 4096 other keys' counters have one |
| `RateLimiter.CapNeedsKeys` | src/rate_limit.rs:57-59 | in any run, the cap refuses only if at least 4096 other keys have been used before |
| `RateLimiter.KeyInjective` | src/rate_limit.rs:103 | keys of different clients or scopes differ, although an IPv6 client key holds colons |
| `Validation.NormaliseExact` | src/validation.rs:7-33 | a value is accepted as a name exactly if it spells it: canonical grammar, any letter case, white space around it |
| `Validation.NormaliseIdempotent` | src/validation.rs:7-33 | normalising a normalised name gives the same name |
| `Validation.NoCaseIsEquality` | migrations/0001_identity.sql:7 | on canonical names the column's NOCASE collation is equality |
| `Timestamps.CivilOf` | src/graphql/mutation.rs:259-261 | every instant of the years 0 to 9999 has a calendar date and time that denotes it |
| `Timestamps.TextReads` | src/graphql/mutation.rs:259-261 | the text has the form of RFC 3339, section 5.6, and reading its digits gives back the date, the time and the fraction |
| `Timestamps.TextOrderIsTimeOrder` | src/graphql/query.rs:85-92 | for all dates and times, RFC 3339 texts with 0, 3, 6 or 9 fraction digits compare as text exactly as the instants compare in time |
| `Timestamps.TextOrder` | src/graphql/query.rs:66-69 | the same on instants, and distinct instants have distinct texts |
| `Timestamps.CleanupComparesDays` | src/db.rs:40-45 | RFC 3339 text sorts at or before CURRENT_TIMESTAMP exactly if its UTC day is earlier |
| `Timestamps.SignedSortsFirst` | src/db.rs:40-45 | the text of a year outside 0 to 9999 sorts before every CURRENT_TIMESTAMP |
| `Timestamps.CutoffSelects` | scripts/generate-api-metrics.sh:45-47 | the report's text comparison selects exactly the buckets that start at or after the cutoff |
| `Metrics.Recorder.Record` | src/db.rs:58-86 | the upsert leaves the table that counts every request recorded so far |
| `Metrics.InBucket` | src/db.rs:67-73 | a request lies within the 15 minutes of its bucket, which starts on a quarter hour |
| `Metrics.RowsExact` | migrations/0003_api_request_source.sql:13-16 | after any requests each row's count is the number of requests of its quarter hour with its source, method, endpoint and status class, and no other rows exist |
| `Metrics.Conservation` | scripts/generate-api-metrics.sh:50-76 | for any cutoff and any grouping of the keys, the overall total and the sum of the totals are the number of requests in the window, and each group's total is the number of its requests |
| `Metrics.OverallTotal` | scripts/generate-api-metrics.sh:50-52 | the overall total is the number of requests whose quarter hour starts at or after the cutoff |
| `Metrics.EndpointTotal` | scripts/generate-api-metrics.sh:54-56 | an endpoint's total is the number of those requests to it |
| `Metrics.QuarterTotal` | scripts/generate-api-metrics.sh:58-60 | a quarter hour's total is the number of those requests in it |
| `Metrics.StatusTotal` | scripts/generate-api-metrics.sh:62-64 | a status class's total is the number of those requests with a status in its hundred |
| `Metrics.SourceTotal` | scripts/generate-api-metrics.sh:66-68 | a source's total is the number of those requests from it |
| `Metrics.SourceEndpointTotal` | scripts/generate-api-metrics.sh:70-72 | the total of a source and endpoint is the number of those requests from the one to the other |
| `Metrics.SourceStatusTotal` | scripts/generate-api-metrics.sh:74-76 | the total of a source and status class is the number of those requests from it with a status in its hundred |
| `Metrics.WindowIsTime` | scripts/generate-api-metrics.sh:46-47 | a request is in the window exactly if its quarter hour starts at or after the cutoff in time |
| `Metrics.MapCells` | scripts/generate-api-metrics.sh:242-259 | the loop fills the cells the recursive definition gives |
| `Metrics.CellsConserve` | scripts/generate-api-metrics.sh:242-259 | the cells' requests add up to the requests of the located rows, cell by cell and overall |
| `Metrics.CellSources` | scripts/generate-api-metrics.sh:257 | a cell's source set holds exactly the sources located in it |
| `Metrics.CellEndpoints` | scripts/generate-api-metrics.sh:258 | a cell's endpoint set holds exactly the endpoints of the rows located in it |
| `Metrics.MapPoints` | scripts/generate-api-metrics.sh:261-270 | one point a cell, with the cell's counts, and no request lost |
| `Metrics.MapConserves` | scripts/generate-api-metrics.sh:242-259 | the cells together count the recorded requests of the window whose source is located, and each cell those located in it |
| `ChatMachine.StatementChanges` | src/graphql/mutation.rs:170-413 | a statement deletes requests, inserts a send's request, or renews a lease, and never touches the accounts |
| `ChatMachine.SpentKept` | src/graphql/mutation.rs:222-223 | an ID that has been drawn and is no send's to insert any more stays so, whatever happens |
| `ChatMachine.InvKept` | src/graphql/mutation.rs:169-413 | every statement, purge, registration, dropped call and tick keeps: hard limit 15 minutes after creation, lease within it, registered sender key, unique leases and client IDs, and what each call in flight knows |
| `ChatMachine.RunInv` | src/graphql/mutation.rs:169-413 | these invariants hold in every state of every run |
| `ChatGuarantees.GoneForGood` | src/graphql/mutation.rs:300-340 | a request deleted by cancel, block or purge never reappears, even with a renew past its SELECT |
| `ChatGuarantees.HardLimitHolds` | src/graphql/mutation.rs:219-221 | while stored, a request keeps every column but its lease, its lease never passes creation plus 15 minutes, and from then on no list shows it |
| `ChatGuarantees.InsertRefusedExactly` | src/graphql/mutation.rs:245-264 | an interleaved INSERT is refused exactly if a request of the sender under the same client ID is stored |
| `ChatGuarantees.IndexesHold` | migrations/0004_direct_chat.sql:32-33 | in every run there is at most one request per sender and client ID, and per lease ID |
| `ChatGuarantees.NothingNewPasses` | src/graphql/mutation.rs:234-244 | while a block is in force, a request stored or about to be stored against it was so already when the block was there |
| `ChatGuarantees.BlockDrains` | src/graphql/mutation.rs:363-381 | a request stored against a block in force was stored or past its block check before the block was inserted, and 15 minutes after that none is active; `ChatBlocks.ActiveThroughBlock` is the exact form |
| `ChatGuarantees.BlocksOwned` | src/graphql/mutation.rs:364-412 | only the blocker adds or removes a block, and one in force keeps its time |
| `ChatBlocks.BlockClears` | src/graphql/mutation.rs:374-381 | the block's DELETE leaves no request of the pair, and while the block is in force only sends past their block check at the DELETE are stored after it |
| `ChatBlocks.StoredThroughBlock` | src/graphql/mutation.rs:234-266 | with a block in force, a request of the pair is or can yet be stored before the unblock if and only if one is stored now or a send of the pair is past its block check |
| `ChatBlocks.ActiveThroughBlock` | src/graphql/mutation.rs:219-266 | with a block in force, a request of the pair is or can yet be active before the unblock if and only if a stored one is or can be revived, or a send past its block check read the clock less than 15 minutes ago |
| `ChatRevival.RevivalExact` | src/graphql/mutation.rs:284-305 | a stored request is or can yet be active if and only if it is active, or is short of its hard limit with a renew of it under way past its purge whose lease has not run out |
| `ChatSweeps.SweepUnseen` | src/db.rs:47-56 | a purge between the statements of other calls that no call in flight can notice changes no answer of any run that follows |
| `ChatSweeps.SweepsUnseen` | src/main.rs:86-95 | the same for any number of purges anywhere in a run |
| `ChatNotices.SweepInvisibleExactly` | src/main.rs:86-95 | in every state of every run, a purge is invisible to all runs that follow if and only if no call in flight can still meet an expired request: a send past its purge under the same client ID, or a renew past its purge |
| `ChatCap.ActiveBounded` | src/graphql/mutation.rs:206-264 | if, whenever a send of a sender passes its count, at most k of its sends are past their count and of its renews past their purge, at most 24+k of its requests are active, in any interleaving |
| `ChatCap.SendsBounded` | src/graphql/mutation.rs:206-264 | with at most k overlapping sends of a sender whose renews run back to back, at most 24+k of its requests are active |
| `ChatCap.OverlapBounded` | src/graphql/mutation.rs:206-305 | with at most k overlapping sends and m overlapping renews, at most 24+k+m |
| `ChatCap.PotentialBounded` | src/graphql/mutation.rs:206-305 | the invariant behind it: active or revivable requests plus sends past their count are at most 24+k |
| `ChatRaces.BoundReached` | src/graphql/mutation.rs:206-264 | for every k > 0 a run with at most k overlapping sends and no renews reaches 24+k active requests |
| `ChatRaces.CapExact` | src/graphql/mutation.rs:206-264 | over all runs with at most k overlapping sends of an account and its renews back to back, 24+k is the least bound on its active requests |
| `ChatRaces.LimitKeptExactly` | src/graphql/mutation.rs:206-217 | the limit of 25 is kept in all these runs if and only if k <= 1 |
| `ChatRaces.RenewRevives` | src/graphql/mutation.rs:284-305 | a run in which a renew brings an expired request back onto the recipient's list, where a purge would have removed it, and in which one send and one renew make 26 active requests |
| `ChatRaces.SendOvertakesBlock` | src/graphql/mutation.rs:234-266 | a run in which a request is stored, active and listed after its recipient's block of the sender has returned |
| `ChatResolvers.AloneIsOutcome` | src/graphql/mutation.rs:169-413 | a call whose statements run back to back does what its uninterrupted outcome says |
| `ChatResolvers.SendKeeps` | src/graphql/mutation.rs:206-264 | an uninterrupted send stores nothing against a block, never passes 25 active requests, and never has its INSERT refused |
| `ChatResolvers.RenewKeeps` | src/graphql/mutation.rs:284-305 | an uninterrupted renew keeps the tables in order and never shortens a lease |
| `ChatResolvers.OutcomeKeeps` | src/graphql/mutation.rs:169-413 | every uninterrupted call keeps the table invariants, the cap of 25, and that no stored request is against a block in force |
| `ChatService.Service.RemoveExpired` | src/db.rs:47-56 | the purge, in place |
| `ChatService.Service.Send` | src/graphql/mutation.rs:170-274 | the statements of a send, in place, have the proved outcome |
| `ChatService.Service.Renew` | src/graphql/mutation.rs:277-311 | the statements of a renew, in place, have the proved outcome |
| `ChatService.Service.Cancel` | src/graphql/mutation.rs:314-341 | the statements of a cancel, in place, have the proved outcome |
| `ChatService.Service.Block` | src/graphql/mutation.rs:344-395 | the statements of a block, in place, have the proved outcome, and leave no request of the pair |
| `ChatService.Service.Unblock` | src/graphql/mutation.rs:398-413 | the block row is gone and nothing else |
| `ChatService.Service.List` | src/graphql/query.rs:79-100 | oldest first, each once, exactly the live requests to the caller, each row with the stored columns and the sender's account name |
| `ChatService.Service.Register` | src/graphql/mutation.rs:57-76 | an account is added exactly if no unique column refuses it |
| `ChatService.ListIsExact` | src/graphql/query.rs:85-92 | the list is exactly the active requests to the caller, each once, none lost in the account join, each entry with its sender, the sender's name, the stored key, payload, creation time and lease |
| `ChatService.TextOrderIsOldestFirst` | src/graphql/query.rs:92 | in the years 0 to 9999, ORDER BY on the text lists oldest first |
| `ChatRuns.PurgesInvisible` | src/db.rs:47-56 | purges placed anywhere between uninterrupted calls: the answers differ from those of a store where requests vanish by themselves exactly at the cancels of expired, unpurged requests by someone else |
| `ChatRuns.OpAlike` | src/graphql/mutation.rs:180-340 | one operation on a store and on its ideal: the same answer, unless it is exactly the cancel of an expired, unpurged request by someone else |
| `ChatRuns.PurgePlacementInvisible` | src/main.rs:86-95 | two runs that differ in their purges alone have the same answers if and only if the same of their cancels are such foreign cancels |
| `ChatRuns.FinalKeeps` | src/graphql/mutation.rs:169-413 | every run of uninterrupted calls, purges and registrations keeps the table invariants, the cap of 25 and that no stored request is against a block in force |
| `ChatRuns.ReachableValid` | src/graphql/mutation.rs:206-264 | in every state reached from the empty tables no sender has more than 25 active requests and no stored request is against a block in force |
| `ChatRuns.ExactLifetime` | src/graphql/mutation.rs:219-221 | a request renewed at gaps strictly under 90 s, not cancelled by its owner nor removed by its recipient's block, is listed at a moment exactly if that is before creation plus 15 minutes, with its columns, its sender's name and the lease of its last renewal |
| `ChatRuns.DeliveredIsShown` | src/graphql/query.rs:139-149 | from the send to the list over any such run: the entry has the caller of the send, the caller's account name and registered key, the payload given, the send's clock reading and the last renewal's lease |
| `ChatRuns.NotShownAfterHardLimit` | src/graphql/query.rs:90-91 | whatever operations follow, no list shows a request from its hard limit on |
| `ChatRuns.StaysHeld` | src/graphql/mutation.rs:298-341 | no operation but the owner's renewal changes a live request's lease, and none but the owner's cancel and the recipient's block removes it |
| `ChatRuns.SendDeliversExactly` | src/graphql/mutation.rs:184-264 | when a send stores a request, if and only if: account, no live repeat, fewer than 25 active, a recipient that is another and has not blocked; and the columns it stores |
| `ChatRuns.CancelIdempotent` | src/graphql/mutation.rs:321-340 | cancelling again changes nothing and is answered alike; the owner's cancel removes the request |
| `ChatAnswers.RenewExactly` | src/graphql/mutation.rs:284-311 | a renew succeeds exactly for the holder of a live request, answers with its IDs and the expiry it stores, 90 s on but within 15 minutes of creation, and changes nothing else but by the purge |
| `ChatAnswers.SendAndListChange` | src/graphql/mutation.rs:180-264 | a send adds at most its row and a list none; both keep exactly the other live rows, and all accounts and blocks |
| `ChatAnswers.CancelExactly` | src/graphql/mutation.rs:321-340 | a cancel removes the caller's own request alone, and is refused exactly for someone else's stored request |
| `ChatAnswers.BlockExactly` | src/graphql/mutation.rs:344-395 | a block is in force with the time of the first one, exactly the pair's requests are gone, and the answer names the account and that time |
| `ChatAnswers.BlockRefused` | src/graphql/mutation.rs:353-362 | a block of oneself or of an unknown name fails with that error and changes nothing |
| `ChatAnswers.BlockAgain` | src/graphql/mutation.rs:383-394 | whatever comes in between short of the unblock, a repeated block answers what the first one did |
| `ChatAnswers.UnblockExactly` | src/graphql/mutation.rs:398-413 | an unblock removes that block and nothing else |
| `ChatAnswers.BlockThenUnblock` | src/graphql/mutation.rs:234-244 | after a block no send of the account is delivered to the blocker, and after the unblock exactly those within the sender's limits are |
| `ChatAnswers.FirstContact` | src/graphql/mutation.rs:170-274 | from the empty tables: once any two different accounts have registered, a request from the one to the other is delivered and listed |
| `ChatRuns.RetryIdempotent` | src/graphql/mutation.rs:193-204 | while a request is live, a repeat under its client ID returns its IDs and stored expiry and changes nothing but purging |
| `ChatRuns.RetryAfterRun` | src/graphql/mutation.rs:193-204 | the same after any run of operations: while the request is still live, the repeat returns the IDs first handed out |
| `ChatRuns.SendAnswer` | src/graphql/mutation.rs:206-273 | the answer to a send is a function of the sender's account, live requests and clock alone |
| `ChatRuns.SendUniform` | src/graphql/mutation.rs:232-273 | two states that agree on the sender's side answer a send alike, whatever the recipients' accounts and blocks |
| `ChatRuns.RetryMatchesIffDelivered` | src/graphql/mutation.rs:193-204 | a retry within the first lease repeats the first request ID exactly if the first send was delivered |
| `Login.RegisterKeeps` | src/graphql/mutation.rs:41-76 | registration keeps account IDs derived from keys, names canonical, and names and keys unique |
| `Login.AvailabilityExact` | src/graphql/query.rs:22-36 | for a valid account ID and a fresh key, a name is available exactly if registering it right away succeeds |
| `Login.RegisterExact` | src/graphql/mutation.rs:41-76 | which error a registration gets, exactly and in order, and else that it adds the account with the name spelled, the key and the time |
| `Login.LockProtects` | src/graphql/mutation.rs:131-165 | while a transaction holds the write lock no other statement changes the challenges |
| `Login.InvKept` | src/graphql/mutation.rs:79-167 | every statement, rollback, registration, cleanup and tick keeps the login invariants |
| `Login.OneSessionPerChallenge` | src/graphql/mutation.rs:152-166 | under every interleaving of authentications, rollbacks and cleanups no challenge earns two sessions |
| `Login.SessionsEarned` | src/graphql/mutation.rs:133-166 | every session's subject is a registered account whose ID derives from its key, and that key verified a challenge issued to it that was unexpired at the call's check |
| `Login.AccountsApart` | migrations/0001_identity.sql:5-10 | in every run no two accounts have names that normalise alike, nor the same key |
| `Login.CleanupExact` | src/db.rs:40-45 | the startup cleanup deletes an unused challenge exactly if its UTC day is over or it expires outside the years 0 to 9999, and one that has not expired exactly if it expires after the year 9999 |
| `Login.CleanupKeeps` | src/db.rs:40-45 | the machine's cleanup keeps exactly the unused challenges of the current and later UTC days up to the year 9999, as they are |
| `LoginService.Service.RegisterAccount` | src/graphql/mutation.rs:34-77 | registration in place, with its errors |
| `LoginService.Service.RequestChallenge` | src/graphql/mutation.rs:80-121 | a registered account gets an unused challenge with the configured lifetime, another gets none |
| `LoginService.Service.Authenticate` | src/graphql/mutation.rs:123-167 | a session is issued exactly if the challenge is open to the account and its registered key verifies the signature, and then nobody can use the challenge again; the claims name the account, the second of issue and an expiry the configured time later |
| `LoginService.Service.RemoveExpired` | src/db.rs:40-45 | the cleanup in place deletes what it selects and nothing else |
| `LoginService.AuthenticateAlone` | src/graphql/mutation.rs:131-166 | the machine's authenticate, uninterrupted, is the method's |
| `LoginService.RequestAlone` | src/graphql/mutation.rs:89-121 | the machine's challenge request, uninterrupted, adds the unused challenge with the nonce and the configured lifetime for a registered account, and nothing for another |
| `LoginRuns.AccountsDated` | src/graphql/mutation.rs:57-66 | an account that appears in a run has that moment as its creation time, a canonical name, and the ID derived from its key |
| `LoginRuns.TokenLifetime` | src/auth.rs:35-42 | in any run, a token issued at one moment is accepted at a later one if and only if that is, in whole seconds, within the configured lifetime and the leeway |
| `LoginRuns.LogsIn` | src/graphql/mutation.rs:80-167 | from any state of any run, a registered account whose key verifies a signature over its nonce can get a session, and one that is accepted |
| `LoginRuns.LoginPossibleExactly` | src/graphql/mutation.rs:80-167 | from any state of any run some continuation issues a session to the account if and only if its key verifies some signature over some nonce |
| `EndToEnd.RequestsAuthentic` | src/graphql/mutation.rs:255-257 | in every run each stored request carries its sender's registered key, from which the sender's ID derives and which has verified a challenge issued to the sender |
| `EndToEnd.SenderLookupSucceeds` | src/graphql/mutation.rs:184-191 | the sender lookup of a send never fails for a caller with an accepted bearer token |
| `EndToEnd.CanChat` | src/main.rs:264-276 | such an account can come to have any direct-chat call of its own started, over whatever requests and blocks are there |
| `EndToEnd.InvKept` | src/main.rs:264-276 | login and direct chat together keep that every caller and every stored request's sender has logged in |

## Left out

- ChatService.Service.List: the text of `created_at` is not stored; rows are ordered by time, and ChatService.TextOrderIsOldestFirst proves that the same order.
- Metrics.MapPoints: the sort of the points by their counts is presentation.
- HTTP, GraphQL and Base64 plumbing, payload size checks and the mapping of errors to codes: calls enter the model with their arguments decoded and their names normalised.
- The choice of the client key from forwarding headers, and the composition of the global limit with the limit of each resolver.
- `blockedIdentities`, `account`, `accountByID` and `me`: plain lookups.
- The countries of a map cell, and the distinct counts of the source summary.
- Latency totals, which are floating-point sums, and the rounding of coordinates and of `julianday`.
- SQLite itself: a statement is one atomic step; lock timeouts and failed statements appear only as calls that end early.
- The token's issuer check and encoding, the logs, the HTML report and deployment.
