# Verified model of the shared memory service

The repository is a shared memory service for agents: a vector store of memories behind an MCP server, with
access tokens (PATs), namespaces with member lists and quotas, a decay sweep, rule files, and a client for an
embedding provider. This project models its in-process logic in Dafny and proves what that logic promises.

Most of the theorems are about whole runs: every interleaving of calls under the promise-chain locks, every
history of a limiter or breaker, every sequence of store, delete, restore and sweep, every lookup after any
sequence of token mutations. The others relate two independent readings of one thing: a parser and the texts it
accepts, an encoder and the digits of a number, a cache and the log behind it, a paged sweep and the pointwise one.

## How the model is laid out

One module per component. State that the source updates in place is a class whose methods are proved against
functions on values; the theorems are then about those functions. Clocks, random bytes, fresh identifiers and the
answers of remote services are parameters. Ghost fields (`history`, `clock`, `accepted`, ...) record what the source
forgets, so that a pruned structure can be compared with the full history.

| module | what it covers |
|---|---|
| `CanonicalJson`, `Confirmation` | canonical JSON; confirmation tokens and the set of consumed tokens |
| `Bits`, `TokenCodec` | 32-bit arithmetic; the base-32 secret encoder and the token parser |
| `PatStore`, `PatRuns` | the log, the two indexes, the lookup cache, every mutation in its phases, and the chain that queues them |
| `KeyedLock`, `Members`, `Quota`, `QuotaRuns` | the lock made of chained promises as interleaved steps; member lists; daily counters and refunds, in whole events and step by step |
| `Embedding`, `Breaker`, `Semaphore` | the request loop, the circuit breaker, the concurrency gate |
| `Metadata`, `MemoryStore`, `Decay`, `Search`, `Reinforcement` | the life of stored memories |
| `JsonText` | canonical and plain JSON texts, quoting, and lengths in UTF-8 |
| `RateLimit` | the per-IP limiter for failed authentication |
| `Strings`, `Address`, `Ipv6`, `Ipv6Forms` | IPv4 and IPv6 literals and the blocked ranges |
| `Rules`, `RuleLocks`, `RuleIds` | rule files, the rule store and its concurrent upserts, the migration of notes |

## Where the code and its comments disagree

The model follows the code. Each item is a lemma or method contract below.

- The half-open breaker lets every request through, not one probe (`Breaker.CircuitBreaker.AllowRequest`; such a run
  is `Breaker.TwoProbes`).
- The semaphore bound holds only while woken waiters resume before anyone else arrives; `Acquire` states exactly
  which arrival breaks it and `BargeInOvershoots` is such a run.
- A confirmation token passes a second time exactly when the two clock readings of one call straddle its expiry
  (`Confirmation.ConfirmationGate.VerifyAndConsume`; such a run is `Confirmation.StraddledReplay`).
- `expandIpv6` refuses `x::d.d.d.d` unless six groups are written out in front, and lets a second `::` through
  when it stands directly before the dotted tail, as in `::ffff::1.2.3.4`
  (`Ipv6.GapBeforeTail`, `Ipv6Forms.Ipv6ReadsExactly`).
- Over-fetching does not make search exact: a full page can be relied on exactly when its last cosine is at most its
  last score (`Search.PageGuarantees`, `Search.SearchCanMiss`).
- A refund that arrives after midnight is taken from the new day's counter; counters stay exact exactly when no refund
  does so (`Quota.RefundExactly`, `Quota.HistoryExactly`, `Quota.MidnightRefundUndercounts`).
- A `memory_store` call whose point has landed is refunded when the retrieve of its superseded points fails
  (`MemoryStore.MemoryService.Store`, `Quota.HandleStore`).
- The decay sweep scans first and removes later: a point restored in between is removed although it is live.
  `Decay.LateRemoval` says exactly when the gap does no harm, `Decay.RestoredMidSweep` is a run in which it does.
- Without the gate in front of it, `retryAfterSec` can be too short; `RateLimit.PromiseExactly` says exactly when.
- A second migration changes nothing exactly when notes that share a rule id agree (`Rules.MigrateTwice`).

A negative grace period would make a repeated sweep remove what the first has just tombstoned (`Decay.SweepTwice`). The
tools accept only positive ones (src/namespaces/tools.ts:89-93), so only a namespace file edited by hand can hold one.

## Model

| member | source | states |
|---|---|---|
| `CanonicalJson.StringifyInjective` | src/auth/confirmation.ts:101-114 | two values get the same canonical text exactly when they are equal up to object key order |
| `CanonicalJson.Readable` | src/auth/confirmation.ts:101-114 | canonical texts are uniquely readable: equal concatenations have the same value in front and the same rest, whatever follows, except that no digit may follow a number |
| `CanonicalJson.NumbersRunOn` | src/auth/confirmation.ts:102-104 | the exception is needed: 1 followed by the digit 2 reads as 12 |
| `CanonicalJson.QuoteUnique` | src/auth/confirmation.ts:102-104 | a quoted string, escapes of section 7 of RFC 8259 included, can be cut off any text in one way only |
| `CanonicalJson.SortedKeeps` | src/auth/confirmation.ts:109 | sorting the keys keeps the meaning of an object and puts the fields in order |
| `CanonicalJson.SameText` | src/auth/confirmation.ts:101-114 | values that mean the same are printed alike |
| `JsonText.CanonicalText` | src/auth/confirmation.ts:101-114 | the canonical text of a value is what `JSON.stringify` prints for the same value with its keys in order |
| `JsonText.EscapeReads` | src/auth/confirmation.ts:103 | a quoted string, read by the grammar of section 7 of RFC 8259, is the string that was quoted |
| `Confirmation.VerifyMade` | src/auth/confirmation.ts:16-77 | a made token verifies exactly before its expiry and for the session, tool and input it was made for; otherwise the reason is as the source reports it |
| `Confirmation.AcceptedExactly` | src/auth/confirmation.ts:30-77 | a token is accepted exactly when it carries the keyed hash of its own first part and that part decodes to an unexpired payload for this request |
| `Confirmation.VerifyParts` | src/auth/confirmation.ts:36-77 | the verdict on every token by its two parts; a token of any other shape is malformed |
| `Confirmation.ConfirmsSameInput` | src/auth/tools.ts:172-209 | a confirmation shown for one input confirms another exactly when both denote the same JSON value and it has not expired |
| `Confirmation.ConsumedConfirmations.Gc` | src/auth/confirmation.ts:93-98 | exactly the entries past their expiry are forgotten |
| `Confirmation.ConsumedConfirmations.Has` | src/auth/confirmation.ts:83-86 | answers after collecting garbage, and changes nothing else |
| `Confirmation.ConsumedConfirmations.Consume` | src/auth/confirmation.ts:88-91 | remembers the token with its expiry after collecting garbage |
| `Confirmation.ConfirmationGate.VerifyAndConsume` | src/auth/tools.ts:189-209 | over any run with a clock that never goes back: a token already accepted is accepted again exactly when the first two clock readings of the call straddle its expiry, so never with one reading per call; a token not yet accepted passes exactly when it verifies |
| `Confirmation.StraddledReplay` | src/auth/tools.ts:189-209 | such a run: a token verified just before its expiry and looked up just after is accepted a second time |
| `TokenCodec.GenerateSecret` | src/auth/hash.ts:9-25 | the bit-packing loop with its wrapping buffer yields the 27 base-32 digits of the top 135 bits of 17 bytes |
| `TokenCodec.WindowIsExact` | src/auth/hash.ts:18-19 | the five bits taken from the wrapped 32-bit buffer are those of the unbounded number |
| `TokenCodec.ReadByte` | src/auth/hash.ts:14-16 | shifting a byte in keeps the buffer congruent to the number read and the emitted digits valid |
| `TokenCodec.SecretCollision` | src/auth/hash.ts:9-25 | two inputs give the same secret exactly when they differ at most in the very last bit |
| `TokenCodec.ParseToken` | src/auth/hash.ts:31-39 | accepts exactly the namespaced 27-character alphabet texts |
| `TokenCodec.ParseRecovers` | src/auth/hash.ts:27-39 | parsing gives the secret and prefix of a minted token, and no other text parses to that secret |
| `PatStore.ReplayAgrees` | src/auth/pat-store.ts:247-270 | the indexes a replay builds agree with the log: by id the last word of the log, by prefix the live holders in the order in which they took the prefix up |
| `PatStore.FreshLookupAnswers` | src/auth/pat-store.ts:210-227 | a lookup without cache answers with the live matching record that took up the prefix first, or unknown when no record matches |
| `PatStore.AnswerIs` | src/auth/pat-store.ts:237-245 | read off the log: the first matching record answers revoked exactly when it is, expired exactly when it is not and its expiry has come, found in all other cases; unknown exactly when none matches |
| `PatStore.FoundIsGood` | src/auth/pat-store.ts:237-245 | a PAT that is found is the last word of the log, unrevoked and unexpired |
| `PatStore.WinnerStays` | src/auth/pat-store.ts:210-226 | a change to one id leaves every other first match in place |
| `PatStore.CacheAfterMutation` | src/auth/pat-store.ts:247-326 | after indexing the records of a mutation, evicting its subject is enough for every cached answer to be right |
| `PatStore.DeadForever` | src/auth/pat-store.ts:181-289 | whatever mutations follow, no lookup ever finds a PAT that was revoked or deleted |
| `PatStore.ReplayedLookupAnswers` | src/auth/pat-store.ts:200-227 | a lookup in replayed indexes gives the answer read off the log itself |
| `PatStore.RotationIsMutation` | src/auth/pat-store.ts:156-170 | the two records of a rotation are a new PAT and the revocation of the old one, which is the one evicted |
| `PatStore.PatStore.constructor` | src/auth/pat-store.ts:247-270 | opening a store replays the log line by line |
| `PatStore.PatStore.IndexPat` | src/auth/pat-store.ts:306-320 | indexing a PAT in place equals the index function, leaving the old prefix bucket when the prefix changed |
| `PatStore.PatStore.LeaveBucket` | src/auth/pat-store.ts:308-312 | the id leaves the bucket and an emptied bucket is dropped |
| `PatStore.PatStore.Unindex` | src/auth/pat-store.ts:291-298 | a tombstone removes the id from both indexes, and an unknown id changes nothing |
| `PatStore.PatStore.BeginMint` | src/auth/pat-store.ts:89-112 | the PAT handed out is live, never revoked, of the holder and expiry asked for, and its token parses to its prefix and hashed secret |
| `PatStore.PatStore.BeginRotate` | src/auth/pat-store.ts:122-166 | fails exactly for an unknown or revoked PAT; otherwise queues a fresh PAT as asked for and the copy of the old one, revoked now with the reason that names its replacement |
| `PatStore.PatStore.BeginRevoke` | src/auth/pat-store.ts:181-194 | revoking an unknown PAT fails, revoking twice changes nothing, otherwise the revoked copy is queued |
| `PatStore.PatStore.BeginDelete` | src/auth/pat-store.ts:281-286 | only a revoked PAT may be deleted |
| `PatStore.PatStore.AppendLands` | src/auth/pat-store.ts:300-304 | between the append and the indexing, memory still accounts for the log before the append |
| `PatStore.PatStore.AppendFails` | src/auth/pat-store.ts:76-83 | a rejected append leaves the store as it was and ready for the next mutation |
| `PatStore.PatStore.Resume` | src/auth/pat-store.ts:89-198 | after a mutation the indexes are those of a replay of the whole log, and the cache is right for them |
| `PatStore.PatStore.InvalidateCacheForId` | src/auth/pat-store.ts:322-326 | exactly the entries of one id are dropped |
| `PatStore.PatStore.Lookup` | src/auth/pat-store.ts:200-245 | at any time and for any clock readings, a lookup through cache and prefix index answers as a store freshly replayed from the same log, and as the log itself says; what is found is unrevoked and unexpired |
| `PatStore.PatStore.LookupKey` | src/auth/pat-store.ts:204-227 | hit, expired entry and miss all answer as the uncached lookup and leave the cache right |
| `PatStore.PatStore.FindCandidate` | src/auth/pat-store.ts:210-226 | the candidate loop finds the first match in bucket order |
| `PatRuns.NothingPending` | src/auth/pat-store.ts:76-83 | when a queued mutation starts, no other mutation is pending: this follows from the chain of promises |
| `PatRuns.LandsNext` | src/auth/pat-store.ts:76-83 | appends land in the order in which the mutations were queued |
| `PatRuns.PatService.Queue` | src/auth/pat-store.ts:76-83 | a mutation may be queued at any time, whatever the others are doing |
| `PatRuns.PatService.Begin` | src/auth/pat-store.ts:89-198 | a mutation runs up to its append without asking anything of the store: refused exactly for an unknown PAT or one in the wrong state, otherwise handing out and queueing for its append what the operation means |
| `PatRuns.PatService.AppendLands` | src/auth/pat-store.ts:300-304 | the append lands, in arrival order, while lookups still see the log before it |
| `PatRuns.PatService.AppendFails` | src/auth/pat-store.ts:76-83 | a rejected append fails its mutation and the chain goes on |
| `PatRuns.PatService.Finish` | src/auth/pat-store.ts:89-198 | after a mutation the store accounts for the whole log |
| `PatRuns.PatService.Lookup` | src/auth/pat-store.ts:200-245 | in every interleaving of mutations a lookup gives the answer of the log the store accounts for; what is found is unrevoked and unexpired |
| `KeyedLock.NextKeeps` | src/namespaces/store.ts:239-254 | every step of every call keeps the lock invariant, a throwing body included |
| `KeyedLock.OneInBody` | src/namespaces/store.ts:239-254 | two calls inside their bodies hold different keys |
| `KeyedLock.ArrivalOrder` | src/rules/store.ts:57-77 | a call that has started finds every earlier call for its key finished |
| `KeyedLock.EntryWhileNeeded` | src/namespaces/store.ts:250-253 | the map has an entry for a key exactly while some call for it is unfinished |
| `KeyedLock.EveryRun` | src/namespaces/store.ts:239-254 | in every interleaving, with failures anywhere, each file is what the calls that took effect would make of it one by one in arrival order |
| `KeyedLock.StepsEnd` | src/namespaces/store.ts:239-254 | every step but an arrival uses up work, so runs without arrivals end |
| `KeyedLock.ChainSettles` | src/namespaces/store.ts:245 | among finished calls some unsettled promise of the chain can settle |
| `KeyedLock.Progress` | src/namespaces/store.ts:247-253 | no deadlock: while a call for a key is unfinished, some call for that key can step |
| `Members.MemberStore.UpsertMember` | src/namespaces/store.ts:260-280 | the saved list has exactly the returned member for that agent, with the original adder and date of an existing one |
| `Members.MemberStore.RemoveMember` | src/namespaces/store.ts:283-290 | returns how many entries went and saves nothing when none did |
| `Members.BodyIsPerAgent` | src/namespaces/store.ts:260-290 | one body keeps agent ids unique and does to each agent what the operation means for that agent alone |
| `Members.BodyKeepsOrder` | src/namespaces/store.ts:260-290 | the list keeps its order: an update stays in place, a new member comes last, a removal closes the gap |
| `Members.SequentialPerAgent` | src/namespaces/store.ts:260-290 | a sequence of bodies acts on each agent separately |
| `Members.ConcurrentMembers` | src/namespaces/store.ts:239-290 | in every interleaving, agent ids stay unique and each agent stands as a replay in arrival order leaves it |
| `Quota.QuotaService.ReserveQuota` | src/quota/quota-service.ts:184-197 | charges everything asked for or, when a limit would be breached, writes nothing |
| `Quota.QuotaService.ReleaseQuota` | src/quota/quota-service.ts:212-223 | takes the charge back, clamped at zero, after the day rollover |
| `Quota.GrantedExactly` | src/quota/quota-service.ts:65-105 | a request is granted exactly when, charged, it still fits the caps of everything it uses |
| `Quota.DenialNamesTheLimit` | src/quota/quota-service.ts:65-105 | a denial names a limit that one more charge would break, with the counter as it stands and its cap, and no earlier limit is broken |
| `Quota.SavedReads` | src/quota/quota-service.ts:266-309 | what is saved reads back on its own UTC day, and as zero on every other day |
| `Quota.FileReads` | src/quota/quota-service.ts:266-296 | what any file reads as: its counters on its own day, a missing one as zero; nothing on other days or when unreadable |
| `Quota.OneDayAtMost` | src/quota/quota-service.ts:285-293 | a file counts for one UTC day at most: on all other days every counter reads zero |
| `Quota.EstimatedTokens` | src/memory/tools.ts:196-201 | a quarter of content length and metadata bytes together, rounded up |
| `Quota.BodyStaysWithin` | src/quota/quota-service.ts:65-246 | a reserve or release keeps every counter between 0 and its cap, on whatever day it is read |
| `Quota.ConcurrentQuota` | src/quota/quota-service.ts:184-264 | so does every interleaving of reserves and releases with fixed caps, across midnights |
| `Quota.HandleStore` | src/memory/tools.ts:183-283 | unless the release itself rejects, the handler ends with the reservation exactly when it answers `inserted`; a store that threw is refunded even if its point has landed, a rejected reserve charges nothing, and a rejected release is not tried again |
| `Quota.ReleaseReservation` | src/memory/tools.ts:228-233 | at most one release per request, tried or not |
| `Quota.ReserveReads` | src/quota/quota-service.ts:184-233 | a grant raises each of the three counters by exactly its cost, a denial by nothing |
| `Quota.ReleaseReads` | src/quota/quota-service.ts:212-246 | a refund lowers each counter by its cost, down to zero at most |
| `Quota.RefundUndoesReserve` | src/quota/quota-service.ts:184-223 | reserving and refunding on one day leaves every counter as it was |
| `Quota.ClampNeverFires` | src/quota/quota-service.ts:236-246 | while counters are exact, a refund on the day of its reservation lowers the counter by its full cost: the clamp at zero never fires |
| `Quota.RefundExactly` | src/quota/quota-service.ts:212-246 | from exact counters, a refund leaves them exact exactly when the reservation is of today, or costs nothing on the meter, or finds the counter at 0 |
| `Quota.EventDrifts` | src/memory/tools.ts:183-283 | the law of the books for each event: counter and drift together are what is outstanding, the drift being what refunds of earlier days took, less what the clamp spared |
| `Quota.HistoryDrifts` | src/memory/tools.ts:183-283 | the law of the books for every interleaving of requests, refunds and midnights |
| `Quota.HistoryExactly` | src/memory/tools.ts:183-283 | counters equal outstanding reservations throughout a history exactly when no refund in it takes an earlier day's charge from today's counter |
| `Quota.HistoryBalanced` | src/memory/tools.ts:183-283 | in every interleaving of requests, refunds and midnights no counter exceeds what is outstanding |
| `Quota.WritesAreInsertions` | src/memory/tools.ts:183-283 | once all requests are done, the day's write counter and its drift add up to the calls that answered `inserted`; without an undercharging refund the counter is that number |
| `Quota.MidnightRefundUndercounts` | src/quota/quota-service.ts:212-293 | a refund across midnight takes back a charge of the new day: the counter shows 0 after one insertion |
| `QuotaRuns.MoveCouples` | src/quota/quota-service.ts:184-264 | each step of any handler, body or other namespace keeps the namespace's file equal to that of the book of its requests |
| `QuotaRuns.RunIsHistory` | src/quota/quota-service.ts:184-264 | in every interleaving under the lock, bodies loading and saving in separate steps, the file is that of a history of whole requests and refunds in the order in which their bodies wrote |
| `QuotaRuns.ConcurrentLedger` | src/memory/tools.ts:183-283 | so the law of the books and the exact condition for exact counters hold of every interleaving of handlers |
| `Embedding.TruncateCuts` | src/embeddings.ts:326-330 | truncation cuts between code points and keeps at most `max` of them |
| `Embedding.TruncateExactly` | src/embeddings.ts:326-330 | truncation takes off no more than it must: the text itself without a cap or within it, otherwise its first `max` code points |
| `Embedding.CodePointsAre` | src/embeddings.ts:328 | code points are surrogate pairs and single units that join to the text, and no pair is torn |
| `Embedding.LongestIs` | src/embeddings.ts:479 | the greatest number of code points among the inputs |
| `Embedding.CutOfCut` | src/embeddings.ts:478-487 | cutting again still gives a code-point prefix of the original |
| `Embedding.ShrinkNext` | src/embeddings.ts:478-487 | a truncation pass cuts each input to exactly its first code points within the new budget, keeps it a prefix of its original, and makes the longest one shorter |
| `Embedding.React` | src/embeddings.ts:440-549 | what one reply leads to: retry exactly on a transient fault with budget left, truncation exactly on a readable 413 with truncations left and room to shrink, otherwise an end with the outcome and the breaker record the source gives it |
| `Embedding.CheckDimensions` | src/embeddings.ts:534-544 | finds the first malformed or wrongly sized vector |
| `Embedding.FirstBadIs` | src/embeddings.ts:537-544 | no item is bad exactly when every vector has the expected dimension; otherwise it is the first one that has not |
| `Embedding.EmbedBatchInner` | src/embeddings.ts:396-559 | every admitted call ends after 1 to 12 requests, at most 3 counted retries (as many as there were transient faults) and 8 truncations; the first request carries each input whole or cut to exactly `maxInputChars` code points, each later one is the same after a transient fault or cut to exactly the new budget after a 413, and all are code-point prefixes of the inputs; a call fails with 413 only with its truncations used up or no room to shrink; the outcome is the verdict on the last reply, the breaker hears of it exactly once unless the body was rejected, and the code after the loop is unreachable |
| `Breaker.RecentTwice` | src/embeddings.ts:168-171 | pruning at an earlier cutoff first makes no difference |
| `Breaker.RecentOne` | src/embeddings.ts:168-171 | one entry stays exactly when it is newer than the cutoff |
| `Breaker.RecentAppend` | src/embeddings.ts:168-171 | a list is pruned entry by entry, in order |
| `Breaker.FailuresIs` | src/embeddings.ts:158 | the failures counted are the entries that are failures |
| `Breaker.CircuitBreaker.AllowRequest` | src/embeddings.ts:122-134 | denies exactly while open and within `openMs` of the last opening; half-open lets everything through |
| `Breaker.CircuitBreaker.Trim` | src/embeddings.ts:168-171 | the pruned window holds what the full history has inside the window |
| `Breaker.CircuitBreaker.RecordSuccess` | src/embeddings.ts:136-143 | acts as the breaker that never forgets; closes, with a notice, exactly from half-open |
| `Breaker.CircuitBreaker.RecordFailure` | src/embeddings.ts:145-166 | acts as the breaker that never forgets: opens from half-open, and from closed exactly when all outcomes inside the window meet the sample count and the ratio; open and close notices alternate |
| `Breaker.TwoProbes` | src/embeddings.ts:122-134 | a run in which half-open lets a second request through while the first is out |
| `Semaphore.Semaphore.Acquire` | src/embeddings.ts:300-309 | grants at once exactly below the bound, else queues; states exactly which arrivals break the bound |
| `Semaphore.Semaphore.Resume` | src/embeddings.ts:306-308 | a woken waiter counts its permit; no wake-up is lost |
| `Semaphore.Semaphore.Release` | src/embeddings.ts:311-315 | gives a permit back and wakes the first waiter |
| `Semaphore.PromptIsFair` | src/embeddings.ts:294-316 | while woken waiters resume before anyone arrives, permits held never exceed the bound and are granted in arrival order |
| `Semaphore.BargeInOvershoots` | src/embeddings.ts:306-315 | a call that slips in between wake-up and resumption leads to two permits under a bound of one, out of order |
| `RateLimit.LiveTwice` | src/transport/auth-rate-limit.ts:61 | pruning at an earlier cutoff first makes no difference |
| `RateLimit.LiveOne` | src/transport/auth-rate-limit.ts:61 | one failure is live exactly when it is newer than the cutoff |
| `RateLimit.LiveAppend` | src/transport/auth-rate-limit.ts:61 | a list is pruned failure by failure, in order |
| `RateLimit.CeilSeconds` | src/transport/auth-rate-limit.ts:70 | the least number of seconds that covers the milliseconds |
| `RateLimit.FreeExactly` | src/transport/auth-rate-limit.ts:55-74 | exactly when a limited IP without new failures is let through again: once the failure `max` places from the end of its live list has left the window |
| `RateLimit.PromiseExactly` | src/transport/auth-rate-limit.ts:68-72 | the `retryAfterSec` promise is kept exactly when that failure has left the window by then |
| `RateLimit.RetryAfterSuffices` | src/transport/auth-rate-limit.ts:68-72 | with at most `max` live failures and no new one, the IP is let through `retryAfterSec` seconds later |
| `RateLimit.UngatedRetryAfterFails` | src/transport/auth-rate-limit.ts:68-72 | without the gate the promise fails: a concrete history |
| `RateLimit.PruningKeeps` | src/transport/auth-rate-limit.ts:55-99 | pruning any of the lists at any later time keeps them as good as the full histories |
| `RateLimit.AuthFailureLimiter.Check` | src/transport/auth-rate-limit.ts:55-74 | decides as the full history of failures since the last success would |
| `RateLimit.AuthFailureLimiter.RecordFailure` | src/transport/auth-rate-limit.ts:77-84 | adds the failure to the history; at most `max` are live as long as failures are recorded only past the gate |
| `RateLimit.AuthFailureLimiter.RecordSuccess` | src/transport/auth-rate-limit.ts:87-89 | forgets the failures of that IP and of no other |
| `RateLimit.AuthFailureLimiter.Sweep` | src/transport/auth-rate-limit.ts:92-99 | cannot be observed: the history, on which every decision depends, stays |
| `RateLimit.ComeBackLater` | src/transport/http.ts:551-610 | in the order in which the gate calls the limiter, a limited IP is let through once it has waited `retryAfterSec` seconds, whatever checks, successes, sweeps and failures of other IPs come in between |
| `Reinforcement.RecordKeeps` | src/memory/reinforcement.ts:44-53 | a hit recorded at any moment of a flush is conserved |
| `Reinforcement.WriteKeeps` | src/memory/reinforcement.ts:79-97 | writing one point back, or failing to, accounts for its hits and leaves every other point balanced |
| `Reinforcement.ReinforcementBuffer.Record` | src/memory/reinforcement.ts:44-53 | buffers the hit and its time, whatever the flush is doing |
| `Reinforcement.ReinforcementBuffer.BeginFlush` | src/memory/reinforcement.ts:66-70 | takes the buffered hits out in one turn, or does nothing when there are none |
| `Reinforcement.ReinforcementBuffer.Retrieved` | src/memory/reinforcement.ts:72-79 | the points found wait to be written; no hit of a stored point is lost |
| `Reinforcement.ReinforcementBuffer.RetrieveFails` | src/memory/reinforcement.ts:73-77 | exactly the hits of the batch are lost |
| `Reinforcement.ReinforcementBuffer.WriteNext` | src/memory/reinforcement.ts:79-97 | stored, in-flight, pending and lost hits still add up to what was there plus what was recorded |
| `Reinforcement.ReinforcementBuffer.WriteFails` | src/memory/reinforcement.ts:94-96 | loses the hits of one point and nothing else |
| `Reinforcement.AllCounted` | src/memory/reinforcement.ts:44-98 | with nothing buffered, in flight or lost, the counter has grown by the hits recorded and bears the time of the last |
| `Metadata.BytesAreWeight` | src/memory/service.ts:687-696 | the serialised size of metadata is the sum over its fields |
| `JsonText.BytesAreUtf8` | src/memory/service.ts:687-696 | the size checked against the cap is the length of the UTF-8 encoding, by section 3 of RFC 3629, of the serialised metadata |
| `Metadata.WithoutIsSmaller` | src/memory/service.ts:536-537 | dropping a key never makes the text longer |
| `Metadata.CapMetadataForMerge` | src/memory/service.ts:532-551 | keeps the longest suffix of the history that fits 65,536 bytes and every other key; fits whenever the base did |
| `Metadata.CappedFits` | src/memory/service.ts:532-551 | metadata within the cap stays within it after a merge |
| `Metadata.CappedKeepsOthers` | src/memory/service.ts:532-551 | a merge changes no key but the history |
| `Metadata.MergeIs` | src/memory/service.ts:489-551 | what a merge leaves under each key: all others as before, and under the history the longest end of prior entries and new content that has at most five entries and fits the cap |
| `Metadata.NewestIsKept` | src/memory/service.ts:496-499 | a history that is kept at all ends in the new content |
| `MemoryStore.TombstoneHistory` | src/memory/service.ts:321-417 | in any run, a tombstone has been there without interruption since the moment its date names |
| `MemoryStore.RemovedOnlyAfterGrace` | src/lifecycle/decay.ts:162-250 | in any run without operator purge, a point vanishes only in a sweep of its decaying namespace, not being immortal, after lying tombstoned without interruption for longer than the grace period |
| `MemoryStore.MergeFits` | src/memory/service.ts:489-522 | a merged point fits the cap and is immortal exactly if it was |
| `MemoryStore.BestLiveIs` | src/memory/service.ts:455-462 | the hit chosen is the first on a stored point that is neither tombstoned nor superseded |
| `MemoryStore.MemoryService.Store` | src/memory/service.ts:114-165 | the whole new store and answer for each outcome: insert, reinforce or merge by the two thresholds, accepted marks on superseded points; rejected inputs and ids of another namespace change nothing; when the superseded points cannot be retrieved the call fails although the new point has landed; metadata stays within the cap; each new, reinforced or merged point is given field by field |
| `MemoryStore.MemoryService.Validate` | src/memory/service.ts:631-696 | accepts exactly the inputs within every limit |
| `MemoryStore.MemoryService.SearchTopOne` | src/memory/service.ts:439-463 | the best hit that is neither tombstoned nor superseded |
| `MemoryStore.MemoryService.Merge` | src/memory/service.ts:489-522 | field by field: tags united with the old ones in front, the history kept as `Metadata.MergeIs` says, one more retrieval, content and everything else untouched, no other point changed |
| `MemoryStore.MemoryService.MarkSuperseded` | src/memory/service.ts:173-203 | marks and reports exactly the other existing points of the namespace that are named and whose mark is accepted; fails exactly when there are targets and they cannot be retrieved |
| `MemoryStore.MemoryService.UpdateMetadata` | src/memory/service.ts:352-375 | succeeds exactly for valid fields of a live point of the namespace; each field takes the new value where one is given and keeps the old one elsewhere |
| `MemoryStore.MemoryService.SoftDelete` | src/memory/service.ts:390-417 | a tombstone on an own live point, never a removal |
| `MemoryStore.MemoryService.Restore` | src/memory/service.ts:321-335 | lifts the tombstone of an own point, and leaves a live one alone |
| `Decay.SweepAgain` | src/lifecycle/decay.ts:160-205 | sweeping a point again at the same instant changes nothing, unless it was just tombstoned and the grace period is negative |
| `Decay.SweepTwice` | src/lifecycle/decay.ts:127-253 | a second sweep at the same instant, with the same writes failing, changes the store exactly when it removes a point the first has just tombstoned |
| `Decay.SweepIsIdempotent` | src/lifecycle/decay.ts:127-253 | with a grace period that is not negative, a second sweep at the same instant changes no point, whichever writes fail |
| `Decay.SweptStep` | src/lifecycle/decay.ts:127-253 | a sweep is a lawful step in the life of every point and keeps metadata bounded |
| `Decay.SweptIs` | src/lifecycle/decay.ts:127-253 | what becomes of each point, in its own fields: exactly who is removed, exactly who is tombstoned, what score is given, and that nothing else changes |
| `Decay.ReportIs` | src/lifecycle/decay.ts:252 | the report counts the live points scored, the points newly tombstoned and the points removed |
| `Decay.ScoresStayInRange` | src/lifecycle/decay.ts:179-188 | decay scores stay in [0, 1], and a retrieved memory never falls below the floor |
| `Decay.OlderScoresLower` | src/lifecycle/decay.ts:179-188 | with a falling half-life curve, the memory idle for longer never scores higher, clamp and floor included |
| `Decay.PlanWrites` | src/lifecycle/decay.ts:216-236 | applied one after another, the planned writes rescore exactly the listed live points |
| `Decay.PlanIsPointwise` | src/lifecycle/decay.ts:127-253 | plan, write and removal together equal the pointwise sweep, whatever the scan order |
| `Decay.DecaySweeper.SweepNamespace` | src/lifecycle/decay.ts:127-253 | the paged sweep equals the pointwise one; a live point comes out tombstoned exactly when it is in the namespace, not immortal, writable, never retrieved, and idle for longer than the threshold set; the report counts what changed; keep-forever namespaces are skipped; it is a lawful step |
| `Decay.DecaySweeper.Plan` | src/lifecycle/decay.ts:148-208 | page boundaries do not matter: the plan is that of one pass |
| `Decay.DecaySweeper.PlanPage` | src/lifecycle/decay.ts:161-205 | one page extends the plan by its points: immortal ones skipped, tombstones past grace listed, the others rescored |
| `Decay.DecaySweeper.ApplyWrites` | src/lifecycle/decay.ts:216-236 | writes are applied in order; only accepted soft deletions are counted |
| `Decay.DecaySweeper.Remove` | src/lifecycle/decay.ts:239-250 | removes and counts all listed points, or none when the call fails |
| `Decay.InterludeKeeps` | src/lifecycle/decay.ts:210-236 | between scan and removal a planned point stays, and its tombstone is untouched, lifted, or set at the sweep's instant or later |
| `Decay.LateRemoval` | src/lifecycle/decay.ts:239-250 | whatever service operations and writes of the sweep come between scan and removal, the removal is lawful exactly when every planned point still bears the tombstone the scan saw and has not become immortal |
| `Decay.RestoredMidSweep` | src/lifecycle/decay.ts:148-250 | a point past grace that is restored between scan and removal is removed although live |
| `Search.SortSorts` | src/memory/service.ts:264 | ranking is a descending arrangement of the same points |
| `Search.FilterIsRedundant` | src/memory/service.ts:255-259 | the in-code filter removes nothing that the collection's filter let through |
| `Search.KeptAre` | src/memory/service.ts:255-259 | the in-code filter keeps exactly the live points, and superseded ones only when asked to |
| `Search.RankedIsBestOfFetched` | src/memory/service.ts:239-267 | the answer is the best `limit` of what was fetched |
| `Search.ReturnedPoints` | src/memory/service.ts:222-259 | every point returned is of the namespace asked for, live, not superseded unless asked for, and has all the tags |
| `Search.AllReturned` | src/memory/service.ts:222-267 | when no more than `limit` such points exist, each of them is returned |
| `Search.BlendIs` | src/memory/service.ts:262 | the score is the cosine at weight 0, cosine times decay at weight 1, and moves linearly in between |
| `Search.ScoreIs` | src/memory/service.ts:260-263 | a point is scored with its own decay score |
| `Search.SearchIsExact` | src/memory/service.ts:218-268 | the answer is the best `limit` of all live matches, up to ties, whenever all matches were fetched, or the worst fetched cosine is at most the last score returned, or decay has no weight |
| `Search.PageGuarantees` | src/memory/service.ts:218-268 | exactly when a page can be relied on: it guarantees the true top `limit`, whatever else the collection holds, if and only if it is not full or its last cosine is at most the last score returned |
| `Search.SearchCanMiss` | src/memory/service.ts:218-268 | a concrete collection whose page misses the best match |
| `Address.ParseIpv4` | src/lifecycle/staleness.ts:66-77 | the loop reads four octets into one 32-bit number, or nothing |
| `Address.OctetExactly` | src/lifecycle/staleness.ts:71-73 | a part is an octet exactly when it is one to three digits, leading zeros allowed, worth at most 255 |
| `Address.Ipv4RoundTrip` | src/lifecycle/staleness.ts:66-77 | a dotted quad reads back as its four numbers |
| `Address.Ipv4OnlyQuads` | src/lifecycle/staleness.ts:66-77 | whatever is accepted is four octets joined by dots |
| `Address.MaskIsInterval` | src/lifecycle/staleness.ts:89-95 | a mask test, shifts wrapping at 32 bits, is a test for the numeric interval that starts at the base |
| `Address.BlockedIpv4Is` | src/lifecycle/staleness.ts:86-107 | the nine tests together are the documented intervals, and what does not parse is blocked |
| `Ipv6.ParseSide` | src/lifecycle/staleness.ts:124-132 | reads every part of a side as a group of one to four hexadecimal digits, or refuses the side |
| `Ipv6.GroupExactly` | src/lifecycle/staleness.ts:128-129 | a part is a group exactly when it is one to four hexadecimal digits, each worth sixteen times the next |
| `Ipv6.HexDigitsAre` | src/lifecycle/staleness.ts:129 | the sixteen digits and their values, in either case |
| `Ipv6.GroupsToBytes` | src/lifecycle/staleness.ts:146-151 | two bytes per group, high byte first |
| `Ipv6.PlainText` | src/lifecycle/staleness.ts:110-152 | eight groups without `::` are read one by one, and no other number of them |
| `Ipv6.CompressedText` | src/lifecycle/staleness.ts:122-145 | `::` stands for the zero groups missing to eight, wherever it is placed |
| `Ipv6.MixedText` | src/lifecycle/staleness.ts:113-145 | six groups and a dotted tail |
| `Ipv6.CompressedMixedText` | src/lifecycle/staleness.ts:113-145 | `::` with groups after it and a dotted tail |
| `Ipv6.GapBeforeTail` | src/lifecycle/staleness.ts:119-120 | `::` directly before a dotted tail is refused unless six groups stand in front |
| `Ipv6.ZoneIgnored` | src/lifecycle/staleness.ts:111 | a zone id changes nothing |
| `Ipv6.BlockedIpv6Is` | src/lifecycle/staleness.ts:160-176 | an address that embeds an IPv4 address is classified like it, the others exactly by the documented prefixes |
| `Ipv6.MappedLikeIpv4` | src/lifecycle/staleness.ts:110-176 | the text `::ffff:a.b.c.d` expands to its 16 bytes and is blocked exactly when `a.b.c.d` is |
| `Ipv6Forms.ExpandsExactly` | src/lifecycle/staleness.ts:122-145 | a text in front of a tail expands, to given groups, exactly when it is groups that fill up to eight, or groups around one `::` |
| `Ipv6Forms.Ipv6ReadsExactly` | src/lifecycle/staleness.ts:110-145 | both directions for every text: which literals are accepted, and the eight groups each one means |
| `Rules.ClosingFound` | src/rules/frontmatter.ts:20 | the first closing delimiter is the one that ends the block, whatever follows |
| `Rules.ClosingIs` | src/rules/frontmatter.ts:20 | the first delimiter is found wherever there is one |
| `Rules.RuleRoundTrip` | src/rules/frontmatter.ts:13-74 | printing and parsing gives the same frontmatter and the body with at most one newline added, delimiter lines in the body included; printing fails exactly for invalid frontmatter |
| `Rules.RuleStore.UpsertRule` | src/rules/store.ts:134-176 | the rule then loads as returned, up to the final newline; an error writes nothing |
| `Rules.UpsertThenLoad` | src/rules/store.ts:79-176 | after an upsert the rule loads with what was asked for, its creation facts and unmentioned fields carried over, and no other rule has changed |
| `RuleLocks.BodyIsPerRule` | src/rules/store.ts:134-176 | one upsert keeps every rule readable and does to each rule what it means for that rule alone |
| `RuleLocks.ConcurrentUpserts` | src/rules/store.ts:57-176 | in every interleaving, with failures anywhere, every rule is readable and stands as a replay of the upserts in arrival order leaves it |
| `Rules.ProcessNote` | scripts/migrate-claude-memory.ts:218-338 | the verdict on one note and the files after it, for every branch of the loop body |
| `Rules.NoteReads` | scripts/migrate-claude-memory.ts:120-155 | a note with frontmatter: title, or failing that name, trimmed; tags and severity; the rest is body |
| `Rules.PlainNote` | scripts/migrate-claude-memory.ts:125-136 | a note that does not open with a delimiter line, or never closes it, is all body |
| `Rules.UnreadableNote` | scripts/migrate-claude-memory.ts:142-152 | so is a note whose frontmatter cannot be read |
| `Rules.TrimIs` | scripts/migrate-claude-memory.ts:243-247 | trimming takes off the white space at both ends, and nothing else |
| `Rules.SameContentExactly` | scripts/migrate-claude-memory.ts:161-173 | two rules count as the same exactly when they agree in everything but white space at the end of the body |
| `Rules.Migrate` | scripts/migrate-claude-memory.ts:179-341 | files are those of the verdicts one after another, and the summary counts how many notes got each verdict |
| `Rules.TallyCounts` | scripts/migrate-claude-memory.ts:205-338 | a summary counts each note once, under its verdict |
| `Rules.MigrateStores` | scripts/migrate-claude-memory.ts:218-338 | after an error-free migration, every note that has an id is stored as a rule that says what the note says |
| `Rules.CreatedByMigration` | scripts/migrate-claude-memory.ts:322-331 | a rule that the migration creates names it as its creator and applies everywhere |
| `Rules.DryRunWritesNothing` | scripts/migrate-claude-memory.ts:288-321 | a dry run leaves every rule as it was |
| `Rules.MigrateTwice` | scripts/migrate-claude-memory.ts:161-338 | after an error-free migration a second one reports every rule unchanged and writes nothing, exactly when notes that share a rule id agree on its content |
| `RuleIds.DerivedIdIsClean` | scripts/migrate-claude-memory.ts:82-93 | a derived id is a well-formed rule id without doubled hyphens |
| `RuleIds.DerivedExactly` | scripts/migrate-claude-memory.ts:82-93 | the five replacements come to one pass: the letters and digits of the lower-cased stem in order, with one hyphen between two of them exactly when a separator or hyphen stands in between |
| `RuleIds.OwnId` | scripts/migrate-claude-memory.ts:82-93 | exactly the rule ids without doubled hyphens are their own id |
| `RuleIds.DerivingAgain` | scripts/migrate-claude-memory.ts:82-93 | deriving an id from a derived id gives it back |

## Assumptions

- HMAC, SHA-256 and base64url are function-valued fields. Encoded texts contain no dot and decode to what was
  encoded; where two inputs are compared by digest, the digest is assumed free of collisions on those two texts.
- The YAML library is a function-valued field: a printed frontmatter block ends in a newline, contains no closing
  delimiter, and reads back exactly. `toLowerCase`, `0.5 ** x` and `Math.floor(longest * 0.7)` are parameters; the
  guard in the source around the last one is all that termination uses.
- Newly generated identifiers occur nowhere in the store or log.
- Clock readings never decrease. Where one call of the source reads the clock several times, `Confirmation` and
  `PatStore.PatStore.Lookup` take several readings; the other operations take one.

## Left out

- Qdrant, HTTP, DNS, git and the file system: a map of points or files, a log, or a reply given as a parameter.
- A vector search: its answer is a parameter, exact and in order; approximate neighbours are not modelled.
- Numbers in canonical JSON other than integers, negative zero, and integers printed with an exponent.
- Floating point: scores, ages and ratios are reals.
- `Retry-After` and back-off delays, metrics, audit lines and the regeneration of the rule index.
- The breaker's and the limiter's several clock readings within one call: one reading per call.
- PAT log lines that do not parse, and appends that land only in part.
- The locks are not classes: the chain of promises is a state machine over values (`KeyedLock`). Which promise object a
  map entry is, is the number of the call that made it.
- Rule deletion under the rule store's lock; the quota service's lock is `KeyedLock` with entries never dropped.
- Concurrency inside one memory operation (a read and its write): store, update, restore and delete are atomic steps.
  Sweeps are atomic too, but for `Decay.LateRemoval` and `Decay.RestoredMidSweep`.
- `QuotaRuns` follows one namespace at a time, assumes that no body of it runs on an earlier UTC day than the one
  before, and leaves out `record`.
- Quota `record` (unchecked increment) is outside the theorem on caps, which it can exceed by design.
- Overlapping flushes of the reinforcement buffer, and other writers of the counter while one runs.
- The fields `kind`, `stalenessSignal` and `verifiesAgainst`, the payload mappers and the default of absent fields.
- The operator's hard purge: it removes points at will, and the theorem on removal excludes it.
- Dates that do not parse: instants are integers.
- The choice between the IPv4 and IPv6 classifier by the runtime's address check, and name resolution.
- `src/embeddings-yandex.ts`: a simpler copy of the retry loop.
- The console, routes, configuration, certificates, billing and the vector cascade.
