# CivicPulse, modelled and proved

CivicPulse takes citizens' complaints, has a language model (or keyword rules) triage them, stores them in
PostgreSQL and shows operators a list and statistics. Redis caches statistics and triage results, and counts
requests for the rate limiter. Nothing in Redis is trusted to be there: every operation may be lost.

The project models the parts where that is delicate.

**The complaint store** (`Store`, `StoreInvariant`, `StoreTheorems`, `StoreExactness`, `Services`, `ComplaintServices`, `Paging`).
Every request is a process whose statements are separate steps: a statistics reader probes the cache, runs five
queries and stores; a writer locks, checks, writes, commits and then deletes the cache key. Steps of any number of
requests interleave freely. Any Redis operation may be lost, any process may die between two steps, and rows may
be changed behind the service's back. PostgreSQL is a list of committed tables (each statement sees the last one) and
row locks, which is READ COMMITTED, since the engine is created without an isolation level. The service code
itself is modelled as classes whose methods run one statement at a time, with arbitrary steps of others in between;
each statement is checked against the step it is booked as, so what is proved of runs holds of the code.
What is said of histories, pages and the order of figures assumes that only this service commits.

**Triage** (`TriageSystem`, `TriageTheorems`, `TriageServices`, `Contract`, `CacheKey`, `Retry`, `Rules`). Calls on
any number of replicas share one Redis; the provider answers or raises as it likes; other clients may write anything
under a triage key. `TriageServices` connects the service code to the system in the same way.

**The rate limiter** (`RateLimiting`, `RateIntervals`), **the prompt** (`Prompt`, `PromptPattern`), and what they all rest on:
`Domain`, `Text`, `Cache`, `Keys`, `Aggregates`.

## What the proofs found

* Deleting the statistics after the commit does not keep a concurrent reader from caching stale numbers, as the
  comment at `backend/app/services/complaint_service.py:40` says it does. `ReaderMayRecacheStaleNumbers` is a
  run in which it does so. `LiveEntryExactIff` says exactly when cached figures are right, `QuiescentEntryExact`
  what has gone wrong at rest when they are not. What bounds the damage is the time to live: `HitIsBounded`,
  `StalenessBound`.
* The time to live is documented to bound staleness by itself even when invalidation is missed. It does not, even
  when none is missed: `StalenessBoundIsTight` reaches it plus the time a reader takes to collect and store.
* That an interval as long as a window admits at most twice the limit is true on the replicas' own clocks. In real time, with replicas up to
  half a second off, three times is reached (`ThriceIsReached`); twice holds exactly for intervals 999 ms shorter
  (`TwiceExactlyIf`), or if the clocks agree.
* The rules never fail according to their module's first line, but `FailsExactlyOnVisibleLineBreak` shows that they
  raise exactly when the part of the location that the summary shows contains a line break. So a citizen does see a
  500 when the provider fails on such a location (`FailingFallbackRaises`, `TwoLineLocationRaises`), although the
  triage service's first lines say otherwise. The same happens when another client has left something under the
  triage key that does not decode, or is neither null nor an object (`UnreadablePayloadRaises`). The contract of
  `TriageService.Triage` says that there is no other way, and that each of these is one.
* Walking the pages until `page * page_size >= total` can miss a complaint that was there all along, because the
  total and the rows come from two statements (`InsertBetweenStatementsHidesARow`). `SeenIffReached` is the
  exact condition, `NothingMissed` what suffices, `MissedAtMostAddedMeanwhile` the bound in general. The guarantee
  holds exactly for filters without a status or on resolved or rejected, which are never left (`MissesNothingIffSettled`);
  a filter on open or in_progress can skip a row that fits it all along (`StatusFilterSkipsARow`).
* A `|` in a complaint, in its text or its location, can be traded for the cache key's separator unless there is a
  blank beside it: `CollidesExactly`.
* The prompt's delimiters are safe as literals. Read as matches of `_TAG` they are not when an input ends in an
  unclosed tag: `OnlyDelimitersMatch` gives the exact condition.

## Model

| member | source | states |
|---|---|---|
| StoreInvariant.RunKeepsInv | backend/app/services/stats_service.py:31-51 | Every reachable state keeps the invariant: versions are timed in order and each own commit is one legal change; readers have seen versions in order, none older than when they began; the cached entry is what such a reader computed; a lock holder's row is as it was read; every commit's deletion is pending, done or known to be lost; no two requests own one commit |
| StoreInvariant.StepKeepsInv | backend/app/services/complaint_service.py:52-64 | Each step of each request, clock or foreign writer keeps the invariant |
| StoreInvariant.CommitIsLegal | backend/app/services/complaint_service.py:26-39 | A commit inserts one open complaint or moves one complaint along the transition table, and does nothing else |
| StoreTheorems.HitIsBounded | backend/app/services/stats_service.py:33-35 | In every interleaving, with deletions lost and processes dying, what a hit returns was collected from versions no older than the one current when its producer began, and stored less than the time to live ago |
| StoreTheorems.StalenessBound | backend/app/services/stats_service.py:1-8 | If producers take at most d from first statement to store, every commit older than the time to live plus d is reflected in every figure of a hit |
| StoreTheorems.StalenessBoundIsTight | backend/app/services/stats_service.py:6-8 | For every time to live and every d, a legal run with no deletion lost in which a hit misses a commit one millisecond younger than the time to live plus d: the time to live alone is not a bound |
| StoreTheorems.StaleEntryExplained | backend/app/services/complaint_service.py:38-41 | If no deletion is missed, a live entry that differs from the table has a commit, later than its producer's start, whose deletion is pending or had run before the entry was stored |
| StoreExactness.AssembledExactIff | backend/app/services/stats_service.py:37-46 | Figures assembled from five tables on the way to a table are that table's figures if and only if no complaint was created since the COUNT and the by-status statement saw that very table |
| StoreExactness.LiveEntryExactIff | backend/app/services/complaint_service.py:38-41 | In every interleaving, whatever deletions are lost, the figures of a live entry are those of the table if and only if no commit overtook its collection: none after its by-status statement, and none that created a complaint after its COUNT |
| StoreExactness.QuiescentEntryExact | backend/app/services/complaint_service.py:38-41 | With all writers done and no deletion missed, the figures of the live entry are wrong if and only if some commit overtook its collection, and its writer had then deleted the key before the entry was stored |
| StoreExactness.EqualBucketsMeanEqualTables | backend/app/domain.py:36-41 | Between two tables of equal size in one history, equal counts of every status mean equal tables |
| StoreTheorems.AtomicGetsAreExactAtRest | backend/app/services/stats_service.py:31-48 | If nothing is committed while a reader is at work and no deletion is missed, a live entry is exact unless the last committer has yet to delete |
| StoreTheorems.ReaderMayRecacheStaleNumbers | backend/app/services/complaint_service.py:40 | A legal run at whose end everyone is done, no deletion was missed, and the live entry does not count the committed row: the comment's claim is false |
| StoreTheorems.HistoryIsPath | backend/app/domain.py:36-51 | In every reachable history each complaint's statuses form a path in the transition table, from open if it was created in the run |
| StoreTheorems.ComplaintHistory | backend/app/services/complaint_service.py:52-64 | Over a whole run a complaint changes status at most twice, along the table, ending in its current status |
| StoreTheorems.RowsClimb | backend/app/repositories/complaint_repository.py:50-53 | Between two versions a complaint's status only climbs and no other modelled column changes; updated_at, which every change writes, is not modelled |
| StoreTheorems.AtMostOneSucceeds | backend/app/services/complaint_service.py:53-62 | Of any number of requests for one status of one complaint at most one is ever committed |
| StoreTheorems.TerminalIsForever | backend/app/domain.py:39-40 | A resolved or rejected complaint never changes again |
| StoreTheorems.FiguresDisagreeInOrder | backend/app/repositories/complaint_repository.py:91-104 | With commits between the five statements, total <= sum by category <= by priority <= by status <= by provider, and all are equal if no complaint was created meanwhile |
| Services.LockHolderSeesCurrent | backend/app/repositories/complaint_repository.py:62-66 | When the lock holder commits, the current row is still the row it read, and the transition is allowed |
| Services.Backend.Others | backend/app/db.py:9-13 | Whatever others do between two statements of a request, its own position is untouched and committed versions stay |
| Services.ComplaintRepository.Aggregates | backend/app/repositories/complaint_repository.py:91-104 | The results are the count and exact average latency of the table the first statement saw, and the four groupings of those the others saw |
| Services.ComplaintRepository.Statement | backend/app/repositories/complaint_repository.py:92-96 | One query sees one committed table, no older than at the call |
| Services.ComplaintRepository.List | backend/app/repositories/complaint_repository.py:68-89 | The total is the number of rows with the columns asked for in the table the COUNT saw; the rows, from the table the SELECT saw, which may be later, have the columns asked for, come newest first and by id among equals, and are the requested page of that unique listing |
| Services.ComplaintRepository.Conditions | backend/app/repositories/complaint_repository.py:69-75 | The conditions collected hold of exactly the rows that fit the filters |
| Services.ComplaintRepository.GetForUpdate | backend/app/repositories/complaint_repository.py:62-65 | Grants the row lock when it is free and returns the row as then committed; reports a missing row |
| Services.ComplaintRepository.SetStatus | backend/app/repositories/complaint_repository.py:50-53 | Writes an allowed change into the session, nothing yet into the table |
| Services.ComplaintRepository.Rollback | backend/app/repositories/complaint_repository.py:58-59 | Gives up the lock and the change |
| Services.ComplaintRepository.Add | backend/app/repositories/complaint_repository.py:37-40 | Puts an open complaint into the session, nothing yet into the table |
| Services.ComplaintRepository.CommitNew | backend/app/repositories/complaint_repository.py:55-56 | Adds a version with exactly the new row added, or fails if its key was taken |
| Services.ComplaintRepository.CommitChange | backend/app/repositories/complaint_repository.py:55-56 | Adds a version in which exactly this row, which is still as it was read, has the new status |
| ComplaintServices.StatsService.Get | backend/app/services/stats_service.py:31-48 | The cache is asked first, and the answer is a hit if and only if it was reached and the key was live; a hit returns the figures of that entry, stored less than the time to live ago; a miss returns figures collected by this request from versions no older than the one current at the call, and stores them; either way they are the zero-filled groupings of the tables seen |
| ComplaintServices.StatsService.Collect | backend/app/services/stats_service.py:36-48 | The miss path aggregates, fills in zeros and stores what it returns |
| ComplaintServices.StatsService.Invalidate | backend/app/services/stats_service.py:50-51 | The commit's deletion is done if Redis was reached and missed otherwise; the request ends either way |
| ComplaintServices.ComplaintService.Create | backend/app/services/complaint_service.py:22-41 | A created complaint is committed in exactly one version: the citizen's text, location and contact, status open, the creation time, and the category, priority, summary, provider and latency of its triage, which come from the usable cached entry, else the provider's answer, else the rules; it meets the length limits and CHECK constraints as the table states them. Otherwise nothing is stored, exactly when triage raises or a column is too small, and the blame is with other clients' cache writes, an unsummarisable location, or a provider name or latency too large; or the identifier was taken |
| ComplaintServices.ComplaintService.ChangeStatus | backend/app/services/complaint_service.py:52-64 | Success returns the row as committed, which is the row as locked with the new status, a rejection or the next status of an unfinished complaint; a refusal reports a status the complaint had during the call, from which the change is neither; otherwise the complaint is missing or stayed locked |
| ComplaintServices.OneWinner | backend/app/services/complaint_service.py:53-62 | If two requests have each been told, at whatever times, that they moved one complaint to one status, they are the same request |
| Aggregates.CountBy | backend/app/repositories/complaint_repository.py:92-94 | A group is present if and only if some row is in it, and its count is their number |
| Aggregates.GroupsPartition | backend/app/repositories/complaint_repository.py:92-94 | Whatever the column, the group counts add up to the size of the table |
| Aggregates.ZeroFillKeepsSum | backend/app/services/stats_service.py:40-42 | Zero-filling changes no sum |
| Aggregates.BreakdownsAddUp | backend/app/services/stats_service.py:38-44 | Each breakdown adds up to the size of the table its own statement saw, and the average times the total is the sum of the latencies |
| Aggregates.TotalOf | backend/app/repositories/complaint_repository.py:96 | The latencies add up to the same sum in whatever order the rows are taken |
| Aggregates.StatusChangeMovesOneUnit | backend/app/services/complaint_service.py:61-62 | A status change moves exactly one unit between two buckets and leaves every other figure, the average included |
| Aggregates.NewComplaintAddsOneUnit | backend/app/services/complaint_service.py:38-39 | A new complaint adds exactly one unit to its own group in every dimension and to the total, and its own latency to the average times the total |
| Paging.SortedLists | backend/app/repositories/complaint_repository.py:82 | The listing holds each chosen row once, newest first and by id among equals |
| Paging.ListingIsUnique | backend/app/repositories/complaint_repository.py:82 | There is only one such order |
| Paging.PagesJoinUp | backend/app/repositories/complaint_repository.py:83-84 | Of an unchanging listing the first n pages join up to its beginning, and to all of it once n pages reach the total |
| Paging.ListingStays | backend/app/repositories/complaint_repository.py:76-85 | While the number of fitting complaints stays the same, so does the listing, whatever statuses change |
| Paging.WalkJoinsUp | backend/app/repositories/complaint_repository.py:68-89 | If no complaint comes to fit during a client's walk, the pages it is shown join up to the listing, each complaint once and in order |
| Paging.OnPageByRank | backend/app/repositories/complaint_repository.py:83-84 | A row is on the page its rank falls in, and on no other |
| Paging.FilterMatchesStatistics | backend/app/repositories/complaint_repository.py:69-77 | As many complaints fit a filter on one column as the statistics count in that group |
| Paging.FiltersIntersect | backend/app/repositories/complaint_repository.py:69-75 | A filter on several columns selects what each selects, and an empty filter everything |
| Paging.RankNeverDrops | backend/app/repositories/complaint_repository.py:68-89 | While others create complaints and change statuses, a row chosen by a filter without a status, or on resolved or rejected, stays chosen and is only pushed down |
| Paging.SeenIffReached | backend/app/services/complaint_service.py:49-50 | With such a filter, a client walking the pages sees a complaint if and only if some page it fetches ends past the rank the complaint has by then |
| Paging.NothingMissed | backend/app/repositories/complaint_repository.py:77-89 | With such a filter, walking to the end misses no complaint there at the start, provided the last SELECT found no more rows than its COUNT |
| Paging.MissedAtMostAddedMeanwhile | backend/app/repositories/complaint_repository.py:77-89 | In general no more are missed than came to fit between the two statements of the last fetch |
| Paging.InsertBetweenStatementsHidesARow | backend/app/repositories/complaint_repository.py:77-89 | A legal run in which a client that stops as told misses a complaint that was there from the start |
| Paging.StatusFilterSkipsARow | backend/app/repositories/complaint_repository.py:74-75 | For every filter on open or in_progress, a legal run in which a row fitting it throughout is never shown |
| Paging.MissesNothingIffSettled | backend/app/repositories/complaint_repository.py:68-89 | The guarantee that nothing is missed holds of a filter if and only if it has no status or one that is never left |
| Domain.PathsAreShort | backend/app/domain.py:36-41 | A path in the transition table has at most three statuses, each of higher rank |
| Domain.AllowedIffAdvances | backend/app/domain.py:36-51 | A change is allowed if and only if the complaint is neither resolved nor rejected, and it is to rejected or to the next status in the order of declaration |
| Domain.OfferedIffAllowed | backend/app/domain.py:44-51 | The transitions offered are exactly those allowed, that is a rejection or the next status of an unfinished complaint, each once, in the order of declaration |
| Cache.JsonCache.Get | backend/app/providers/cache.py:27-33 | The live value under the key, nothing if Redis is down or the key has expired, an error if the bytes do not decode |
| Cache.JsonCache.Set | backend/app/providers/cache.py:35-39 | If Redis is reached and the lifetime is positive the value is found under the key at once; every other key is as before |
| Cache.FoundUntilExpiry | backend/app/providers/cache.py:35-39 | A stored value is found until its lifetime is over and never after |
| Cache.JsonCache.Delete | backend/app/providers/cache.py:41-45 | If Redis is reached nothing is found under the key; every other key is as before |
| Cache.JsonCache.Incr | backend/app/providers/cache.py:47-51 | The counter is one higher if Redis is reached, and every other counter is as before |
| Cache.JsonCache.PushCapped | backend/app/providers/cache.py:59-66 | If Redis is reached the item heads its list, which is within the cap; every other list is as before |
| Cache.PushKeepsNewest | backend/app/providers/cache.py:59-66 | Trimming on every push loses no item that will be asked for: the list is always the newest of the whole log |
| RateLimiting.RateLimiter.Hit | backend/app/providers/cache.py:96-111 | A call that hears from Redis is allowed if and only if it is among the first `limit` counted in its window by any replica, and is told exactly how many are left and the least whole number of seconds to a later window; one that does not hear is allowed |
| RateLimiting.KeysInjective | backend/app/providers/cache.py:98-99 | Two identities or two windows never share a counter, whatever characters an identity holds |
| RateLimiting.NoResetWithinWindow | backend/app/providers/cache.py:98-104 | With clocks up to half a second off, a window's counter is still alive whenever the window can still be hit |
| RateLimiting.CountersExact | backend/app/providers/cache.py:100-103 | Through every run each counter holds exactly the number of executed hits and an expiry one second past a window after the last of them |
| RateLimiting.DecisionExact | backend/app/providers/cache.py:109-111 | The n-th counted hit is allowed if and only if n <= limit, and the remaining count is exact and never negative |
| RateLimiting.LimitExact | backend/app/providers/cache.py:104-111 | Of the n hits counted on one window the first min(n, limit) are admitted or, if their answer was lost, used up; exactly these admitted and those failed open are allowed |
| RateIntervals.IntervalLimit | backend/app/providers/cache.py:88-111 | On the replicas' own clocks any interval as long as a window admits at most twice the limit, and allows at most that plus the calls that failed open in it |
| RateIntervals.IntervalLimitIsTight | backend/app/providers/cache.py:88-111 | For every limit and window a run, on clocks that agree, that reaches twice the limit within two milliseconds |
| RateIntervals.ServerIntervalLimit | backend/app/providers/cache.py:88-111 | On Redis's clock, from which a replica's may differ by half a second, an interval as long as a window admits at most three times the limit, one at least 999 ms shorter at most twice, and if the clocks agree twice over the whole window; each allows that plus the calls that failed open in it |
| RateIntervals.ThriceIsReached | backend/app/providers/cache.py:98-104 | For every limit and window a run that reaches three times the limit in an interval 998 ms short of a window |
| RateIntervals.TwiceExactlyIf | backend/app/providers/cache.py:88-111 | Intervals of a given length never admit more than twice the limit if and only if the length is at least 999 ms short of a window |
| RateLimiting.RetryAfterIsLeast | backend/app/providers/cache.py:108 | At millisecond resolution the delay is between 1 and the window, and the least whole number of seconds after which the caller is in a later window |
| RateLimiting.RetryAfterShortfall | backend/app/providers/cache.py:108 | On a finer clock it falls short by less than a millisecond, and exactly when stated |
| TriageTheorems.RunKeepsInv | backend/app/services/triage_service.py:59-94 | Every reachable state keeps the invariant on entries, calls, counters and the recent list |
| TriageTheorems.LiveEntriesAreAnswers | backend/app/services/triage_service.py:76-82 | A live entry not written by others is the provider's own contract-keeping answer, never the rules', to an input with the same normal form, stored less than the time to live ago |
| TriageTheorems.HitsServeAnswers | backend/app/services/triage_service.py:63-70 | A cached outcome under a key no one else has touched carries exactly what the provider answered to an input with the same normal form |
| TriageTheorems.AnswersAreReused | backend/app/services/triage_service.py:63-82 | For any two calls with one normal form, any answer and any wait shorter than the time to live: a legal run in which the second is served the first's answer |
| TriageTheorems.PoisonedEntryIsReplaced | backend/app/services/triage_service.py:71-82 | For any useless object left under a key: a legal run in which the call that finds it drops it and stores the provider's answer |
| TriageTheorems.OutcomesKeepTheContract | backend/app/services/triage_service.py:76-91 | Whatever is raised, lost or tampered with, an outcome keeps the contract; a call ends without one only if others wrote under its key or the rules fail |
| TriageTheorems.UnreadablePayloadRaises | backend/app/services/triage_service.py:63-72 | Whatever bytes that do not decode, or value that is neither null nor an object, another client leaves under a key: a legal run in which the call raises |
| TriageTheorems.FailingFallbackRaises | backend/app/services/triage_service.py:83-91 | For every complaint on which the rules fail and every provider error: a legal run, untouched by others, in which the call raises |
| TriageTheorems.TwoLineLocationRaises | backend/app/services/triage_service.py:3 | So it does for any complaint about a place written on two lines |
| TriageTheorems.AccountsBalance | backend/app/services/triage_service.py:63-118 | Once all calls have ended, served or not, hits and misses (with those lost) add up to the calls served and those that failed with the rules, hits are the outcomes marked cached, and the recent list is the newest of the records pushed, one per call served |
| TriageTheorems.RecordReadsBack | backend/app/services/triage_service.py:97-110 | What is recorded of an outcome is read back, field by field, as that outcome |
| TriageTheorems.RecentTellsOutcomes | backend/app/routes/meta.py:27 | Each line of the recent list tells of one completed call what it came to |
| TriageServices.TriageService.Triage | backend/app/services/triage_service.py:59-94 | A call raises if and only if what it found under its key is unreadable, or it found no usable answer, the provider raised and the rules fail; otherwise it ends with a contract-keeping outcome, counted once, kept if new and recorded, which is the usable entry as found or follows from the provider's reply |
| TriageServices.TriageService.Serve | backend/app/services/triage_service.py:63-94 | What was found is what Redis held when asked; unreadable: raises; usable: served as found and counted as a hit; poisoned: dropped; otherwise the provider's answer or the rules' |
| TriageServices.FindsExamined | backend/app/services/triage_service.py:63-72 | A valid result with a provider is a hit with that outcome, any other object is poisoned, anything else but nothing and null raises |
| TriageServices.TriageService.ServeFresh | backend/app/services/triage_service.py:73-94 | A miss is counted; the outcome is the provider's own answer, kept under the key, or the rules' result with the provider's error; it raises if and only if the provider raised and the rules fail |
| TriageServices.TriageService.RecordOutcome | backend/app/services/triage_service.py:97-111 | The outcome is returned as it was recorded |
| TriageServices.TriageService.Recent | backend/app/services/triage_service.py:113-114 | The newest 20 of everything ever pushed, newest first |
| TriageServices.TriageService.CacheCounts | backend/app/services/triage_service.py:116-117 | The numbers of calls that counted as hits and misses, less the increments lost |
| CacheKey.NormalFormIsNormal | backend/app/services/triage_service.py:42 | Normalising is idempotent, and splitting gives back the lowered words |
| CacheKey.KeysAgreeExactly | backend/app/services/triage_service.py:40-43 | Without a bar in the texts, two inputs share a key if and only if their lowered words agree |
| CacheKey.CollidesExactly | backend/app/services/triage_service.py:40-43 | An input shares its key with one of different words if and only if its key holds a second bar with no blank beside it, wherever it stands |
| CacheKey.BarInTextCollides | backend/app/services/triage_service.py:42 | The smallest collisions: a bar between plain words |
| Text.SplitJoin | backend/app/services/triage_service.py:42 | Splitting undoes joining with blanks |
| Keys.KeysNeverMeet | backend/app/services/triage_service.py:22-25 | Statistics, triage entries, counters, recent list and rate limits never share a key |
| Contract.ConstructKeepsPromise | backend/app/schemas.py:29-47 | The constructor yields only results that keep the contract, and changes none that does |
| Contract.ConstructExactly | backend/app/schemas.py:35-47 | A result is admitted if and only if its summary as given has at most 140 characters and it keeps the contract once stripped; it is then that result |
| Contract.ValidateExactly | backend/app/schemas.py:29-47 | A document validates to a result if and only if it has exactly the four fields with the values the result dumps to, up to blanks around the summary |
| Contract.DumpThenValidate | backend/app/schemas.py:29-47 | A result keeps the contract if and only if dumping and validating gives it back unchanged |
| Contract.ValidateKeepsPromise | backend/app/schemas.py:29-47 | Whatever JSON is validated, what passes keeps the contract |
| Contract.AcceptYieldsAccepted | backend/app/schemas.py:53-65 | Accepted input is trimmed and within its limits, and input already in that form is accepted unchanged |
| Contract.AcceptExactly | backend/app/schemas.py:53-65 | Input is accepted if and only if, trimmed, its text has 10 to 2000, its location 3 to 200 and its contact at most 200 characters; it is then the trimmed input, a blank contact counting as none |
| Contract.TrimSplits | backend/app/schemas.py:54 | Trimming takes white space off the two ends and nothing else |
| Contract.FencesAreTransparent | backend/app/providers/triage/prompt.py:63-65 | An object's text reaches the decoder unchanged, bare or fenced, the fence unlabelled or labelled json in any case, with any blanks or none inside either fence and around the whole |
| Retry.CallOnceMapsErrors | backend/app/providers/triage/llm.py:63-82 | A reply is answered with a result if and only if its status is no error and its content, out of its fence, decodes and validates to it; time-outs, 429, transport errors and 5xx, other 4xx, and everything else each give their own error; exactly the first four are worth retrying |
| Retry.GoodReplyGives | backend/app/providers/triage/llm.py:76-82 | A contract-keeping result, dumped and encoded, is answered, in whatever fence, label and blanks it comes and with whatever status below 400 |
| Retry.HttpJsonProvider.Triage | backend/app/providers/triage/llm.py:84-95 | Returns or raises the first conclusive outcome within the attempts, else the last error, having slept after exactly the attempts 1 to calls - 1; in particular the first good reply is answered if all before it were worth retrying, and nothing is answered without one |
| Retry.ElapsedBounded | backend/app/providers/triage/llm.py:32-34 | Total time is at most n T + 0.125 n (n - 1) + 0.5 (n - 1), and that is reached |
| Retry.TwoAttemptsFitTheProxy | frontend/default.conf.template:23 | With ten-second posts the bound is under the proxy's 30 seconds if and only if there are at most two attempts |
| Rules.CategoryIsFirstBest | backend/app/providers/triage/rules.py:122-124 | The category is the first declared one that no other outscores, and OTHER if and only if no keyword occurs |
| Rules.ResultIsFirstBest | backend/app/providers/triage/rules.py:122-140 | The category of a result is the first declared one that no other outscores over the keyword tables; it is OTHER, with confidence 0.3, if and only if the complaint holds none of the keywords |
| Rules.ResultUrgency | backend/app/providers/triage/rules.py:126-131 | The priority of a result is high if and only if an urgent word occurs, low if and only if none does and a word of small matters occurs, otherwise normal |
| Rules.ScoreCounts | backend/app/providers/triage/rules.py:111-112 | The score is the number of the listed words that occur |
| Rules.ResultConfidence | backend/app/providers/triage/rules.py:138-139 | The confidence is 0.3 for OTHER, otherwise 0.5 and a tenth for each keyword of the category that occurs, up to 0.9 |
| Rules.ResultSummary | backend/app/providers/triage/rules.py:133-137 | The summary is the capitalised category, the stripped location and the words of the complaint, or their first 139 characters without trailing blanks and an ellipsis |
| Rules.CollapsedIsRejoined | backend/app/providers/triage/rules.py:108-133 | Collapsing white space and stripping is splitting into words and joining them with blanks |
| Rules.ScoreGrows | backend/app/providers/triage/rules.py:111-112 | A text containing another scores at least as high, whatever the words |
| Rules.UrgencyIsMonotone | backend/app/providers/triage/rules.py:126-131 | A text containing an urgent text is urgent |
| Rules.SummaryBounds | backend/app/providers/triage/rules.py:133-137 | The summary has between 1 and 140 characters, starts with no blank, and is one line if the location is |
| Rules.SucceedsExactlyOnOneLine | backend/app/providers/triage/rules.py:118-140 | The rules succeed if and only if the shortened summary is one line, and then keep the contract with a confidence between 0.3 and 0.9 |
| Rules.FailsExactlyOnVisibleLineBreak | backend/app/providers/triage/rules.py:133-140 | They fail if and only if the part of the stripped location that the summary shows holds a line break |
| Rules.FailsOnLineBreakInLocation | backend/app/providers/triage/rules.py:1 | For locations of up to 117 characters: if and only if the stripped location holds one |
| Rules.LineBreakExample | backend/app/providers/triage/rules.py:1 | A two-line location on which they fail whatever the complaint |
| Prompt.TagLengthExact | backend/app/providers/triage/prompt.py:39 | The left-to-right scanner finds exactly the matches of the pattern |
| Prompt.TagIffForm | backend/app/providers/triage/prompt.py:39 | A text is a match if and only if it is `<`, perhaps a slash, blanks, one of the five names in any case, and up to the first `>` anything that does not go on with the name |
| Prompt.SanitizeLeavesNoTag | backend/app/providers/triage/prompt.py:43-45 | No substring of the result matches the pattern |
| Prompt.SanitizeChangesOnlyTags | backend/app/providers/triage/prompt.py:43-45 | Every changed character lies inside a match in the original |
| Prompt.SanitizeSoftens | backend/app/providers/triage/prompt.py:45 | Characters are kept, but for angle brackets turned into quotation marks, one for one |
| Prompt.SanitizeFixesExactlyTagFree | backend/app/providers/triage/prompt.py:43-45 | A text is unchanged if and only if no tag occurs in it; sanitising is idempotent |
| Prompt.SanitizeInvertible | backend/app/providers/triage/prompt.py:43-45 | Mapping the quotation marks back recovers a text that had none |
| Prompt.DelimiterExactlyOnce | backend/app/providers/triage/prompt.py:48-53 | Whatever the inputs, each of the four delimiters occurs in the prompt exactly once, where the template puts it |
| Prompt.PromptDecodes | backend/app/providers/triage/prompt.py:48-53 | Splitting on the delimiters recovers exactly the two sanitised inputs |
| Prompt.PromptUnambiguous | backend/app/providers/triage/prompt.py:48-53 | Equal prompts come from equal sanitised inputs |
| Prompt.PromptInFull | backend/app/providers/triage/prompt.py:48-53 | The prompt is the template filled in with the sanitised inputs, and nothing else |
| PromptPattern.OnlyDelimitersMatch | backend/app/providers/triage/prompt.py:39-53 | The pattern matches within the whole prompt at the four delimiters, and nowhere else if and only if neither input leaves a tag open |
| PromptPattern.UnclosedTagSwallowsDelimiter | backend/app/providers/triage/prompt.py:48-53 | A location that leaves a tag open forms a match with the template's own delimiter |

## Left out

- Services.ComplaintRepository.Aggregates: the average latency is an exact fraction; rounding it to a tenth, and to floating point, is not modelled.
- ComplaintServices.StatsService.Get: not the rounding of the average, not `generated_at`, a clock reading, nor statistics of another shape put under the key by other clients.
- ComplaintServices.ComplaintService.Create: takes the identifier, the creation time and the environment's choices as parameters; does not model characters PostgreSQL cannot store, `updated_at`, or how a driver coerces a provider name that is not a string (it counts as unstorable).
- StoreTheorems.RowsClimb: says nothing of `updated_at`, a clock reading that every status change writes.
- Services.ComplaintRepository.GetForUpdate: the wait for a lock may be given up after any number of rounds; deadlocks cannot arise with one lock per request.
- RateLimiting.RateLimiter.Hit: the clock is in whole milliseconds; Redis never evicts a key before its expiry.
- Cache.JsonCache.Get: a key is readable strictly before its expiry; reading or writing a key of another type is not modelled, since the service's keys are distinct, nor are recent-list items that do not decode.
- TriageServices.TriageService.Triage: the digest is taken to be free of collisions; the provider is any script of answers and exceptions.
- TriageTheorems.RecordReadsBack: the time of day is left as text; a provider that is not text is not read back.
- TriageTheorems.AccountsBalance: other clients leave the counters and the recent list alone.
- Retry.ElapsedBounded: takes the longest a post may last as given; the HTTP client's time-out applies to each phase of a post.
- Contract.ValidateKeepsPromise: numbers are reals, without NaN and infinities, and numbers in strings are read by a parameter.
- The statistics, the triage cache and the limiter live on one Redis server; their keys never meet (`Keys.KeysNeverMeet`), so each system has its own copy of the server's state.
- `str.lower` and the word characters of regular expressions are parameters with the few facts needed; white space is exact.
- `SimulatedTriage`, the system prompt, the seed, health and drain endpoints, the provider factory and settings: no hard invariant, or pure I/O.
- HTTP routing, dependency wiring, metrics, logging, the React frontend, nginx, Compose and Kubernetes: library plumbing and configuration.
- The plain lookup of one complaint and the repository's `add_if_absent`: they would only add easy members.
