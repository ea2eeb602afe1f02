# URLForge: a verification model

URLForge is a URL shortener on PostgreSQL and Redis. This project models the parts of it that carry state and proves what
they keep, mostly over whole runs and over every interleaving. Time and percentages are real numbers. `dafny verify
dfyconfig.toml` covers everything.

**Rate limiter.** `RateLimit` is one check as a function of its key's state, with both paths (Redis sorted set, process
memory) and every failure point between them. `RateLimitService` is the class that updates the windows and the sorted sets in
place and is proved equal to that function. `RateLimitRuns` compares runs with a limiter that keeps its full log;
`RateLimitRace` is the concurrent machine (several processes, several workers, a check split at each await, any Redis call
failing, applied or not) with a bound for each path. `RateLimitTotal` bounds all paths together, `RateLimitTight` shows the
bounds attained (`RateLimitMemory` that of process memory), `RateLimitOrder` has the bounds by the gap between count and add,
and `RateLimitFailover` shows that a whole check is a run of the machine and derives the failover bound. `RateLimitAnswers`
says what each answer of a run contains, `RateLimitRefusals` whom a check can refuse when calls fail.

**URL store.** `UrlStore` is a machine in which creators, resolvers, deleters and background click jobs interleave at each
commit and each Redis call. `UrlStoreInvariants` and `UrlStoreClicks` hold what every step keeps, `UrlStoreHistory` the
theorems over runs, `UrlStoreEviction` says when a delete clears the cache for good. `UrlService` has the classes that change
the stores in place; `UrlServiceRuns` proves that create, resolve and delete, `ClickRuns` that the two background jobs are
runs of the machine, so the theorems apply to them. `UrlStoreEvents` says what each click event holds over a run,
`UrlStoreCaching` how long an entry answers, `UrlRoundTrips` what one operation sees of the one before it.

**Idempotent POST.** `Idempotency` is the service with its two record stores, `CreateUrl` the route that composes rate
check, lookup, creation and store; `IdempotencyRuns` covers serial runs in one process, `IdempotencyFleet` in several.
`IdempotencyRace` has interleaved requests over one database, whose steps `IdempotencySteps` ties to the methods of the
services; `IdempotencyExact` says exactly when they create at most one row. `IdempotencyDay` has the replay window of a day,
`CreateUrlReplies` every reply of the route, `CreateUrlLimits` its rate limit over serial runs.

**The rest.** `Analytics` (event logging, grouping, percentages) and `AnalyticsSummary` (what a summary tells of the events),
`Redirect` and `Aliases` (reserved names), `ShortCode` (Base62), `Keys` (Redis key families, client identity). `Redis` and
`RedisServer` model the Redis commands used, `Windows` counts timestamps in a window, `Text` has the string operations, `Api`
the exchanged values, `Wrappers` options and results.

## Where the code and its documents differ

The model follows the code.

- docs/decisions.md:90 promises globally consistent rate accounting. The count and the add are two pipelines and an outage
  moves each process to its own memory: `RateLimitTotal.WindowBound` and `RateLimitFailover.FailoverBound` say by how much the
  limit can be exceeded, `RateLimitTight.TotalBoundIsAttained` and `RateLimitFailover.FailoverBoundIsAttained` that it is, for
  every limit.
- docs/decisions.md:99 asks for stateless servers. The fallback windows and the idempotency fallback are process memory.
- docs/architecture.md:169 speaks of exponential backoff between collisions. The loop retries at once, at most
  MAX_COLLISION_RETRIES times.
- app/services/idempotency_service.py:3-6 promises no duplicate rows for one key. That holds for serial requests
  in one process, none of which dies between its commit and its store (`IdempotencyRuns.AtMostOneCreation`), and in several
  processes within a day in which Redis serves the key (`IdempotencyDay.OneRowInADay`). Otherwise
  `IdempotencyExact.ExactlyWhenOnce` says when it holds, `IdempotencyRace.ManyRowsForOneKey`,
  `IdempotencyRuns.DeathBoundIsAttained` and `IdempotencyFleet.OneRowPerProcess` how it fails.
- Retry-After is truncated, so waiting exactly that long can fail; `RateLimitRuns.SleepingSuffices` says exactly when it does not.
- A refused request can count against its client: an add that Redis applies without an answer, refused from process memory,
  is not taken back. `RateLimitRefusals.RefusedOnlyWhenFull` says that nothing else fills a window without an admission,
  `RateLimitRefusals.RefusedWithoutAdmissions` shows it.
- Text under an idempotency key that is no record hides the record in memory (`Idempotency.UnreadableHidesMemory`).
- A successful delete does not always clear the cache: `UrlStoreEviction.DeleteEvictsForGood` says exactly when it does, and
  `UrlStoreHistory.BoundedStaleness` how long an entry can outlive its row.
- A listed percentage can exceed 100 (`Analytics.PercentageExceeds`), and a created code need not redirect
  (`Redirect.ReservedGeneratedCodes`, `Aliases.ReservedAliases`).

## Assumptions

- The application processes, Redis and PostgreSQL share one clock, and it never goes back.
- The key's expiry of window + 5 seconds is harmless only if a count that is answered comes within five seconds of its clock
  read (socket timeouts are two seconds, but the clock is read before the connection is acquired). The bounds hold for any
  delay, with one admission more above five seconds; the two paths then differ (`RateLimitRuns.FiveSecondsAreExact`).
- Two admissions never build the same sorted-set member; the name contains the time in nanoseconds.
- A Redis outage or fault loses no sorted set. Cached strings and idempotency records may vanish at any moment.
- A Redis command whose client sees an error is applied before that client goes on, or never. A server that stalls could run
  a timed-out SET after a later DEL, and a deleted URL would be cached again although nobody is about to refill it.
- SHA-256 is injective and JSON text reads back as it was written.
- PostgreSQL runs each statement atomically, enforces the unique index and the foreign key, and deletes with cascade.

## Model

| member | source | states |
|---|---|---|
| `RateLimitService.RateLimitService.CheckRateLimit` | app/services/rate_limit_service.py:43-124 | The in-place check, with any failure at the count, the add or the zrange, leaves on its own key exactly the state and result of the specification function, and leaves every other key alone |
| `RateLimitService.RateLimitService.CheckInMemory` | app/services/rate_limit_service.py:99-124 | Prune, then append or reject, as the specification of the fallback; other keys unchanged |
| `RateLimit.Trunc` | app/services/rate_limit_service.py:86 | int() on a float truncates toward zero, for both signs |
| `RedisServer.RedisServer.RemoveAndCount` | app/services/rate_limit_service.py:58-65 | The count pipeline drops every score in [0, now - window] and counts the rest; an error may or may not have applied it |
| `RedisServer.RedisServer.AddAndExpire` | app/services/rate_limit_service.py:70-73 | The add pipeline inserts the member and sets the expiry of the whole key |
| `RedisServer.RedisServer.Oldest` | app/services/rate_limit_service.py:85 | The smallest score that is still live, nothing if the key is gone, None on an error |
| `RateLimitRuns.IdealWindowBound` | app/services/rate_limit_service.py:99-114 | Over every run of the full-log limiter no half-open window holds more than limit admissions |
| `RateLimitRuns.MemoryRefinesLog` | app/services/rate_limit_service.py:99-124 | Pruning is lossless: same answers as the full log on every run, and the list is the log filtered to the current window |
| `RateLimitRuns.MemoryStaysReached` | app/services/rate_limit_service.py:100-106 | The list stays sorted, never ahead of the clock and never longer than the limit |
| `RateLimitRuns.PathsAgreeOnce` | app/services/rate_limit_service.py:55-124 | One check: equal results on both paths, and from the next clock reading on the sorted set still shows the windows of the list, even if the add comes after the key has expired |
| `RateLimitRuns.PathsAgree` | app/services/rate_limit_service.py:55-124 | The same for every run from mirroring states |
| `RateLimitRuns.ImplementationsAgree` | app/services/rate_limit_service.py:43-124 | From empty state without failures, with the count and the zrange within five seconds of the clock read and the add before the next one, the Redis path, the in-memory path and the full log return equal results at every step; EXPIRE never changes a decision |
| `RateLimitRuns.ExpiryDecides` | app/services/rate_limit_service.py:58-94 | However late the calls are: the two paths give the same result if and only if the key is alive when it is counted (and, on a rejection, when its oldest member is asked for or the announced wait is the same) or nothing of the window is left |
| `RateLimitRuns.FiveSecondsAreExact` | app/services/rate_limit_service.py:72 | For every limit, window and delay above five seconds some run without failures, no call later than that delay, admits on the Redis path what the in-memory path and the full log reject |
| `RateLimitRuns.RetryAfterIsExact` | app/services/rate_limit_service.py:115-124 | On rejection 0 < d <= window, retry_after = max(1, floor d) is within a second of d and at most the window; every check before now + d is rejected, and a check then is admitted exactly from now + d on |
| `RateLimitRuns.SleepingSuffices` | app/services/rate_limit_service.py:117 | A client that waits exactly Retry-After is admitted if and only if d <= 1 or d is whole |
| `RateLimitRuns.SleepingCanFail` | app/services/rate_limit_service.py:117 | A concrete wait that is too short |
| `RateLimitAnswers.IdealAnswers` | app/services/rate_limit_service.py:67-94 | The whole answer from the admissions before it: allowed exactly with fewer than limit of them in the window; then limit - used - 1 remain, reset is the window, no wait; else 0 remain and the wait for the oldest of them, in whole seconds, is reset and retry |
| `RateLimitAnswers.RemainingCompletes` | app/services/rate_limit_service.py:75-82 | After an admission, remaining and the admissions in the window make up the limit |
| `RateLimitAnswers.MemoryRunAnswers` | app/services/rate_limit_service.py:99-124 | In every run of the in-memory path each answer is the one due after the admissions of its own earlier answers |
| `RateLimitAnswers.RedisRunAnswers` | app/services/rate_limit_service.py:55-94 | The same for the Redis path, without failures and with calls in time |
| `RateLimitAnswers.WaitOfRun` | app/services/rate_limit_service.py:115-124 | A refused check of a run announces the wait d for its oldest admission; every later check before d is over is refused, the first one from then on is admitted |
| `RateLimitRace.StepBasic` | app/services/rate_limit_service.py:55-124 | Every concurrent step keeps clock readings in the past, and the key's expiry later than any member's stay in the window |
| `RateLimitRace.StepRedis` | app/services/rate_limit_service.py:55-94 | Every step keeps the window bound on admissions through Redis together with the workers that may still add to it |
| `RateLimitRace.StepMemory` | app/services/rate_limit_service.py:99-114 | Every step keeps the window bound on the memory of each process |
| `RateLimitRace.RunSafe` | app/services/rate_limit_service.py:43-124 | Both bounds hold over every run |
| `RateLimitTotal.StepTotal` | app/services/rate_limit_service.py:43-124 | Once a window is past, no step adds to what it has admitted together with the checks under way in it: a check is admitted at most once, whichever path grants it |
| `RateLimitTotal.FirstCut` | app/services/rate_limit_service.py:55-124 | When a store first drops entries of a window, its admissions and the checks under way in it are at most (P+1) limit + 2(C-1), one more with late counts |
| `RateLimitTotal.WindowBound` | app/services/rate_limit_service.py:55-124 | P processes, C workers, any failures: at most limit + 2(C-1) per window through Redis, limit + C - 1 per process memory, (P+1) limit + 2(C-1) in all; Redis and the total one more if counts may come later than five seconds after their clock reads |
| `RateLimitTotal.SerialWindowBound` | app/services/rate_limit_service.py:55-124 | With one check at a time: limit per path, (P+1) limit in all; with late counts one more |
| `RateLimitTight.BoundIsAttained` | app/services/rate_limit_service.py:51-73 | For every limit, window and number of workers some interleaving, without any failure and with counts within a second, admits exactly limit + 2(C-1) requests through Redis in one window |
| `RateLimitTight.LateBoundIsAttained` | app/services/rate_limit_service.py:51-73 | For every delay above five seconds one admission more, again without any failure |
| `RateLimitTight.TotalBoundIsAttained` | app/services/rate_limit_service.py:51-114 | For every limit, window and number of processes and workers, after an outage, exactly the total bound in one window, with and without late counts |
| `RateLimitOrder.CardinalityBound` | app/services/rate_limit_service.py:58-73 | If at most g workers are ever between their count and their add, of however many checks under way, the sorted set and the outstanding adds together never exceed limit + g - 1, in every interleaving with any failures |
| `RateLimitOrder.GapWithinWorkers` | app/services/rate_limit_service.py:58-73 | The number of workers is always such a g |
| `RateLimitOrder.OrderedWindowBound` | app/services/rate_limit_service.py:51-73 | If moreover counts run in the order of the clock readings, in particular if clock read and count are one step, no window holds more than limit + g - 1; exactly the limit if count and add exclude each other |
| `RateLimitTight.OrderedBoundIsAttained` | app/services/rate_limit_service.py:51-73 | Both bounds by the gap are attained: for every limit, window and g (the number of workers), in one run whose counts come at the clock they read |
| `RateLimitMemory.SmallLimitHolds` | app/services/rate_limit_service.py:99-114 | A limit of at most one is never exceeded in one process's memory, whatever races |
| `RateLimitMemory.MemoryBoundIsAttained` | app/services/rate_limit_service.py:96-114 | For every limit from two on, some run admits limit + C - 1 requests of one window from one process's memory |
| `RateLimitFailover.CheckIsRun` | app/services/rate_limit_service.py:43-124 | A whole check, whatever fails in it, is a run of machine steps with the same stores and one more admission exactly when it is allowed |
| `RateLimitFailover.SerialRun` | app/services/rate_limit_service.py:43-124 | Serial checks accumulate at most (P+1) limit admissions in any window |
| `RateLimitFailover.FailoverBound` | app/services/rate_limit_service.py:55-124 | From empty stores, for any pattern of failures before, between and after the calls: at most (P+1) limit admissions per window, 2 limit for one process; one more with late counts |
| `RateLimitFailover.FailoverBoundIsAttained` | app/services/rate_limit_service.py:96-114 | For every limit, window and number of processes some outage lets exactly (P+1) limit requests through one window |
| `RateLimitRefusals.RefusedOnlyWhenFull` | app/services/rate_limit_service.py:55-124 | P processes, serial checks, any failures: a check is refused only if the admissions in its window, with the refused checks there whose add Redis had applied without an answer, make up the limit |
| `RateLimitRefusals.RefusedWithoutAdmissions` | app/services/rate_limit_service.py:70-73 | Such an add makes Redis refuse a client with no admission in its window |
| `Keys.LimitKeyInjective` | app/services/rate_limit_service.py:53 | For colon-free scopes the key determines scope and identifier, colons in the identifier included |
| `Keys.ColonInScopeCollides` | app/services/rate_limit_service.py:53 | With a colon in a scope two different clients share a key |
| `Keys.KeyFamiliesDisjoint` | app/services/idempotency_service.py:46 | `url:`, `idempotency:` and `ratelimit:` keys never coincide, and the first two are injective |
| `Keys.KeysAreIndependent` | app/services/rate_limit_service.py:100-103 | A run over many clients, projected to one key, is that key's run alone: final state and results |
| `Keys.ProxiesKeepClient` | app/services/rate_limit_service.py:137-141 | What later proxies append to X-Forwarded-For, and the peer address, do not change the client a non-empty first entry names |
| `UrlStoreInvariants.AdvanceStatements` | app/services/url_service.py:55-264 | Which statement each step may issue on the tables, and none besides |
| `UrlStoreInvariants.AdvanceRows` | app/models.py:21-27 | Every step keeps ids unique and never reused, and a row keeps id, URL and owner until its code is deleted |
| `UrlStoreInvariants.AdvanceOk` | app/services/url_service.py:159-181 | The moving operation and the cache stay right about the table: for a code that never lost a row, what is cached or in flight is its URL |
| `UrlStoreInvariants.StepStore` | app/services/url_service.py:55-264 | Every step of the machine keeps all of this for every operation |
| `UrlStoreInvariants.StepOwners` | app/services/url_service.py:97-134 | Every row was inserted by the operation that answers with it |
| `UrlStoreInvariants.StepEvents` | app/services/analytics_service.py:35-59 | Every step keeps referential integrity of click events |
| `UrlStoreInvariants.StepLogs` | app/services/analytics_service.py:55-59 | A logged click whose row lives has its event |
| `UrlStoreClicks.StepCounters` | app/services/url_service.py:195-205 | Only a successful record_click on a living row adds to the redirects counted for it |
| `UrlStoreClicks.StepClickCount` | app/services/url_service.py:195-205 | The stored counter moves by one exactly then, and a new row starts at zero under a new id |
| `UrlStoreClicks.StepClicks` | app/services/url_service.py:195-208 | Every step keeps click_count equal to the number of redirects that counted that row |
| `UrlStoreClicks.RunInv` | app/services/url_service.py:55-264 | All invariants over every run |
| `UrlStoreClicks.ServedSplitsByClick` | app/routes/redirect.py:94 | The redirects of a never deleted code are those counted by its row, pending or failed |
| `UrlStoreClicks.ServedSplitsByLog` | app/routes/redirect.py:95-101 | Likewise those with an event, pending or failed |
| `UrlStoreClicks.ClicksConserved` | app/routes/redirect.py:94-101 | Redirects served = click_count + pending + failed record_click jobs = events + pending + failed log_click jobs, in every interleaving without a delete of the code |
| `UrlStoreClicks.QuietCountsAgree` | app/routes/redirect.py:94-101 | With nothing pending or failed, click_count is the number of click events and of redirects |
| `UrlStoreClicks.EventsReferenceRows` | app/models.py:85-90 | In every interleaving with deletes each click event references an existing row, that of the code its redirect served |
| `UrlStoreEvents.LoggingStores` | app/services/analytics_service.py:49-56 | The insert stores the visit under the id read before, at the time of the step, and changes no other event or row |
| `UrlStoreEvents.EventsAreLogged` | app/services/analytics_service.py:49-56 | In every interleaving each event in the table holds the id, visit and time of some step that logged it |
| `UrlStoreEvents.LoggedEventLasts` | app/models.py:85-90 | And what a step has logged stays in the table, unchanged, for as long as its row is there |
| `UrlStoreHistory.ResolveIsTransparent` | app/services/url_service.py:159-181 | A resolve that starts when the row of a never deleted code exists never ends in not-found and yields exactly the committed URL, whatever the cache, Redis failures and other requests do |
| `UrlStoreHistory.CacheIsTransparent` | app/services/url_service.py:79-113 | The cache entry of a never deleted code holds the committed URL |
| `UrlStoreHistory.BoundedStaleness` | app/services/url_service.py:165-181 | A URL served by a hit at time t was the committed URL of its code at some moment in (t - TTL - d, t], with deletes, re-creation, failed sets and failed evictions |
| `UrlStoreHistory.DeletedCodeStops` | app/services/url_service.py:232-257 | A code deleted for good is no longer served from the cache TTL + d later |
| `UrlStoreHistory.Provenance` | app/services/url_service.py:166-181 | In every run what is cached, in flight or answered for a code was committed for that code earlier |
| `UrlStoreHistory.RunHistory` | app/services/cache_service.py:56-68 | The history behind both: every entry was written at most d after its URL was current and lives for the TTL from then; a hit rewrites nothing |
| `UrlStoreHistory.SuccessNamesOwnRow` | app/services/url_service.py:108-119 | Each success names a row that this very request inserted when the code was free |
| `UrlStoreHistory.LossIsDelete` | app/services/url_service.py:252-253 | A row leaves only by a delete of that very row |
| `UrlStoreHistory.SharedCodeNeedsDelete` | app/services/url_service.py:97-134 | Between two inserts of one code lies a delete of the earlier row |
| `UrlStoreHistory.SharedCodesNeedDelete` | app/services/url_service.py:97-134 | Two different requests that succeed with one code: a delete of the row of the earlier one lies between their inserts |
| `UrlStoreHistory.RacingClaimsOneWinner` | tests/test_concurrency_and_stress.py:41-48 | Of any number of racing claims on an alias that nobody else has taken, exactly one holds it, every other one ends in a conflict, and the row is the winner's |
| `UrlService.FirstFree` | app/services/url_service.py:101-102 | The first candidate without a row, all earlier ones being taken |
| `UrlService.ClaimLoopAlone` | app/services/url_service.py:97-134 | Run alone the loop adds exactly one row, under the first free candidate and at the time of that attempt, or is exhausted exactly when all are taken, rows unchanged |
| `UrlService.URLService.CreateShortUrl` | app/services/url_service.py:55-136 | The in-place service: rows, response or error, and primed cache as specified by the claim steps of the machine, each attempt at its own time |
| `UrlService.URLService.GetDestinationUrl` | app/services/url_service.py:159-181 | A hit writes nothing; a miss reads the row and refills; errors of Redis are misses |
| `ClickRuns.RecordClickIsStep` | app/services/url_service.py:183-211 | What `URLService.RecordClick` leaves is one step of its redirect in the machine: the redirect counts for the row of its code exactly if the row exists and the database works, and then that row's counter, and nothing else, goes up by one |
| `UrlService.URLService.DeleteUrl` | app/services/url_service.py:232-264 | True exactly when the row existed and is now gone with its events; then the entry is evicted if the call applies |
| `UrlService.CacheService.Get` | app/services/cache_service.py:47-54 | The unexpired value, or None on a miss or an error |
| `UrlService.CacheService.Set` | app/services/cache_service.py:56-68 | Stores with the given or default TTL, without expiry if it is not positive; false on an error |
| `UrlService.CacheService.Delete` | app/services/cache_service.py:70-78 | Evicts the key if the call applies; false on an error |
| `UrlService.StripSlashes` | app/services/url_service.py:68 | The prefix that does not end in a slash, with nothing but slashes cut off |
| `RedisServer.FetchedAfterSet` | app/services/cache_service.py:47-68 | A GET after a SET finds the value for ttl seconds, for good if ttl is not positive; other keys are as before |
| `UrlStoreCaching.CachedUntilTtl` | app/services/url_service.py:165-181 | After an applied SET, in every interleaving that does not drop or evict the entry, a resolve within the TTL is served from the cache in one step, without the database |
| `UrlRoundTrips.CreateThenResolve` | app/services/url_service.py:71-181 | A created code resolves to the requested URL whatever GET and refill do, if its entry was primed or there was none; a primed entry needs no database for the TTL |
| `UrlRoundTrips.ResolveThenResolve` | app/services/url_service.py:165-181 | A miss that refills spares the next resolve the database for the TTL |
| `UrlRoundTrips.DeleteThenResolve` | app/services/url_service.py:245-257 | After a delete with an applied eviction the code is not found and not cached; other rows, events, entries and answers are as before |
| `UrlServiceRuns.ResolveIsRun` | app/services/url_service.py:159-181 | get_destination_url is a run of the concurrent machine: same cache, served with the URL it returns, not found when None |
| `UrlServiceRuns.DeleteIsRun` | app/services/url_service.py:245-257 | delete_url is a run of the machine: same table and cache |
| `UrlServiceRuns.ClaimLoopIsRun` | app/services/url_service.py:101-134 | The collision loop is a run in which only this request moves |
| `UrlServiceRuns.CreateIsRun` | app/services/url_service.py:55-136 | create_short_url is a run of the machine: same rows, same cache, same outcome |
| `UrlStoreEviction.OutForGood` | app/services/url_service.py:170-181 | A code without row and entry stays out of the cache in every continuation in which it gets no row, if and only if no reader or creator is about to refill it |
| `UrlStoreEviction.DeleteEvictsForGood` | app/services/url_service.py:252-257 | After the commit of a delete, its last step takes the code out of the cache for good if and only if the DEL is applied (or nothing was cached) and no reader or creator is about to refill it |
| `UrlStoreEviction.RefillOutlivesDelete` | app/services/url_service.py:170-181 | From any state with a reader past its miss and a delete about to begin, a deleted URL can be cached again after the eviction |
| `Idempotency.IdempotencyService.GetSavedResponse` | app/services/idempotency_service.py:37-77 | The lookup over both stores: Redis first, memory if Redis has nothing or fails, 422 on another payload |
| `Idempotency.IdempotencyService.StoreResponse` | app/services/idempotency_service.py:79-102 | The record goes to Redis for a day as far as the call applies, and always to memory |
| `Idempotency.UnreadableHidesMemory` | app/services/idempotency_service.py:54-63 | A record in memory is missed if and only if Redis answers with text that is no record |
| `CreateUrl.Routes.CheckLimit` | app/services/rate_limit_service.py:136-148 | The limiter in front of the route, for the client and scope of the request |
| `CreateUrl.Routes.CreateUrl` | app/routes/urls.py:35-80 | The route over the services changes limiter, Redis, records and rows, and replies, exactly as the composition specifies |
| `CreateUrl.Routes.CreateFresh` | app/routes/urls.py:59-80 | Creation, then the store for a keyed success only; 409 and 503 store nothing |
| `CreateUrlReplies.ClientOfPost` | app/services/rate_limit_service.py:137-141 | The client is the first address of the forwarding header, whatever follows it, else the peer, else "unknown" |
| `CreateUrlReplies.RefusalChangesNothing` | app/services/rate_limit_service.py:143-161 | 429 exactly if the check of this client in scope url_create refuses, with its wait, and then rows, records and strings are untouched |
| `CreateUrlReplies.CreationReplies` | app/routes/urls.py:59-80 | Past limiter and lookup: 409 exactly if the alias is taken, 503 exactly if all candidates are, else 201 with the alias or the first free candidate and the short URL on the base without its slashes |
| `CreateUrlReplies.RecordReplies` | app/routes/urls.py:51-57 | A found record is replayed to its payload and answers 422 to another; nothing changes |
| `CreateUrlReplies.KeylessIsNeverReplayed` | app/routes/urls.py:49-51 | Without a key, or with an empty one, nothing is replayed and nothing recorded |
| `CreateUrlLimits.PostsBound` | app/services/rate_limit_service.py:126-161 | Serial requests with any failures: at most 2 limit requests of a client in one window get a reply other than 429, one more with late counts |
| `CreateUrlLimits.RefusedOnlyWhenFull` | app/services/rate_limit_service.py:126-161 | With any failures a 429 needs a window full of the client's requests that got through, or of refused ones whose add was applied without an answer |
| `CreateUrlLimits.PostsWithinLimit` | app/services/rate_limit_service.py:126-161 | Without failures at most limit requests of a client in one window get through |
| `CreateUrlLimits.RefusedExactlyWhenFull` | app/services/rate_limit_service.py:151-161 | And a request is answered 429 if and only if limit requests of its client got through in its window |
| `CreateUrlLimits.RefusedUntilTheWaitEnds` | app/services/rate_limit_service.py:155-161 | A 429 carries the wait d in whole seconds; the client's requests before d is over get 429, the first from then on does not |
| `IdempotencyRuns.CreationAddsItsRow` | app/services/url_service.py:71-134 | A success adds exactly the row it names, at a free code; a failure leaves the rows alone |
| `IdempotencyRuns.RowsChangeOnlyByCreation` | app/routes/urls.py:53-70 | Only a fresh 201 changes rows; replays, 422, 429, 409 and 503 do not |
| `IdempotencyRuns.StepKeepsAgreement` | app/services/idempotency_service.py:87-102 | Every event keeps what Redis holds for a key equal to what memory holds |
| `IdempotencyRuns.StoresAlwaysAgree` | app/services/idempotency_service.py:46-102 | Over every run the two stores never hold different records, with failures, losses and expiry |
| `IdempotencyRuns.RecordedKeyReplays` | app/routes/urls.py:51-57 | Once a key is recorded, a request with it replays or gets 422 (or 429) and changes no row, record or cache entry |
| `IdempotencyRuns.RecordsAreFinal` | app/services/idempotency_service.py:79-102 | A record is never replaced, and appears exactly with a fresh success under its own key |
| `IdempotencyRuns.AtMostOneCreation` | app/routes/urls.py:48-70 | For each non-empty key at most one row is ever created, plus one for each request that dies between its commit and its store; none once the key is recorded |
| `IdempotencyRuns.DeathBoundIsAttained` | app/services/url_service.py:107-108 | For any number of different free codes, serial requests with one key, all but the last dying after the commit, create one row under each: 1 + deaths |
| `IdempotencyFleet.AtMostOneRowPerProcess` | app/services/idempotency_service.py:46-102 | P processes over one Redis, any failures, losses and expiry: serial requests with one key create at most P rows, plus one for each that dies |
| `IdempotencyFleet.OneRowPerProcess` | app/services/idempotency_service.py:49-63 | With Redis down each of any number of processes creates its row for the key, after any number of deaths with a row each: the bound is attained |
| `IdempotencyRuns.FirstSuccessIsReplayed` | app/routes/urls.py:48-70 | After the first success, whatever happens between, the same payload gets that response and another payload 422, with database and records unchanged |
| `IdempotencyDay.SuccessIsStored` | app/services/idempotency_service.py:29-102 | A fresh success with a key leaves its record in Redis until 86400 seconds after its store |
| `IdempotencyDay.ReplayedForADay` | app/services/idempotency_service.py:46-77 | Until then any process whose lookup Redis answers replays it, or gives 422 to another payload, and creates nothing |
| `IdempotencyDay.ForgottenAfterADay` | app/services/idempotency_service.py:29-70 | From then on a process that does not remember the key finds nothing |
| `IdempotencyDay.OneRowInADay` | app/services/idempotency_service.py:29-102 | P processes, from any state: serial requests with one key within a day, Redis serving and keeping it, create at most one row plus one per death |
| `IdempotencyRace.StepInv` | app/routes/urls.py:51-68 | Every interleaved step keeps: records and answers come from creations, creators looked up early |
| `IdempotencyRace.RowsBoundedByEarlyLookups` | app/routes/urls.py:51-68 | Rows created for one key are at most the lookups decided before the first store completed |
| `IdempotencyRace.LateLookupsCreateNothing` | app/services/idempotency_service.py:102 | A request whose lookup follows that store creates nothing, whatever still runs |
| `IdempotencyRace.AnswersComeFromCreations` | app/routes/urls.py:53-70 | Every answer is the response of a request with the same payload that created a row |
| `IdempotencyRace.ManyRowsForOneKey` | app/routes/urls.py:53-68 | From any database, for any number of different free codes and a payload without an alias: as many interleaved requests with one key and this payload create one row under each code, without any failure; the bound is attained |
| `IdempotencyRace.AliasCreatesOneRow` | app/services/url_service.py:71-95 | Interleaved requests with one key and a payload with an alias create at most one row while that row is not deleted |
| `IdempotencyExact.ExactlyWhenOnce` | app/routes/urls.py:51-68 | From every reachable state, no continuation creates more than one row for the key if and only if process memory has the record and at most one request has created a row or passed its lookup without one |
| `IdempotencySteps.LookupIsSteps` | app/services/idempotency_service.py:46-77 | The lookup is the two steps of the interleaved machine: same outcome, stores unchanged |
| `IdempotencySteps.CreateIsSteps` | app/services/url_service.py:71-134 | create_short_url is the inserts of the request in the interleaved machine: same rows, and the response it will store exactly if it succeeds |
| `IdempotencySteps.StoreIsSteps` | app/services/idempotency_service.py:87-102 | The store is its two last steps: same record in Redis and in memory |
| `Analytics.CleanReferrer` | app/services/analytics_service.py:46-51 | The stored referrer is never empty, at most 500 characters, a prefix of the stripped header cut only there, or the default |
| `ClickRuns.LogClickIsRun` | app/services/analytics_service.py:22-59 | What `AnalyticsService.LogClick` leaves is two steps of its redirect in the machine, with any steps of others in between: the redirect has its event exactly when both statements work and the row it has read is still there, with that row's id, the time of the insert and this visit; else it is missed or failed; no other event changes |
| `Analytics.AnalyticsService.GetAnalytics` | app/services/analytics_service.py:61-148 | None exactly for an unknown code, else totals, visitors, both breakdowns and the recent events, each from the state of the database its own statement sees |
| `Analytics.AnalyticsService.Breakdown` | app/services/analytics_service.py:102-105 | The append loop lists every fetched row in order, with label default and rounded percentage |
| `Analytics.RoundTenth` | app/services/analytics_service.py:104 | Rounding to the nearest tenth, ties to even |
| `Analytics.BreakdownConserves` | app/services/analytics_service.py:93-105 | Nonincreasing; no omitted group larger than a listed one; counts sum to at most the events, with equality if and only if there are at most five groups |
| `Analytics.PercentagesBound` | app/services/analytics_service.py:104 | With click_count at least the events, percentages sum to at most 100 + 0.05 per entry; to at least 100 - 0.05 per entry when equal and all groups are listed |
| `ClickRuns.QuietAnalytics` | app/services/analytics_service.py:82-119 | In every run: with nothing pending or failed for a never deleted code, both bounds hold of its analytics, visitors are at most the clicks, and none exactly without clicks |
| `Analytics.PercentageExceeds` | app/services/analytics_service.py:104 | A percentage exceeds 100 if and only if 2000 count > 2001 total |
| `ClickRuns.PercentageCanExceed` | app/services/analytics_service.py:104 | For every code and URL a run with two redirects without a Referer, one failed record_click and nothing pending: the listed percentage is 200 |
| `Analytics.VisitorsBound` | app/services/analytics_service.py:85-91 | When click_count is the number of events: visitors at most clicks, zero exactly without clicks |
| `AnalyticsSummary.VisitorsAreCounted` | app/services/analytics_service.py:85-91 | The visitors of a summary are the size of the largest set of the row's events with known and pairwise different hashes; with no hash known, one if there are clicks |
| `AnalyticsSummary.ListedReferrer` | app/services/analytics_service.py:102-105 | A listed referrer counts exactly the row's events with its label, under the label or "Direct", with the percentage of the clicks within 0.05 |
| `AnalyticsSummary.ListedFamily` | app/services/analytics_service.py:116-119 | The same for browsers, with "Unknown" |
| `AnalyticsSummary.RecentShows` | app/services/analytics_service.py:121-136 | Ten events of the row, or all if fewer, each with its own time, referrer and family, the latest first, none older than one left out |
| `AnalyticsSummary.ClickIsShown` | app/services/analytics_service.py:93-136 | A logged click is shown: its cleaned referrer and its family head groups that count it, if there are at most five, and its visit is listed, if there are at most ten |
| `Analytics.TopGroupsExist` | app/services/analytics_service.py:94-100 | The grouping query has an answer for every table |
| `Analytics.RecentExists` | app/services/analytics_service.py:122-127 | And so has the query for recent events |
| `Redirect.RedirectRoute.RedirectToLongUrl` | app/routes/redirect.py:59-117 | 404 exactly for reserved or unresolved codes; a reserved name touches no store; a redirect carries the resolved URL and the requested status 301, 302 or 308, else 307, and schedules the counter and then the log of this visit |
| `Redirect.ReservedGeneratedCodes` | app/routes/redirect.py:23-33 | A generated 7-letter code is refused if and only if it spells "metrics" in some case |
| `Redirect.ReservedCodeCanBeGenerated` | app/utils/short_code.py:58-66 | The generator can draw "metrics" |
| `Aliases.ReservedAliases` | app/schemas.py:22-52 | An accepted alias has 1 to 16 characters and is refused by the redirect if and only if it spells one of six names |
| `Aliases.PaddedAlias` | app/schemas.py:22-52 | Padding passes the minimum length: a three-letter, reserved alias is accepted |
| `Aliases.AcceptedAliases` | app/schemas.py:43-52 | A text of 4 to 16 characters yields an alias if and only if it is that alias, valid, with white space around it, and none if and only if it is blank |
| `Aliases.AliasTextIsIsalnum` | app/schemas.py:50 | The alias characters are those that pass the validator's replace and isalnum |
| `Text.StripCuts` | app/routes/redirect.py:76 | strip() cuts white space at both ends, and all of it |
| `Text.StripPadding` | app/routes/redirect.py:76 | And nothing else |
| `ShortCode.EncodeBase62` | app/utils/short_code.py:22-37 | The loop computes the canonical code, and fails exactly on negative numbers |
| `ShortCode.DecodeBase62` | app/utils/short_code.py:40-55 | The loop computes the value, and fails exactly on the empty string or a foreign character |
| `ShortCode.Find` | app/utils/short_code.py:50 | str.find: the first position of a character, or -1 if it does not occur |
| `ShortCode.AlphabetSpelled` | app/utils/short_code.py:18 | The alphabet is the source's 62 characters in order |
| `ShortCode.DigitOfAlphabet` | app/utils/short_code.py:50 | The 62 characters are distinct: each is found at its own position |
| `ShortCode.DecodeEncode` | app/utils/short_code.py:22-55 | decode(encode(n)) = n for every n |
| `ShortCode.EncodeDecode` | app/utils/short_code.py:22-55 | encode(decode(s)) strips leading zeros, and is s if and only if s is canonical |
| `ShortCode.EncodeDecodeCanonical` | app/utils/short_code.py:22-55 | encode(decode(s)) = s on canonical codes |
| `ShortCode.EncodeLength` | app/utils/short_code.py:32-37 | encode(n) has length L if and only if 62^(L-1) <= n < 62^L |
| `ShortCode.ValueBound` | app/utils/short_code.py:48-55 | Codes of length L decode below 62^L |
| `ShortCode.DecodeIsMonotone` | app/utils/short_code.py:48-55 | On codes of equal length decode is injective and preserves and reflects alphabet-lexicographic order |
| `ShortCode.DecodeIsOnto` | app/utils/short_code.py:48-55 | Every number below 62^L is the value of a code of length L |

## Left out

- HTTP plumbing: framework, CORS, response headers other than the replay flag and Retry-After, metadata view, health, metrics, front end, migrations.
- Sessions, connection pools and event-loop affinity; a database error other than a unique violation ends a request (an abort of its operation).
- The random generator: candidates are arbitrary strings chosen by an adversary, which includes every code it can draw.
- Floating point: times and percentages are real numbers; rounding is to the nearest tenth, ties to even.
- `clicked_at` is the time of the insert; PostgreSQL's now() is the start of the transaction, the lookup just before it.
- `expires_at` and `last_accessed_at`: no code path sets the first, and the second is only reported.
- The order of the two background jobs of a redirect: the machine lets them run in any order, which includes the source's.
- A record_click commit that takes effect although its acknowledgement is lost; the model counts a failed job as not applied. A lost acknowledgement of an insert or a delete is covered.
- The cascade of a delete: the ORM's deletes of the row's events and of the row are one step.
- Members of equal score in a sorted set are kept in insertion order; only scores are observed.
- Interleaved requests with one key in several processes: `IdempotencyRace` has one process, whose memory lives as long as the run; `IdempotencyFleet` has several, one request at a time.
- Text outside ASCII: strip, lower and isalnum are modelled on ASCII.
- User-agent classification and IP hashing: one-branch members; their results enter as values.
- Analytics.AnalyticsService.GetAnalytics: what the queries return is an argument, constrained by what each query means; the database is free to break ties.
- UrlService.URLService.CreateShortUrl: other requests do not come between the attempts here; they do in `UrlStore`, of which it is a run.
