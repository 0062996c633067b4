# A model of the AI gateway's stateful core

This project models, in Dafny, the parts of the gateway that keep state over long runs or do real arithmetic, and
proves what holds of them in every run.

- `Changes`, `ProviderPool`: the protocol by which a health monitor and a rate-limit monitor, unaware of each other,
  add and remove providers of one router through a shared bounded channel. Every await point is a step, so a run is an
  arbitrary interleaving.
- `RateLimitMonitor`, `HealthMonitor`: the two monitors as classes whose methods are proved to be sequences of protocol
  steps; health recovery is proved down to the counters.
- `WeightedBalance`: discovery, the cache of services and the balancer that consumes the stream and places calls.
- `Gcra`, `RedisRateLimit`: the rate limiter: one cell over whole runs, then expiry, keys, tenants and the service.
- `RollingCounter`, `ConcurrentCounter`: the request counters, first sequentially and then as interleaved atomics.
- `ResponseCache`: the bucketed response cache, one request at a time and with any number of overlapping ones.
- `ModelIds`, `ModelMapping`: parsing and printing model names, mapping them, and the validation of mappings.

`dafny verify dfyconfig.toml` checks everything.

## Where the code and its description differ

The model follows the code.

- The counter is described as rolling; it tumbles. `RollingExactly` says exactly when the two agree.
- The pool is not "configured minus held": either monitor's insert can return a key the other still holds.
  `Sandwich` gives the two-sided bound, `HeldByOne` which side a key is on, `HeldYetInPool` the run.
- The advertised remaining is exact only while the stored TAT is at most 2I - 2 ms in the past, and from 3I - 1 ms on
  the header arithmetic aborts an admitted request, as it does whenever the interval is below one millisecond.
- A comment in the balancer says that updates cannot disturb the order of ready services. Evictions do, so a stored
  index may come to name another service or none (`KeptIndex`); what it names is still never an evicted one (`Call`).
- Validation is meant to cover every possible routing scenario. It tests the offered names as they are written, but the
  mapper looks a request up by its parsed name, without version, tag or Bedrock parts. `ValidationExact` says what
  validation does guarantee, `ValidYetUnmapped` gives the requests that fail all the same (any Bedrock name on its
  own, with a default mapping that is not empty), and `ServesOffersExactly` the exact condition under which none does. Nor does validation look at whether the
  name found can be read by the target's parser (`UnreadableExactly`, `ValidYetUnreadable`).
- A router named GLOBAL shares its limiter cells with the application-wide limiter.
- A bucket's lap can go back when a thread arrives late, which wipes newer counts (`StaleThreadRewinds`), and a total
  taken between a lap change and its reset counts an old lap as current (`ReadSeesOldLap`).
- Under the latency strategy the rate-limit monitor takes the key from the event alone, so `Sandwich` needs events that
  name configured keys. They do: only the dispatchers of a router send events, and each reports the endpoint mapped for
  its own provider (ai-gateway/src/middleware/mapper/service.rs:92-93 and ai-gateway/src/dispatcher/service.rs:403-415).
  `StrangerEntersPool` shows that the monitor relies on it.

## Model

| member | source | states |
|---|---|---|
| `Changes.ReplayIsLatest` | `ai-gateway/src/discover/provider/config.rs:142-161` | A key is in the pool after a list of changes exactly when the latest change naming it is an insert, or it was there and nothing names it; likewise for being out |
| `ProviderPool.Reachable` | `ai-gateway/src/balancer/provider.rs:53-92` | Every state of every interleaving of the two monitors, the balancer, the clock and failures satisfies the whole invariant: channel contents, histories, monitor sets, timers, due times, names |
| `ProviderPool.StepKeepsInv` | `ai-gateway/src/discover/monitor/rate_limit/provider.rs:263-361` | Each single step, taken at any await point of either monitor, keeps that invariant |
| `ProviderPool.ConsumeKeepsDrained` | `ai-gateway/src/discover/provider/config.rs:142-161` | Consuming a configured service or a queued change does not alter the pool that results once everything on its way is consumed |
| `ProviderPool.DrainSteps` | `ai-gateway/src/discover/provider/config.rs:142-161` | From any state the consumer alone reaches an empty stream, with the drained pool as its actual pool and both monitors untouched |
| `ProviderPool.HoldersDecide` | `ai-gateway/src/discover/monitor/health/provider.rs:101-129` | For any history: a configured key that neither monitor removed last is in, a key both removed last is out, and nothing else can be in but what was configured or named |
| `ProviderPool.Sandwich` | `ai-gateway/src/discover/monitor/rate_limit/provider.rs:130-203` | In every reachable state, mid-handler states included: configured keys held by nobody are in the drained pool and keys held by both are not; only configured keys are, under the weighted strategy always and under the latency strategy if the events name configured keys |
| `ProviderPool.SandwichAtRest` | `ai-gateway/src/discover/monitor/health/provider.rs:80-227` | When neither monitor is mid-handler, under either strategy (for latency, with events that name configured keys): configured minus (unhealthy or limited) is within the pool, which is within configured minus (unhealthy and limited) |
| `ProviderPool.HeldByOne` | `ai-gateway/src/discover/monitor/health/provider.rs:101-129` | In every run, a key held by exactly one monitor is in the drained pool if and only if the other monitor sent the latest change about it |
| `ProviderPool.HeldYetInPool` | `ai-gateway/src/discover/monitor/rate_limit/provider.rs:174-203` | The bounds cannot be made an equality: for every configured key there is a run in which the balancer first takes up all services, and which ends at rest with nothing on its way, the key still held as unhealthy and yet in the pool |
| `ProviderPool.StrangerEntersPool` | `ai-gateway/src/discover/monitor/rate_limit/provider.rs:130-168` | The monitor of the latency strategy does not check keys itself: any unconfigured key that an event named would enter the pool |
| `ProviderPool.PoolNamesOnly` | `ai-gateway/src/discover/monitor/rate_limit/provider.rs:130-168` | Conversely, in every run the pool holds only configured keys and keys that some rate-limit event named |
| `ProviderPool.NoEarlyRestore` | `ai-gateway/src/discover/monitor/rate_limit/provider.rs:293-351` | In every run, a rate-limit insert of a key comes at least r seconds plus 30 s after a removal of it whose event had retry-after r, and at least 60 s after one without |
| `ProviderPool.RestoreExactly` | `ai-gateway/src/discover/monitor/rate_limit/provider.rs:278-352` | From any state in which the monitor is free, the restore of an event handled at once can fire after a wait if and only if the wait is at least r seconds plus 30 s, or 60 s without a retry-after |
| `ProviderPool.ChannelBounded` | `ai-gateway/src/balancer/provider.rs:23-59` | In every run the channel holds at most 16 changes |
| `ProviderPool.RefusesStrangers` | `ai-gateway/src/discover/monitor/rate_limit/provider.rs:279-279` | An event stops the monitor if and only if the strategy is weighted and it names no configured key |
| `ProviderPool.TimersMatch` | `ai-gateway/src/discover/monitor/rate_limit/provider.rs:269-361` | In every run, pending restores are one per key and are exactly the limited keys other than the one being restored; a graceful exit leaves nothing limited, pending or removed |
| `ProviderPool.ChangesAlternate` | `ai-gateway/src/discover/monitor/health/provider.rs:101-129` | In every run, the changes one monitor sends about one key alternate between remove and insert, beginning with a remove |
| `ProviderPool.NothingLostForGood` | `ai-gateway/src/discover/monitor/rate_limit/provider.rs:320-352` | Every run in which no monitor has stopped on an error can be continued, by timers, healthy checks and the balancer alone, to a pool with every configured provider, and with nothing else if events name configured keys |
| `ProviderPool.SomeMove` | `ai-gateway/src/balancer/provider.rs:53-92` | From every reachable state that is not yet recovered, full channel included, some such step is possible and strictly reduces the work left |
| `ProviderPool.CanExit` | `ai-gateway/src/discover/monitor/rate_limit/provider.rs:353-357` | Once everything is recovered, closing the events lets the monitor exit gracefully |
| `RateLimitMonitor.KeyForFinds` | `ai-gateway/src/discover/monitor/rate_limit/provider.rs:216-261` | An event yields a target of its provider, or none exactly when no target has that provider; with one target per provider it is that target |
| `RateLimitMonitor.EventKeepsSound` | `ai-gateway/src/discover/monitor/rate_limit/provider.rs:278-318` | Handling one event keeps the correspondence of sent changes, limited set, timers and due times |
| `RateLimitMonitor.RestoreKeepsSound` | `ai-gateway/src/discover/monitor/rate_limit/provider.rs:320-352` | Handling one due restore keeps it too |
| `RateLimitMonitor.Monitor.KeyForEndpoint` | `ai-gateway/src/discover/monitor/rate_limit/provider.rs:216-261` | The search loop over the targets finds the key of the specification |
| `RateLimitMonitor.Monitor.HandleEvent` | `ai-gateway/src/discover/monitor/rate_limit/provider.rs:278-318` | The event branch is exactly the protocol steps receive, send, record, and keeps the invariant: a key not yet limited is removed and due r seconds plus 30 s later, or 60 s without a retry-after, a limited one is left alone, and an event without a target changes nothing; the key is that of a target of the provider, or under latency that of the provider itself |
| `RateLimitMonitor.Monitor.HandleRestore` | `ai-gateway/src/discover/monitor/rate_limit/provider.rs:320-352` | The restore branch is exactly the protocol steps timer, send, forget, and keeps the invariant; if the dispatcher cannot be built the restore is gone and the key stays removed |
| `RateLimitMonitor.Monitor.Shutdown` | `ai-gateway/src/discover/monitor/rate_limit/provider.rs:353-357` | Once events are closed the loop can end exactly when no restore is pending, which is exactly when nothing is limited; then this monitor has no key removed |
| `HealthMonitor.CheckHealth` | `ai-gateway/src/discover/monitor/health/provider.rs:256-285` | Fails exactly when an endpoint has no metrics; otherwise false exactly if some endpoint has at least min_requests requests and more errors than threshold times requests, or errors without requests |
| `HealthMonitor.FailingExactly` | `ai-gateway/src/discover/monitor/health/provider.rs:276-281` | The division of the source says exactly that |
| `HealthMonitor.ErrorsOnlyHurt` | `ai-gateway/src/discover/monitor/health/provider.rs:276-281` | More errors never make a failing endpoint healthy, and without errors none fails, for thresholds from 0 up |
| `HealthMonitor.CheckSettles` | `ai-gateway/src/discover/monitor/health/provider.rs:80-129` | After a check a key is held exactly if the latest look at it found it failing, or it was held and not looked at, for any list of looks |
| `HealthMonitor.CheckReportsChanges` | `ai-gateway/src/discover/monitor/health/provider.rs:101-129` | A check over distinct targets appends to the history exactly one report, a remove or an insert, for each look that differs from the status before the check, in order |
| `HealthMonitor.NewsOnce` | `ai-gateway/src/discover/monitor/health/provider.rs:101-129` | No check reports a key twice |
| `HealthMonitor.CheckKeepsInv` | `ai-gateway/src/discover/monitor/health/provider.rs:80-129` | A check keeps the agreement between the monitor set and the history, and the alternation of its changes |
| `HealthMonitor.Monitor.SettleTarget` | `ai-gateway/src/discover/monitor/health/provider.rs:101-129` | One target is handled as the protocol steps say; a dispatcher failure leaves the key forgotten and nothing sent |
| `HealthMonitor.Monitor.CheckMonitor` | `ai-gateway/src/discover/monitor/health/provider.rs:80-158` | With the counters read anew for each target: a completed check gives the specified state, with exactly the targets held of which some endpoint had enough requests and more errors than threshold times requests; a missing metric or failed dispatcher stops it at a named target, with the state of the targets before it |
| `HealthMonitor.QuietProviderReturns` | `ai-gateway/src/discover/monitor/health/provider.rs:114-129` | A target the monitor holds, whose endpoints each have fewer than min_requests requests in the lap in which it is looked at, is re-inserted by that very check |
| `HealthMonitor.IdleEndpointIsQuiet` | `ai-gateway/src/discover/monitor/health/provider.rs:256-285` | With min_requests at least 1, any check in a later lap than the last request finds the endpoint quiet |
| `HealthMonitor.QuietLapDoesNotFail` | `ai-gateway/src/discover/monitor/health/provider.rs:265-281` | An endpoint below min_requests in the current lap does not fail, whatever its errors |
| `RollingCounter.Counter.Incr` | `ai-gateway/src/metrics/rolling_counter.rs:44-63` | On a clock that never goes back, an increment appends one event to the counted history and every bucket still holds its count of its latest lap |
| `RollingCounter.Counter.Total` | `ai-gateway/src/metrics/rolling_counter.rs:66-79` | The total is the number of increments in the lap of now, modulo 2^32 |
| `RollingCounter.LapExactly` | `ai-gateway/src/metrics/rolling_counter.rs:35-42` | Lap n lasts from n windows to n + 1 windows after the start, and no longer |
| `RollingCounter.IndexExactly` | `ai-gateway/src/metrics/rolling_counter.rs:35-42` | Each bucket covers exactly its share of every lap |
| `RollingCounter.NothingInLap` | `ai-gateway/src/metrics/rolling_counter.rs:47-61` | A bucket tagged with an earlier lap holds no event of the current one, and no bucket is tagged with a later one |
| `RollingCounter.BucketSnoc` | `ai-gateway/src/metrics/rolling_counter.rs:44-63` | What one more event does to lap and count of its own bucket, and that it does nothing to the others |
| `RollingCounter.BucketsPartitionLap` | `ai-gateway/src/metrics/rolling_counter.rs:66-79` | The per-bucket counts of a lap add up to the events of that lap |
| `RollingCounter.LapWithinWindow` | `ai-gateway/src/metrics/rolling_counter.rs:35-42` | Everything counted happened less than one window ago |
| `RollingCounter.RollingExactly` | `ai-gateway/src/metrics/rolling_counter.rs:65-79` | The total never exceeds the count over the last window, and equals it if and only if no event of that window lies in an earlier lap |
| `RollingCounter.LapBoundaryForgets` | `ai-gateway/src/metrics/rolling_counter.rs:65-79` | For every window of at least two ticks, an event one tick old is already forgotten at the lap boundary: the window tumbles |
| `ConcurrentCounter.EveryIncrementAdds` | `ai-gateway/src/metrics/rolling_counter.rs:44-63` | In every interleaving, each started increment has added exactly once or is still under way |
| `ConcurrentCounter.CountIsSafeAdds` | `ai-gateway/src/metrics/rolling_counter.rs:44-63` | In every interleaving with no reset outstanding, a bucket holds exactly the adds since its lap last changed less those that overlapped a reset; every increment started is one of these, one of an earlier lap, or still under way |
| `ConcurrentCounter.NothingLostInOneLap` | `ai-gateway/src/metrics/rolling_counter.rs:44-63` | In every interleaving in which the lap never changes, the bucket holds every increment started that is not still under way |
| `ConcurrentCounter.StepKeepsInv` | `ai-gateway/src/metrics/rolling_counter.rs:47-62` | Each load, compare-exchange, store and add keeps the invariant that ties the count to the log and outstanding resets to winning threads |
| `ConcurrentCounter.AloneCountsOn` | `ai-gateway/src/metrics/rolling_counter.rs:44-63` | From any state, an uninterrupted increment in the lap of the bucket adds one |
| `ConcurrentCounter.AloneStartsLap` | `ai-gateway/src/metrics/rolling_counter.rs:44-63` | From any state, an uninterrupted increment in another lap installs that lap with a count of one |
| `ConcurrentCounter.OverlapLosesIncrement` | `ai-gateway/src/metrics/rolling_counter.rs:50-62` | A run of two increments of one lap that leaves the bucket at one |
| `ConcurrentCounter.LapNeverFalls` | `ai-gateway/src/metrics/rolling_counter.rs:47-57` | If no thread arrives with an older lap than the bucket holds, the lap never goes back in any interleaving |
| `ConcurrentCounter.LapFallsExactly` | `ai-gateway/src/metrics/rolling_counter.rs:47-57` | In every run, a step lowers the lap if and only if it is the compare-exchange of a thread whose load asked for an older lap than it saw, with the lap still the one it saw |
| `ConcurrentCounter.StaleThreadRewinds` | `ai-gateway/src/metrics/rolling_counter.rs:47-60` | From any state, one thread with an older lap takes the lap back and wipes the count |
| `ConcurrentCounter.ReadReturns` | `ai-gateway/src/metrics/rolling_counter.rs:66-79` | In every interleaving, a read whose two loads see no lap change and no outstanding reset returns at least the safe additions at its first load and at most all additions of the lap at its second |
| `ConcurrentCounter.ReadExactly` | `ai-gateway/src/metrics/rolling_counter.rs:66-79` | At any moment of any run the count is that of the current lap if and only if no reset is outstanding or the count is zero |
| `ConcurrentCounter.ReadSeesOldLap` | `ai-gateway/src/metrics/rolling_counter.rs:66-79` | A run after which a total reports an addition of an old lap as one of the current lap |
| `Gcra.FromConfig` | `ai-gateway/src/middleware/rate_limit/redis_service.rs:152-165` | For every refill period and capacity: the capacity is kept, the period lies between capacity intervals and capacity times one millisecond more, and the time to live exceeds the period by at most a second and the burst in any case |
| `Gcra.WindowBound` | `ai-gateway/src/middleware/rate_limit/redis_service.rs:172-184` | From any stored TAT and for every sorted run, the requests admitted in any window [from, to] number at most capacity + (to - from) / interval |
| `Gcra.Climbs` | `ai-gateway/src/middleware/rate_limit/redis_service.rs:172-176` | Each admission inside a window puts the TAT one further interval past the window start |
| `Gcra.Capped` | `ai-gateway/src/middleware/rate_limit/redis_service.rs:178-181` | No admission puts the TAT further ahead than the burst |
| `Gcra.SameInstant` | `ai-gateway/src/middleware/rate_limit/redis_service.rs:172-184` | Of n simultaneous requests exactly the spare number is admitted, or all of them |
| `Gcra.FullBurst` | `ai-gateway/src/middleware/rate_limit/redis_service.rs:172-184` | Once the TAT has passed, exactly capacity of at least that many simultaneous requests are admitted |
| `Gcra.RemainingExact` | `ai-gateway/src/middleware/rate_limit/redis_service.rs:186-206` | The advertised remaining is the number of further simultaneous admissions if and only if the stored TAT is at most 2I - 2 ms past; it is one too many up to 3I - 2 ms, and the request aborts if and only if it is 3I - 1 ms or more past |
| `Gcra.AdmitFrom` | `ai-gateway/src/middleware/rate_limit/redis_service.rs:178-218` | A cell admits from one instant on, and Retry-After is the number of whole seconds to it plus one |
| `Gcra.RetryAfterHonoured` | `ai-gateway/src/middleware/rate_limit/redis_service.rs:210-218` | After a rejection and any requests that were not admitted, a request at least retry_after seconds later is admitted, with the key still stored or not |
| `Gcra.RefinesLeakyBucket` | `ai-gateway/src/middleware/rate_limit/redis_service.rs:168-184` | On every sorted run the verdicts equal those of a leaky bucket draining one per millisecond and gaining the interval per admission |
| `RedisRateLimit.KeyTextReads` | `ai-gateway/src/middleware/rate_limit/extractor.rs:27-37` | The keys as they are written in the store |
| `RedisRateLimit.KeyTextDetermines` | `ai-gateway/src/middleware/rate_limit/extractor.rs:27-37` | Two key texts agree exactly when the layer texts and the users agree, whatever characters the user text has |
| `RedisRateLimit.KeyTextInjective` | `ai-gateway/src/middleware/rate_limit/extractor.rs:27-37` | Different (layer, user) pairs share a key exactly when the user is the same and one of the layers is a router named GLOBAL, the other none |
| `RedisRateLimit.ExpiryInvisible` | `ai-gateway/src/middleware/rate_limit/redis_service.rs:168-184` | On every sorted run, whenever the store drops entries whose time to live is over, the verdicts equal those of a cell that never expires |
| `RedisRateLimit.KeyIsolation` | `ai-gateway/src/middleware/rate_limit/redis_service.rs:138-184` | What one key experiences in a run over the shared store is a run of its own cell |
| `RedisRateLimit.Isolation` | `ai-gateway/src/middleware/rate_limit/redis_service.rs:138-184` | The decisions for one (router, user) in any interleaved run in which no other layer has the same key text are those of its own requests alone |
| `RedisRateLimit.TenantVerdicts` | `ai-gateway/src/middleware/rate_limit/redis_service.rs:122-184` | On an initially empty store they are admitted exactly as by a private cell that never expires |
| `RedisRateLimit.TenantWindowBound` | `ai-gateway/src/middleware/rate_limit/redis_service.rs:152-184` | Whatever the others do and whenever the store forgets, the admissions of one pair in any window number at most capacity plus the window in intervals |
| `RedisRateLimit.RedisRateLimitService.MakeRequest` | `ai-gateway/src/middleware/rate_limit/redis_service.rs:122-227` | The reply is too-many-requests if and only if the cell does not admit, with the capacity, nothing remaining and the first whole second past the wait; an admitted request is forwarded with the capacity and, where the header is exact, the further admissions, or fails with the inner service, or aborts exactly from 3I - 1 ms on or with interval 0; the store keeps the new TAT for the time to live, or is unchanged |
| `RedisRateLimit.TenantReachBound` | `ai-gateway/src/middleware/rate_limit/redis_service.rs:122-227` | In every interleaved run, the requests of one pair that reach the wrapped service in any window number at most capacity plus the window in intervals |
| `RedisRateLimit.LullAborts` | `ai-gateway/src/middleware/rate_limit/redis_service.rs:186-193` | On a fresh cell, any second request at least 4I - 1 ms later while the key is stored aborts |
| `WeightedBalance.ConfigDiscovery.PollNext` | `ai-gateway/src/discover/provider/config.rs:142-161` | Yields the configured services and then the live changes, each once and in order; otherwise waits or ends and changes nothing |
| `WeightedBalance.ReadyCache.Evict` | `crates/weighted-balance/src/balance/mod.rs:151-154` | The key is in neither ready nor pending afterwards, and every other key is kept |
| `WeightedBalance.SwapRemoveKeys` | `crates/weighted-balance/src/balance/mod.rs:137-154` | Removing a ready service by moving the last one into its place loses exactly that service |
| `WeightedBalance.KeptIndex` | `crates/weighted-balance/src/balance/mod.rs:243-246` | An index kept across an eviction still names its service if and only if it was neither the index of the evicted one nor the last |
| `WeightedBalance.Balance.TakeChange` | `crates/weighted-balance/src/balance/mod.rs:151-160` | Evicting or adding the key keeps the equality of what is tracked (or was dropped for failing) with the replay of all consumed changes |
| `WeightedBalance.Balance.UpdatePendingFromDiscover` | `crates/weighted-balance/src/balance/mod.rs:140-163` | Consumes everything waiting, and what is tracked (or was dropped for failing) equals the replay of all consumed changes |
| `WeightedBalance.Balance.PromotePendingToReady` | `crates/weighted-balance/src/balance/mod.rs:165-190` | Terminates, drops only failing services, and leaves no pending service that answers |
| `WeightedBalance.Balance.ReadyIndex` | `crates/weighted-balance/src/balance/mod.rs:192-220` | None exactly when nothing is ready, otherwise an index in range; it can only fail with more than one ready |
| `WeightedBalance.Balance.PollReady` | `crates/weighted-balance/src/balance/mod.rs:238-283` | Terminates for every behaviour of services and sampler; Ready means the stored index is in range and its service answers, Pending that nothing is ready and no service at all answers; all discovery was consumed first and only failing services are dropped |
| `WeightedBalance.Balance.Call` | `crates/weighted-balance/src/balance/mod.rs:285-291` | A request goes to the service at the stored index, and the latest consumed change about its key is an insert, never a remove |
| `WeightedBalance.PoolIsReplay` | `ai-gateway/src/discover/provider/config.rs:142-161` | In every run of the pool protocol, the pool is the replay of what has been consumed of the configured services followed by everything the monitors sent |
| `WeightedBalance.BalancerTracksPool` | `crates/weighted-balance/src/balance/mod.rs:140-163` | A balancer that has consumed as much as the protocol has exactly the pool of the protocol in ready, pending or dropped for failing |
| `WeightedBalance.NeverServesDoublyHeld` | `crates/weighted-balance/src/balance/mod.rs:285-291` | In every run, a balancer that has consumed everything has only keys of the drained pool ready, none of them held by both monitors |
| `WeightedBalance.ServeOne` | `crates/weighted-balance/src/balance/mod.rs:238-291` | At any state of any run, polling and then calling consumes everything waiting and sends the request to a key of the drained pool that is not held by both monitors |
| `ResponseCache.ProbeAll` | `ai-gateway/src/middleware/cache/service.rs:497-520` | For every completion order: a fresh bucket is served exactly when some probe is fresh; otherwise the stale and empty lists are exactly the stale and missing buckets |
| `ResponseCache.CacheService.MakeRequest` | `ai-gateway/src/middleware/cache/service.rs:435-571` | In every order of completion: a hit iff some bucket has an entry for this seed, path and query and body that is fresh, and then that entry, which the inner service gave with success for exactly these; else a refresh iff some such entry is stale; else a fill; no inner call on a hit and one otherwise; that one key is written iff the answer is storable with status 200 to 299 |
| `ResponseCache.CacheService.HandleResponseForCacheMiss` | `ai-gateway/src/middleware/cache/service.rs:378-432` | Writes the key exactly when the response is storable and a success; every stored entry stays justified by an inner answer for its key |
| `ResponseCache.CacheService.Call` | `ai-gateway/src/middleware/cache/service.rs:603-627` | Refuses exactly a requested bucket count from 11 to 255 and ignores larger ones; enabled, seed and bucket count are those of the request where it gives them, else the configured ones, else off and one bucket; each outcome, a bypass included, has the effects these call for |
| `ResponseCache.MergeOverrides` | `ai-gateway/src/middleware/cache/service.rs:67-87` | Each setting of the request overrides the configured one, which holds otherwise |
| `ResponseCache.SharesCell` | `ai-gateway/src/middleware/cache/service.rs:573-583` | Two requests share a cell if and only if they agree on seed, path and query, body and bucket |
| `ResponseCache.ProbeExactly` | `ai-gateway/src/middleware/cache/service.rs:217-231` | A probe is fresh or stale exactly if the entry of this seed, path and query, body and bucket is stored and judged so |
| `ResponseCache.StepKeepsInv` | `ai-gateway/src/middleware/cache/service.rs:435-571` | Each step of any number of overlapping requests keeps provenance of store and history, one event per request, and buckets in range |
| `ResponseCache.Provenance` | `ai-gateway/src/middleware/cache/service.rs:476-583` | In every interleaving from an empty store, a served response was given earlier by the inner service, with status 200 to 299, to a request with equal seed, path and query and body, for the same bucket |
| `ResponseCache.ServesFreshOnly` | `ai-gateway/src/middleware/cache/service.rs:500-509` | A step serves a response if and only if a probe returns whose entry is there and fresh |
| `ResponseCache.ProbesAreSorted` | `ai-gateway/src/middleware/cache/service.rs:510-519` | Any other probe is put down as stale, as empty, or not at all if it failed |
| `ResponseCache.AsksForStaleFirst` | `ai-gateway/src/middleware/cache/service.rs:522-548` | The inner service is asked for a stale bucket if there is one, else for an empty one if there is one |
| `ResponseCache.AsksAfterAllProbes` | `ai-gateway/src/middleware/cache/service.rs:500-548` | In every run, a request with an answer of the inner service has had every one of its buckets probed |
| `ResponseCache.StoresSuccessOnly` | `ai-gateway/src/middleware/cache/service.rs:387-421` | An answer is stored exactly if it may be and its status is 200 to 299, and nothing else in the store changes |
| `ResponseCache.OneEventPerRequest` | `ai-gateway/src/middleware/cache/service.rs:497-570` | In every interleaving a decided request was served exactly once without the inner service or called it exactly once |
| `ModelIds.ParseModelAndVersion` | `ai-gateway/src/types/model_id.rs:454-544` | The loops that collect, reverse and scan the candidates compute the declarative split |
| `ModelIds.Candidates` | `ai-gateway/src/types/model_id.rs:483-497` | The candidates are exactly the dashes with something after them, from left to right |
| `ModelIds.FindCut` | `ai-gateway/src/types/model_id.rs:499-540` | The scan finds the leftmost dash whose rest is wanted, or none |
| `ModelIds.SplitIsExact` | `ai-gateway/src/types/model_id.rs:454-544` | The string is the model, one dash and a spelling of the recognised version, or the model is the whole string |
| `ModelIds.NoVersionExactly` | `ai-gateway/src/types/model_id.rs:454-544` | No version is found exactly when neither the dated-preview rule nor any suffix after a dash yields one |
| `ModelIds.DatedPreviewExactly` | `ai-gateway/src/types/model_id.rs:459-471` | The split is a dated preview if and only if a date follows the last -preview- |
| `ModelIds.SuffixRules` | `ai-gateway/src/types/model_id.rs:473-481` | Otherwise a suffix -preview or -latest in lower case decides |
| `ModelIds.LeftmostFullDate` | `ai-gateway/src/types/model_id.rs:499-515` | Otherwise the leftmost suffix that is a date with a year |
| `ModelIds.LeftmostVersion` | `ai-gateway/src/types/model_id.rs:518-544` | Otherwise the leftmost suffix that is any date, or latest or preview in any mixture of cases; and none without such a suffix |
| `ModelIds.FullDateWins` | `ai-gateway/src/types/model_id.rs:499-515` | After the suffix rules, the leftmost full-date suffix is chosen whenever there is one |
| `ModelIds.MonthDayIsLastResort` | `ai-gateway/src/types/model_id.rs:499-540` | A month-day result means that no suffix is a full date |
| `ModelIds.PrintAfterParse` | `ai-gateway/src/types/model_id.rs:284-328` | Printing a parsed string changes at most the spelling of its version |
| `ModelIds.RoundTrip` | `ai-gateway/src/types/model_id.rs:284-328` | Parse then print is the identity if and only if the version part is written as printed: keywords in lower case, dates as the calendar writes them |
| `ModelIds.BedrockIsExact` | `ai-gateway/src/types/model_id.rs:376-407` | A Bedrock string is its provider up to the first dot, the part the split applies to, and the internal version from the last -v |
| `ModelIds.BedrockReadsExactly` | `ai-gateway/src/types/model_id.rs:376-407` | A string is read as a Bedrock id if and only if it has a dot and, after it, a -v |
| `ModelIds.VersionedReadsExactly` | `ai-gateway/src/types/model_id.rs:284-311` | A string is read as a versioned id if and only if it is not empty and does not end in a dash, a dot or an at sign |
| `ModelIds.ProviderKept` | `ai-gateway/src/types/model_id.rs:155-209` | A text read in the style of a provider belongs to that provider |
| `ModelIds.BedrockRoundTrip` | `ai-gateway/src/types/model_id.rs:376-427` | Parse then print of a Bedrock string is the identity if and only if its version part is written as printed |
| `ModelIds.OllamaRoundTrip` | `ai-gateway/src/types/model_id.rs:337-363` | Parse then print is the identity if and only if the first colon is not the last character |
| `ModelIds.OllamaPrintParse` | `ai-gateway/src/types/model_id.rs:337-363` | Print then parse is the identity for every id whose model has no colon and whose tag is not empty |
| `ModelIds.KeepsNameExactly` | `ai-gateway/src/types/model_id.rs:115-130` | A readable text is looked up as itself if and only if it has no version, or no tag for Ollama; a Bedrock name never is |
| `ModelIds.EveryNameIsRead` | `ai-gateway/src/types/model_id.rs:284-319` | For every calendar, every string is the looked-up name of some text that can be requested |
| `ModelMapping.MappingPrecedence` | `ai-gateway/src/middleware/mapper/model.rs:58-114` | In every iteration order of the alternatives: the model itself if offered, else an offered alternative of the router, else one of the default mapping, and NoModelMapping exactly when there is none of these |
| `ModelMapping.ChoiceExactly` | `ai-gateway/src/middleware/mapper/model.rs:82-94` | As the alternatives are a hash set: the names that some iteration order chooses are exactly the offered alternatives |
| `ModelMapping.ChoiceSettled` | `ai-gateway/src/middleware/mapper/model.rs:82-94` | The choice is independent of that order if and only if at most one alternative is offered |
| `ModelMapping.CanMapExactly` | `ai-gateway/src/config/validation.rs:91-129` | The validation test fails exactly when the run-time search would return NoModelMapping |
| `ModelMapping.MappedIsOffered` | `ai-gateway/src/middleware/mapper/model.rs:58-114` | What is returned is the source when the target offers its name, or the reading of a name the target offers |
| `ModelMapping.ValidationExact` | `ai-gateway/src/config/validation.rs:39-88` | A router passes validation if and only if no text, read in any style, fails with NoProviderConfig, or with NoModelMapping although one of the router's providers offers its looked-up name |
| `ModelMapping.ValidationTight` | `ai-gateway/src/config/validation.rs:39-88` | A router that fails validation has a target and a text, read as the gateway reads it, for which the run-time mapping fails |
| `ModelMapping.OfferedNameServed` | `ai-gateway/src/config/validation.rs:59-84` | In a valid router, an offered name requested as it is written fails at a target if and only if it loses a version, tag or Bedrock parts in the lookup and what is left cannot be mapped there |
| `ModelMapping.ServesOffersExactly` | `ai-gateway/src/config/validation.rs:37-88` | A valid router serves all offered names as they are written if and only if those that lose something in the lookup can be mapped without it |
| `ModelMapping.ValidYetUnmapped` | `ai-gateway/src/config/validation.rs:37-88` | Validation alone does not promise that: for every readable Bedrock name, a router offering just that name is valid and a request for it fails with NoModelMapping |
| `ModelMapping.ValidateRouter` | `ai-gateway/src/config/validation.rs:48-85` | The loops accept exactly the valid routers, and a reported provider or pair really fails |
| `ModelMapping.ValidateMapping` | `ai-gateway/src/config/validation.rs:131-158` | Accepts exactly the mappings whose models are all offered by some provider; a reported model is one of the mapping and offered by none |
| `ModelMapping.ValidateModelMappings` | `ai-gateway/src/config/validation.rs:39-88` | Accepts exactly the valid configurations, in which every model a mapping names is offered by some provider, and reports an unknown model exactly when some mapping has one |
| `ModelMapping.UnreadableExactly` | `ai-gateway/src/middleware/mapper/model.rs:84-113` | The mapping fails with InvalidModelName if and only if the target is configured, does not offer the name, and the chosen alternative cannot be read in its style |
| `ModelMapping.ValidYetUnreadable` | `ai-gateway/src/config/validation.rs:39-88` | A configuration that passes validation and fails with InvalidModelName on a requested OpenAI model |

## Left out

- Machine arithmetic of the limiter: instants are unbounded integers, so overflow and saturation at the limits of `i64` are not modelled; the aborts that occur for ordinary values are.
- The race between GET and SET in the limiter, Redis and pool errors, and the in-memory limiter: one request is one atomic step on a single clock.
- Floating point: the rolling counter uses exact integer time with a window of at least one tick, and error ratios are real numbers. A sum of counters wraps at 32 bits, as in a release build.
- Weak memory: the concurrent counter interleaves its atomic operations, and the two loads of a total, sequentially consistently, one bucket at a time.
- A dropped receiver of the provider channel: sends do not fail. Tasks are cancelled only by the failures listed as steps.
- Several endpoint types per router and several targets per provider: one each is assumed, as the monitor maps are keyed by router alone.
- The service cache and the weighted sampler: they are libraries. `ReadyCache` states the contract the balancer relies on, and every choice is open (which services answer or fail, in which order, which index is drawn); what a key's service answers does not change during one poll. Weights and probabilities are not modelled, nor is the latency balancer.
- WeightedBalance.Balance.PollReady: discovery errors are left out, because the configured discovery never yields one.
- Cache freshness, storability and cache-control parsing are inputs; the key hash is taken to be injective; response headers, failures while collecting a body or writing the store are left out.
- WeightedBalance.ConfigDiscovery.PollNext: services are identified with their keys, so which dispatcher object answers is not modelled.
- Date recognition: the calendar is an arbitrary pair of functions that does not change during a parse. Byte positions are character positions.
- `{provider}/{model}` identifiers, stand-alone version parsing and whether a printed identifier parses to the same one: they depend on the calendar or are single branches.
- Iteration order of configuration maps and sets: which of several validation errors is reported is left open, and alternatives are iterated in any order.
- Duplicate model names: validation collects models in a list where the source uses a set; only membership matters.
- Dispatching, body converters, signing, authentication, secrets, logging, telemetry, configuration reading, the control plane, the database listener and the command line: they move data or decide single branches, and keep no state over a run.
