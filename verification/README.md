# AlphaSync backend: verified models

Dafny models of the stateful algorithms in the AlphaSync trading backend, with proofs of what they
promise over whole runs. `dafny verify dfyconfig.toml` checks everything.

| files | component |
|---|---|
| `QuoteRouter`, `QuoteCoordinator`, `CoordinatorRuns` | the quote authority: overwrite rules, metadata, priority tiers, and interleaved ingests |
| `QuoteContents` | what an authority entry says and which ingests are emitted, by the quotes that came in |
| `MirrorConvergence` | when the mirror aliases of a symbol end up equal to its canonical entry |
| `LotEngine`, `Reconcile` | FIFO lots, fitting them to a holding, profit and loss |
| `SmartCache`, `SmartCacheRuns` | the in-memory TTL and LRU cache |
| `RateLimiter`, `RedisLimiter` | the sliding-window limiter: memory path, Redis path, failover |
| `Indicators`, `Rounding` | SMA, EMA rounded at every step, MACD |
| `Candles`, `Calendars`, `CalendarCandles` | tick-to-candle buckets, ISO weeks and months, weekly and monthly candles |
| `EventBus` | the event bus with its dispatcher and load shedding |
| `SymbolMap`, `PriceCache`, `PriceCacheRuns`, `DayChange` | symbol aliases, the price cache, its day-change enrichment |
| `Text`, `Basics` | string normalisation, `Option` |

Code that updates fields or lists in place is a class or a method with the source's loop, proved
equal to a specification function; the theorems are about those functions, over every run, and
say what the functions compute in terms of inputs, written-out thresholds and arithmetic.
Coroutines are transition systems: one step per block between two awaits, in any interleaving. On the
event bus a handler's call and its return, where the source counts it, are two steps.

Conventions. The clock is a parameter that never runs backward. Within one atomic block the clock
has one value, except that `SmartCache.set` takes three readings. Floating point is `real`. Python's
`round` is an arbitrary function that moves a number by at most half a grid
step, keeps order and leaves its own results alone; the grid is what it leaves alone, and grid values
subtract without leaving it (`Rounding.HalfUpIsRounding` shows rounding half up on the decimal grids does this);
what is said about the numbers in the price cache also needs zero to round to zero. Raw timestamps are described by what `float` and
`datetime.fromisoformat` make of them; a number written back by the enrichment is taken not to
parse as an ISO date. Strings are ASCII.

## Findings

- Enrichment does not always keep the parsed timestamp: a time outside (1e9, 1e12] that comes
  without an `exchange_timestamp` is stored as a number that parses differently or not at all.
  `EnrichmentKeepsTimestamp` gives the exact condition.
- For quotes without a sequence number an alias converges whenever the final quote's ingest lists it
  (`PlainMirrorsConverge`). With sequence numbers it need not, because the 1 ms tolerance is not transitive: a burst of ingests converges under every
  interleaving if and only if the last accepted ingest lists the alias and nothing that competes for
  the alias is more than the tolerance newer than the last accepted quote (`BurstConvergesIff`).
  `NumberedFeedDiverges` is a run of three quotes that ends with nothing in flight and the alias
  left behind.
- A symbol that is neither registered nor touched within the last 600 s is handled as WARM but labelled
  COLD, because the label is taken before the touch; the event bus sheds by the label.
  `LabelMatchesTierIff` gives the exact condition.
- Requests that read the same clock value share one entry of the Redis sorted set. The Redis path
  counts distinct admission times (`RedisCountsDistinctTimes`), so it and the memory path admit the
  same requests on every run if and only if the limit is one (`AdmitAlikeIff`).
- The limiter's cleanup consults the table of limits but not the default limit. It is safe because
  all windows are 60 s; `CleanupForgetsLongerWindows` shows what a longer one would do.
- Unsubscribing a handler that was already called for the event being dispatched makes the next
  handler miss that event, against the class comment that events are never lost. A subscription
  receives every event of its type exactly once if and only if this never happens just before its turn
  (`DeliveredExactlyOnce`). A handler that unsubscribes itself while it runs always does it to
  the one after it (`OneShotHandlerSkipsNext`).
- The enrichment raises, and the write is lost, when it leaves a percentage given as text in place: a priced
  quote without a previous close whose percentage reads as -100 or less (`RaisesExactlyIf`).
- A quote without a positive price is stored with whatever day change it brings, against the
  enrichment's comment that every branch clamps (`EnrichedIsPlausibleIff`).

## Model

| member | source | states |
|---|---|---|
| `QuoteRouter.MutualOverwriteIff` | backend/market/quote_router.py:66-106 | two quotes can each displace the other exactly when they tie in time and sequence, rank alike and bring different prices |
| `QuoteRouter.AcceptsLexicographically` | backend/market/quote_router.py:66-106 | acceptance compares time up to 1 ms, then sequence, then rank of the source; a full tie goes to the newcomer exactly when it brings another price |
| `QuoteRouter.OpenRanks` | backend/market/quote_router.py:10-46 | the order of the sources while the market is open, in any letter case, unknown ones included |
| `QuoteRouter.ClosedRanks` | backend/market/quote_router.py:10-46 | the order after the close |
| `QuoteRouter.SecondsOrMilliseconds` | backend/market/quote_router.py:37-60 | a time after September 2001 reads the same in seconds and in milliseconds, smaller numbers are left to the ISO reading |
| `QuoteRouter.TimePreference` | backend/market/quote_router.py:37-60 | exchange time before quote time before last trade time, and the first one present decides |
| `QuoteRouter.FreshnessByAge` | backend/market/freshness_engine.py:45-80 | live, delayed or stale by the age of the last tick, with the limits of the tier |
| `QuoteRouter.FreshnessWhenClosed` | backend/market/freshness_engine.py:45-80 | exactly official closes are EOD, exactly frozen sources and a closed market are FROZEN |
| `QuoteRouter.OfficialCloseHolds` | backend/market/quote_router.py:24-34 | with the market closed a live tick of the same moment never displaces an official close, and the close displaces the tick |
| `QuoteRouter.EnrichmentKeepsTimestamp` | backend/market/freshness_engine.py:82-107 | the stored quote parses to the same time if and only if it brought an exchange timestamp or its time parses as seconds |
| `QuoteRouter.OldIsoTimeIsLost` | backend/market/freshness_engine.py:103-106 | a concrete ISO time before 2001 that the enrichment loses |
| `SymbolPriority.SymbolPriorityEngine.Register` | backend/market/symbol_priority_engine.py:49-56 | the tier map changes only to a better tier, the touch time always |
| `SymbolPriority.SymbolPriorityEngine.Touch` | backend/market/symbol_priority_engine.py:58-61 | only the touch time of the normalised symbol changes |
| `SymbolPriority.TouchKeepsWarm` | backend/market/symbol_priority_engine.py:58-73 | after a touch the symbol, in any spelling, reads its registered tier, or else WARM for exactly 600 s and COLD from then on; no other symbol reads differently |
| `SymbolPriority.RegisterGivesBetter` | backend/market/symbol_priority_engine.py:49-73 | after a registration the tier read is the better of the new and the registered one, whatever was touched |
| `QuoteCoordinator.Coordinator.BeginIngest` | backend/market/quote_coordinator.py:78-107 | the accept-and-store block: what is stored, and what the ingest carries on, or nothing at all |
| `QuoteCoordinator.Coordinator.MaybeEmit` | backend/market/quote_coordinator.py:179-197 | shed, throttled or emitted, and the emit time recorded only when emitted |
| `QuoteCoordinator.Coordinator.WriteMirrors` | backend/market/quote_coordinator.py:124-136 | the mirror loop as a fold of guarded writes |
| `QuoteContents.EntryIsLastAccepted` | backend/market/quote_coordinator.py:78-107 | in any run the entry is what its last accepted ingest brought: the first nonzero of `price`, `ltp` and `lp`, all other fields, source, symbol and arrival time; never labelled delayed or stale |
| `QuoteContents.AcceptedExactlyIf` | backend/market/quote_coordinator.py:78-89 | when an ingest is accepted, by its own fields and the entry it meets |
| `QuoteContents.AcceptStartsTask` | backend/market/quote_coordinator.py:90-122 | what an accepted ingest carries on, with an emit to come exactly if one was asked for and a change reported |
| `QuoteContents.EmitsExactlyIf` | backend/market/quote_coordinator.py:179-197 | after any run an emit block emits if and only if it is not COLD at a queue of 250 or more and no earlier emission of the symbol is within 0.25 s (WARM) or 1 s (COLD) |
| `QuoteContents.MirrorIsOffered` | backend/market/quote_coordinator.py:124-136 | every listed mirror, in any spelling, is offered the stored quote by the rule for any other quote, and one that takes it shows everything else as stored |
| `CoordinatorRuns.MirrorsAt` | backend/market/quote_coordinator.py:124-136 | each listed alias is merged exactly once with the carried quote, however often the list repeats it |
| `CoordinatorRuns.MirrorsElsewhere` | backend/market/quote_coordinator.py:124-136 | the mirror loop changes no name that is not listed |
| `CoordinatorRuns.EveryAcceptRises` | backend/market/quote_coordinator.py:83-102 | under any interleaving each accepted ingest gives the entry the next sequence number and a time not older by more than 1 ms, newer by more than 1 ms if the quotes carry no sequence; nothing else changes the entry |
| `CoordinatorRuns.SequenceCountsAccepts` | backend/market/quote_coordinator.py:84-101 | under any interleaving the sequence counter and the stored sequence both equal the number of accepted ingests |
| `MirrorConvergence.MirrorsConverge` | backend/market/quote_coordinator.py:82-136 | from any state with no ingest of the symbol in flight, any mirror lists and any other traffic: once nothing is in flight again the alias equals the canonical entry, if the final quote lists it and nothing that competes for it is clearly newer |
| `MirrorConvergence.PlainMirrorsConverge` | backend/market/quote_coordinator.py:82-136 | for quotes without a sequence number no condition on the times is needed |
| `MirrorConvergence.AliasStaysBehind` | backend/market/quote_coordinator.py:124-136 | over any run, whatever the times, the alias holds nothing, the canonical quote, or one stored before it |
| `MirrorConvergence.BurstConvergesIff` | backend/market/quote_coordinator.py:82-136 | a burst of ingests converges under every interleaving of its blocks if and only if the last accepted ingest lists the alias and neither an accepted quote listing it nor the alias entry is more than 1 ms newer than the last accepted quote |
| `MirrorConvergence.BurstDiverges` | backend/market/quote_coordinator.py:82-136 | otherwise there is a run of exactly those ingests that ends with nothing in flight and the alias different from the canonical entry |
| `MirrorConvergence.NumberedFeedDiverges` | backend/market/quote_router.py:79-91 | such a run of three numbered quotes from an empty registry |
| `CoordinatorRuns.EmitsAreSpaced` | backend/market/quote_coordinator.py:179-197 | over any run an emit at WARM or COLD comes at least 0.25 s or 1 s after every earlier emit of its symbol |
| `CoordinatorRuns.HotAlwaysEmits` | backend/market/quote_coordinator.py:179-197 | a HOT symbol is never throttled or shed |
| `CoordinatorRuns.TiersNeverFall` | backend/market/symbol_priority_engine.py:49-56 | over any run a registered tier never falls |
| `CoordinatorRuns.NeverCold` | backend/market/quote_coordinator.py:103-113 | with HOT and WARM registrations only, no ingest reaches the COLD shed branch |
| `CoordinatorRuns.LabelMatchesTierIff` | backend/market/freshness_engine.py:91-102 | a quote is labelled with the tier it is handled at if and only if its symbol is registered or was touched less than 600 s ago; otherwise WARM is labelled COLD |
| `LotEngine.OffsetInPlace` | backend/routes/portfolio.py:239-272 | the in-place loop over the lots offsets oldest first and reports the shares left |
| `LotEngine.ApplyInPlace` | backend/routes/portfolio.py:228-286 | one transaction: ignored if invalid, else offset and opened |
| `LotEngine.NetTransactions` | backend/routes/portfolio.py:217-286 | interleaved rows of many keys leave each key with the lots of its own rows |
| `LotEngine.LotsRefineShareQueue` | backend/routes/portfolio.py:217-286 | for every transaction list the lots stand for exactly the FIFO queue of single signed shares, and never mix directions |
| `LotEngine.LotsConsumedInOrder` | backend/routes/portfolio.py:239-272 | closed lots form a prefix, lots after the first open one are untouched, each lot keeps its identity |
| `LotEngine.LotsConserveQuantity` | backend/routes/portfolio.py:231-286 | the signed lot sum equals the signed sum of the valid transactions |
| `LotEngine.LotsComeFromTransactions` | backend/routes/portfolio.py:250-286 | every lot carries the identity, price and time of one of the transactions, on its side and within its quantity |
| `Reconcile.ReconcileLots` | backend/routes/portfolio.py:48-92 | the fitting loop, with its synthetic remainder |
| `Reconcile.NewestFirstSorts` | backend/routes/portfolio.py:64-64 | the sort is a descending permutation |
| `Reconcile.NewestFirstIsStable` | backend/routes/portfolio.py:64-64 | lots with equal timestamps keep their order |
| `Reconcile.ReconciledSumsToHolding` | backend/routes/portfolio.py:55-92 | the result sums exactly to the holding, carries its sign, and only its last lot can be synthetic |
| `Reconcile.ReconciledPrefersNewer` | backend/routes/portfolio.py:61-90 | a newer lot is never dropped or cut while an older one is kept, and a synthetic lot means every lot is kept whole |
| `Reconcile.SyntheticCoversTheRest` | backend/routes/portfolio.py:79-90 | the synthetic lot stands for exactly what the lots of the holding's sign do not cover, at its average price and update time |
| `Reconcile.MatchingHoldingKeepsFifoLots` | backend/routes/portfolio.py:48-92 | if the transactions net to the holding the result is exactly the open FIFO lots, newest first, nothing cut, nothing synthetic |
| `Reconcile.ProfitPerLot` | backend/routes/portfolio.py:303-319 | the i-th profit is (current - entry) * remaining of the i-th open lot, zero prices standing for the average price; together they are value minus signed cost |
| `Reconcile.ReconciledAreOpen` | backend/routes/portfolio.py:305-310 | every reconciled lot is open, so each gets a profit |
| `Reconcile.MatchingHoldingCostsFifoShares` | backend/routes/portfolio.py:290-319 | that cost is the cost of the shares left in the FIFO queue |
| `SmartCache.Cache.Get` | backend/cache/smart_cache.py:60-77 | answer, lazy deletion, move to the recent end and counters |
| `SmartCache.Cache.Set` | backend/cache/smart_cache.py:79-101 | placement, eviction of the least recent entry, periodic cleanup; raises only for a capacity that is not positive |
| `SmartCache.Cache.Delete` | backend/cache/smart_cache.py:103-108 | the key is gone and the result says whether it was there |
| `SmartCache.Cache.InvalidatePrefix` | backend/cache/smart_cache.py:110-115 | exactly the keys with the prefix are gone, and they are counted |
| `SmartCache.Cache.Cleanup` | backend/cache/smart_cache.py:121-126 | exactly the expired entries are gone |
| `SmartCacheRuns.TimedIsLatestWrite` | backend/cache/smart_cache.py:79-119 | the reference timed map holds a key exactly when its latest write was not removed since, with that write's value and expiry |
| `SmartCacheRuns.GetIsSound` | backend/cache/smart_cache.py:60-77 | after any run, a value returned is that of the latest set of the key, not removed since and not past its expiry |
| `SmartCacheRuns.GetIsComplete` | backend/cache/smart_cache.py:60-101 | LRU retention over any run: with fewer than `max_size` distinct other keys set or hit since the key's last set or hit, get returns the timed map's value up to its expiry |
| `SmartCacheRuns.EvictionSpares` | backend/cache/smart_cache.py:89-93 | an eviction takes an entry only if `max_size` other keys are more recent |
| `SmartCacheRuns.CapacityHolds` | backend/cache/smart_cache.py:89-93 | the size never exceeds `max_size` |
| `SmartCacheRuns.CleanupIsInvisible` | backend/cache/smart_cache.py:121-126 | cleanup never changes what a later get answers |
| `SmartCacheRuns.SetCleansUpIff` | backend/cache/smart_cache.py:97-101 | a set more than 60 s after the last cleanup leaves nothing expired, any other removes no more than it overwrites or evicts |
| `SmartCacheRuns.CountersAddUp` | backend/cache/smart_cache.py:60-95 | hits are the answered gets, misses the others, sets and evictions count what they say |
| `RateLimiter.RoutedIsInUse` | backend/core/rate_limiter.py:22-36 | every path routes to a positive limit whose window the cleanup respects |
| `RateLimiter.RouteIsFirstMatch` | backend/core/rate_limiter.py:86-93 | a bucket keeps its client and has the limit of the first listed prefix of the path; 120 in 60 s only if there is none |
| `RateLimiter.AdminLoginsAreStrict` | backend/core/rate_limiter.py:22-36 | administrator logins get 5 in 60 s, other admin paths 180 |
| `RateLimiter.RateLimitMiddleware.CheckMemory` | backend/core/rate_limiter.py:187-212 | verdict and new state of the memory path |
| `RateLimiter.RateLimitMiddleware.Cleanup` | backend/core/rate_limiter.py:214-223 | exactly the idle buckets are gone |
| `RateLimiter.MemoryDecidesAsSpecified` | backend/core/rate_limiter.py:187-223 | after any run over any mix of buckets, cleanups included, a request is admitted if and only if fewer than `max_requests` were admitted in the last `window` of the full history |
| `RateLimiter.VerdictCountsTheWindow` | backend/core/rate_limiter.py:187-223 | the same by counting: admitted if and only if fewer than `max_requests` admissions of the bucket are less than `window` old, and the verdict reports their number |
| `RateLimiter.AdmissionsAreHistory` | backend/core/rate_limiter.py:187-212 | the admissions of the middleware are those of the specification |
| `RateLimiter.NoWindowExceedsLimit` | backend/core/rate_limiter.py:187-212 | no interval of `window` seconds ever contains more than `max_requests` admissions |
| `RateLimiter.CleanupIsFaithful` | backend/core/rate_limiter.py:214-223 | cleanup changes no later decision |
| `RateLimiter.CleanupForgetsIdle` | backend/core/rate_limiter.py:214-223 | cleanup keeps exactly the buckets with a request within the longest window |
| `RateLimiter.CleanupIsPeriodic` | backend/core/rate_limiter.py:207-212 | it runs exactly after an admission more than 300 s after the last one |
| `RateLimiter.CleanupForgetsLongerWindows` | backend/core/rate_limiter.py:216-221 | a longer window than the cleanup consults would turn a refusal into an admission |
| `RateLimiter.RetryAfterIsTight` | backend/core/rate_limiter.py:199-205 | `retry_after` is in 1..window+1, waiting it out is enough, waiting less than one second short of it is not |
| `RedisLimiter.RedisCountsDistinctTimes` | backend/core/rate_limiter.py:145-181 | on every run in time order, repeated timestamps included, the Redis path admits if and only if fewer than `max_requests` distinct admission times are live; count and `retry_after` follow from them |
| `RedisLimiter.MemoryFollowsLog` | backend/core/rate_limiter.py:187-223 | the verdict of the whole middleware, any mix of buckets and cleanups, is that of the full log of the bucket |
| `RedisLimiter.RedisAgreesWithMemory` | backend/core/rate_limiter.py:145-223 | in any mixed traffic, with distinct timestamps in the bucket, the Redis path gives the verdict, `retry_after` and count of the memory path |
| `RedisLimiter.AdmitAlikeIff` | backend/core/rate_limiter.py:145-223 | the two paths admit the same requests on every run if and only if the limit is one |
| `RedisLimiter.SameInstantIsNeverRefused` | backend/core/rate_limiter.py:178-178 | requests with the same timestamp are all admitted when the limit is at least two |
| `RedisLimiter.KeyOutlivesWindow` | backend/core/rate_limiter.py:176-181 | the key outlives the window of the latest admission by 10 s |
| `RedisLimiter.RaceIsBounded` | backend/core/rate_limiter.py:158-181 | with at most k requests between check and add, under any interleaving, the set never exceeds `max_requests + k - 1` |
| `RedisLimiter.RaceWindowIsBounded` | backend/core/rate_limiter.py:158-181 | with checks in time order, no interval of `window` seconds contains more than `max_requests + k - 1` admission times |
| `RedisLimiter.BackToBackIsSequential` | backend/core/rate_limiter.py:158-181 | a check whose add follows at once is a request of the sequential path |
| `RedisLimiter.FailoverTimesAtMostDouble` | backend/core/rate_limiter.py:103-112 | with any switching between backends, Redis errors and repeated timestamps included, no window contains more than twice the limit of admission times |
| `RedisLimiter.FailoverAtMostDoubles` | backend/core/rate_limiter.py:103-112 | with distinct timestamps no window sees more than twice the limit admitted |
| `RedisLimiter.MemoryAlone` | backend/core/rate_limiter.py:103-112 | without switching, the dispatcher admits what the memory path admits |
| `RedisLimiter.RedisAlone` | backend/core/rate_limiter.py:103-112 | or what the Redis path admits |
| `Indicators.Sma` | backend/engines/indicators.py:49-67 | the rolling sum gives the rounded direct window mean at every index, missing before `period - 1` |
| `Indicators.EmaOf` | backend/engines/indicators.py:70-92 | the loop gives the recursively defined rounded average, aligned at the end |
| `Indicators.ExactEmaIsWeighted` | backend/engines/indicators.py:70-92 | without rounding the recursion is the closed form: the mean of the first `period` prices and each later price, faded by 1 - 2 / (period + 1) per step |
| `Indicators.EmaIsWeighted` | backend/engines/indicators.py:70-92 | at every price index the reported average is within 0.00005 * (period + 1) / 2 of that closed form |
| `Indicators.EmaDriftIsBounded` | backend/engines/indicators.py:81-90 | rounding at every step never moves the average by more than 0.00005 * (period + 1) / 2 from the exact one, for any length |
| `Indicators.EmaStaysInRange` | backend/engines/indicators.py:81-90 | the rounded average stays between any two grid values that bound the prices |
| `Indicators.MacdOf` | backend/engines/indicators.py:142-189 | line, signal and histogram: exact difference of the averages, average of the line, exact line minus signal |
| `Indicators.MacdPrefixes` | backend/engines/indicators.py:161-183 | the missing prefixes have lengths `max(fast, slow) - 1` and `max(fast, slow) + signal - 2` |
| `Indicators.MacdDriftIsBounded` | backend/engines/indicators.py:142-189 | for any length, line, signal and histogram stay within the summed drift bounds of their averages from the unrounded ones |
| `Indicators.ExactMacdIsWeighted` | backend/engines/indicators.py:142-189 | the unrounded line is the fast closed form minus the slow one, the unrounded signal the closed form over the line |
| `Candles.BuildCandles` | backend/providers/internal_sim_provider.py:456-490 | the tick loop equals bucketing the usable ticks |
| `Candles.UsableTicksInOrder` | backend/providers/internal_sim_provider.py:456-470 | ticks with a time and a price become items one for one and in order, with that price and volume |
| `Candles.BucketIsMultipleBelow` | backend/providers/internal_sim_provider.py:464-464 | the bucket of a time is the multiple of the width at or below it |
| `Candles.CutWhereQuotientChanges` | backend/providers/internal_sim_provider.py:456-490 | consecutive items share a candle exactly when their times have the same quotient by the width, and each candle is stamped with the multiple at or below its items and spans them |
| `Candles.CoarseEqualsFineThenCoarse` | backend/providers/internal_sim_provider.py:456-490 | for any ticks in any order, whenever one width divides another, bucketing coarse equals bucketing fine and then coarse |
| `Candles.IntervalsFromMinutes` | backend/providers/internal_sim_provider.py:30-33 | every chart interval can be rebuilt from one-minute candles |
| `Candles.OneBucketOneCandle` | backend/providers/internal_sim_provider.py:471-487 | ticks of one bucket give one candle with the first open, last close, exact extremes and total volume |
| `Candles.BucketsSplit` | backend/providers/internal_sim_provider.py:471-490 | where the bucket changes the list splits |
| `Candles.BucketedConserves` | backend/providers/internal_sim_provider.py:475-487 | volume is conserved and OHLC stays well formed |
| `Calendars.WeeksAreCalendar` | backend/routes/market.py:98-108 | ISO year and week name exactly the weeks that start at Monday midnight UTC, and each week is an interval |
| `Calendars.MonthsAreCalendar` | backend/routes/market.py:109-117 | year and month name exactly the months that start at midnight on the first, leap years included |
| `Calendars.NextDay` | backend/routes/market.py:109-117 | from day to day the date counts up to 28, 29, 30 or 31 by the Gregorian rule, then the next month begins |
| `Calendars.NextWeek` | backend/routes/market.py:98-108 | from week to week the ISO number goes up by one or is week 1 of the next year |
| `Calendars.FourthOfJanuaryIsInWeekOne` | backend/routes/market.py:98-108 | 4 January is in week 1 |
| `Calendars.CountingStarts` | backend/routes/market.py:98-98 | timestamp 0 is midnight of Thursday 1 January 1970, and a day has 86400 seconds |
| `CalendarCandles.AggregateCalendarCandles` | backend/routes/market.py:76-143 | weeks and months are the grouping of the usable entries by their calendar; other intervals pass through |
| `CalendarCandles.Aggregate` | backend/routes/market.py:83-143 | the loop equals that grouping, for any calendar |
| `CalendarCandles.ChartHasOneCandlePerPeriod` | backend/routes/market.py:98-143 | days in time order give one candle per week or month that has a day, strictly ascending, each stamped with its Monday or its first |
| `CalendarCandles.OnePeriodOneCandle` | backend/routes/market.py:121-138 | well-formed days of one period become one candle whose values are the exact summary rounded once |
| `CalendarCandles.OnePeriodSpansAllPrices` | backend/routes/market.py:121-138 | the same for days of any shape: the candle spans exactly the prices of all its days |
| `CalendarCandles.UsableBarsInOrder` | backend/routes/market.py:87-96 | the entries that parse become the days one for one and in order |
| `CalendarCandles.PeriodsSplit` | backend/routes/market.py:121-141 | where the period changes the fold starts afresh |
| `CalendarCandles.GroupsAreWellFormed` | backend/routes/market.py:125-138 | OHLC stays well formed through every rounding step |
| `CalendarCandles.VolumeIsConserved` | backend/routes/market.py:131-138 | non-negative volume is conserved, whatever the input |
| `EventBus.Bus.Unsubscribe` | backend/core/event_bus.py:122-126 | the first occurrence leaves its list, all other lists stay |
| `EventBus.Bus.Emit` | backend/core/event_bus.py:128-156 | enqueued and counted, or dropped if a cold price update at depth 300 or more |
| `EventBus.Bus.DispatchNext` | backend/core/event_bus.py:178-203 | when no handler yields: the oldest event goes to every handler once, in list order, each call counted once |
| `EventBus.TurnIsRun` | backend/core/event_bus.py:178-203 | that turn is a run of the interleaved system |
| `EventBus.NothingIsLost` | backend/core/event_bus.py:128-203 | in every run events are taken in acceptance order, `emitted` is taken plus waiting, `handled + errors` is the number of calls that have returned |
| `EventBus.OnlyColdIsShed` | backend/core/event_bus.py:138-156 | all offered events but cold price updates are accepted, in order |
| `EventBus.ShedsExactlyIf` | backend/core/event_bus.py:128-156 | an emit is dropped without a trace exactly if it is a cold price update at depth 300 or more, else it joins the queue and is counted |
| `EventBus.NothingShedBelowDepth` | backend/core/event_bus.py:139-143 | while the queue stays below 300 nothing is dropped |
| `EventBus.DeliveredInOrder` | backend/core/event_bus.py:122-203 | under any interleaving, unsubscribing included, a subscription that stays receives once each and in order every event of its type but those it is skipped for |
| `EventBus.DeliveredExactlyOnce` | backend/core/event_bus.py:122-203 | it has received every taken event of its type exactly once, in order, if and only if it was never next in line when a handler already called for the event was removed |
| `EventBus.DrainedBusDeliveredAll` | backend/core/event_bus.py:122-203 | once drained, a subscription has received exactly the accepted events of its type in emission order, under the same if and only if |
| `EventBus.UnsubscribeWhileServing` | backend/core/event_bus.py:122-203 | the exact effect of unsubscribing on the calls still pending |
| `EventBus.UnsubscribeIsHarmlessIff` | backend/core/event_bus.py:122-203 | the calls still pending are exactly those of the other handlers if and only if the removed one was still pending or none was |
| `EventBus.OneShotHandlerSkipsNext` | backend/core/event_bus.py:122-203 | a handler that unsubscribes while it runs makes the next handler miss the event |
| `SymbolMap.CanonicalTwice` | backend/providers/contract_symbol_map.py:122-131 | normalising first does not change the canonical symbol |
| `SymbolMap.CanonicalNamesListing` | backend/providers/contract_symbol_map.py:122-131 | the cleaned symbol itself if it names an index, exchange or commodity, else its NSE listing |
| `SymbolMap.BaseNameOfListing` | backend/providers/contract_symbol_map.py:294-294 | the base name of a listing is the name without its exchange |
| `SymbolMap.LookupKeys` | backend/providers/contract_symbol_map.py:272-302 | the reader's key list, from both rename tables |
| `SymbolMap.LookupKeysAre` | backend/providers/contract_symbol_map.py:272-302 | which keys those are, each once, the live name or else the canonical symbol first |
| `SymbolMap.MirrorKeys` | backend/providers/contract_symbol_map.py:305-316 | the writer's key list |
| `SymbolMap.MirrorKeysAre` | backend/providers/contract_symbol_map.py:305-316 | the canonical symbol first and both directions of every rename, each once |
| `SymbolMap.FirstLookupIsMirrored` | backend/providers/contract_symbol_map.py:272-316 | the first key a reader tries is one of the keys the writer of its class mirrors to, for any two tables that agree and rename without chains |
| `SymbolMap.TablesAreConsistent` | backend/providers/contract_symbol_map.py:112-119 | the tables of the source do |
| `PriceCache.EnrichedIsPlausibleIff` | backend/cache/redis_client.py:78-193 | through every branch, the result is plausible if and only if the quote has a positive price or was plausible already |
| `DayChange.EnrichedCompletes` | backend/cache/redis_client.py:78-193 | what the enrichment returns, by the numbers the quote brings: prices rounded; with a previous close, change and percentage within rounding of price minus close and of their ratio; with only a percentage, a close from which the price is that percentage away; supplied values kept, implausible ones removed, all other fields untouched |
| `DayChange.RaisesExactlyIf` | backend/cache/redis_client.py:130-193 | the exact condition under which it raises |
| `PriceCache.Cache.SetPrice` | backend/cache/redis_client.py:321-355 | new contents of the live and last-price keys, and success unless the enrichment raises |
| `PriceCache.Cache.SetPricesMirrored` | backend/cache/redis_client.py:357-401 | the same for canonical and mirrors in one pipeline, all or nothing |
| `PriceCache.Cache.SetPricesBatch` | backend/cache/redis_client.py:403-437 | the same for a batch, all or nothing; an empty batch reports failure |
| `PriceCache.Cache.SetAuthoritativeClose` | backend/cache/redis_client.py:439-499 | the official close under both keys |
| `DayChange.WritersStore` | backend/cache/redis_client.py:321-437 | a batch stores each key's last quote, completed if the market is closed, for 24 h or 120 s, and its completion as the last price; nothing if any quote raises |
| `DayChange.WritersAreBatches` | backend/cache/redis_client.py:321-401 | single and mirrored writes are such batches, a mirror differing in symbol and name only |
| `DayChange.CloseStores` | backend/cache/redis_client.py:439-499 | the official close: which fields mark it, what is rounded, and that it is kept for 24 h |
| `DayChange.ReadsFirstLive` | backend/cache/redis_client.py:501-524 | a read answers with the first key whose entry has not expired |
| `PriceCache.Cache.GetPrice` | backend/cache/redis_client.py:501-524 | the first live entry in alias order |
| `PriceCacheRuns.LastPricesStayPlausible` | backend/cache/redis_client.py:321-499 | over every sequence of the four writers no stored last price shows a day change beyond 100 percent |
| `PriceCacheRuns.PricelessQuoteIsStoredAsIs` | backend/cache/redis_client.py:107-108 | without a positive price an implausible change is stored |
| `PriceCacheRuns.AliasReadsTheTick` | backend/cache/redis_client.py:357-524 | after a mirrored write, until expiry and whatever is written elsewhere, every symbol of the class reads that tick, but for symbol and name, enriched if the market is closed |

## Left out

- Web routes, database sessions, schedulers, WebSocket endpoints, the Redis client itself, JSON: plumbing.
- Trading engine, futures margin, simulator, delay engine: not part of this model.
- Strategies, risk checks, market session table, stale detector: each claim is settled by one branch.
- RSI, Bollinger bands, VWAP, ATR: they would add members of the same kind as SMA and EMA.
- `pnl_percent` and the formatting of the open-lots answer.
- Snapshot keys, the batch hash, `:ts` keys and quote metadata in Redis; collisions between key names.
- Coordinator recovery without mirrors, its Redis writes, and candle buffers fed by an ingest.
- MirrorConvergence.BurstConvergesIff: is about bursts that start with nothing in flight; `MirrorsConverge` covers every run with the condition as a hypothesis.
- EventBus.Bus.DispatchNext: handlers that never yield; yielding handlers are covered by the runs.
- Timestamps outside the years 1 to 9999, for which Python's `datetime` raises.
- The limiter lets paths outside `/api/`, health checks and WebSockets pass: one branch before the modelled code.
- `get_batch_prices`, prefix and statistics helpers of the caches, the cache decorator.
- The intraday builder is modelled for one day; the source repeats it per day with a fresh bucket.
- NaN, rounding ties, prices given as text in the quote router, clocks that run backward, cancelled coroutines.
- Periods below one for the indicators and a limit of zero for the limiter, for which the source raises.
