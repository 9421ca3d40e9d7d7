# Resilience and collections, modelled in Dafny

This project models the stateful core of the repository's shared libraries: the LRU caches, the rate limiters,
the circuit breakers and the retry handler that drives one, the bulkhead, ULID generation, and the string/int
prism. For each it proves what the component promises over whole runs: every trace of calls, every interleaving of
callers, every interval of time.

Each component is written twice. A value model gives the state as a datatype, every operation as a function, and a
run as a sequence of operations; the theorems are about runs of that model. Beside it a class (or, for the parser
and printer, a method) has the fields and loops of the source and is proved to compute exactly the model's next
state. The bulkhead's concurrency is a state machine over the atomic actions of its callers.

Modelling decisions:

- The clock, random bytes and draws, the context's cancellation and the outcome of an operation are arguments. Every
  locked step reads the clock once. Runs that need a clock that never goes back say so.
- Counters are unbounded integers; 64-bit wrap-around is written out where it decides the result (the prism).
  Floating point is `real`. Durations and instants are integers, except in the real-valued token bucket.
- A zero `time.Time` expiry is "no deadline". The eviction callback is the list of calls made to it.
- ULID bit operations on bytes and on the timestamp are divisions, remainders and sums of disjoint fields.
- A concurrent breaker is any sequence of its locked steps; the Rust breaker's methods are single steps.

Where the code does not do what its names or comments suggest, the code is modelled and the difference is proved:
the two Go breakers part exactly when a request comes from `openedAt + timeout` to `lastFailure + timeout`
(`ResilienceBreaker.InterleavingsAgreeIff`), which one caller at a time makes the timeout instant itself
(`ResilienceBreaker.BreakersAgreeIff`); retrying through `ExecuteWithCircuitBreaker` opens its breaker exactly at the
threshold and can never bring it back (`Retry.JobsFollowHistory`); a success threshold above the half-open quota
strands the Rust breaker (`RustBreaker.StuckIff`); `CurrentLoad` stays within `MaxConcurrent` exactly when there are no
more callers than permits (`Bulkhead.LoadBoundedIff`); an admission into an empty sliding window reports its own time
as `ResetAt` (`SlidingWindow.ResetAtExact`); the integer limiter's advertised wait is enough only at a rate of one
(`RateLimiter.AdvertisedWaitSufficesIff`) and a negative `AllowN` adds tokens (`RateLimiter.AllowNSafeIff`); the ULID
decode table accepts `U` (`Ulid.LettersAccepted`); the smallest integer prints as a lone minus sign
(`StringToInt.RoundTripIff`).

| file | content |
|---|---|
| `LruModel`, `LruInclusion`, `LruRecency`, `LruFreshness`, `LruConservation` | the LRU cache's value model and its theorems |
| `ListIndex`, `LruCache`, `LocalCache` | the two cache objects, and their equivalence |
| `SlidingWindow`, `TokenBucket`, `RateLimiter` | the three rate limiters |
| `FaultBreaker`, `ResilienceBreaker`, `RustBreaker`, `Retry` | the breakers, their comparison, and retry |
| `Bulkhead` | the two-channel semaphore under every interleaving |
| `Positional`, `Ulid` | digit sequences and their numbers; ULIDs |
| `StringToInt`, `Options` | the prism; optional values |

`dafny verify dfyconfig.toml` checks the whole project.

## Model

| member | source | states |
|---|---|---|
| `LruModel.RunKeepsValid` | libs/go/src/collections/lru.go:69-129 | in every run over all operations the list holds distinct keys, is never longer than the capacity, and `Size` and `Capacity` agree with it |
| `LruModel.RunKeepsCapacity` | libs/go/src/collections/lru.go:306-318 | in every run the capacity is the one last asked for, by creation or `Resize`, counted as one when not positive, and the list fits it |
| `LruModel.ResizeExact` | libs/go/src/collections/lru.go:306-318 | `Resize` sets the capacity, at least one, keeps exactly the most recent entries that fit, reports and counts the others from the back, and leaves the other counters |
| `LruInclusion.Inclusion` | libs/go/src/collections/lru.go:69-151 | for every trace without `Resize` and capacities c <= d at the same clock readings, the smaller cache's recency list is a subsequence of the larger's (keys, values, expiries), and every hit in the smaller cache is the same hit in the larger |
| `LruInclusion.RunKeepsInclusion` | libs/go/src/collections/lru.go:206-225 | the simulation behind it, from any two related states: subsequence, and at least as many free slots in the larger cache |
| `LruInclusion.ResizeBreaksInclusion` | libs/go/src/collections/lru.go:306-318 | why `Resize` is excluded: a trace with it for which the subsequence relation fails |
| `LruRecency.RecencyRefinement` | libs/go/src/collections/lru.go:69-129 | for every trace of puts with any TTL, lookups and clears in which no lookup finds an expired entry, all replies equal those of a reference that keeps the whole touch history, and the list is the first `capacity` distinct keys of the reversed history with value and deadline now + ttl |
| `LruRecency.TimelessIsInTime` | libs/go/src/collections/lru.go:69-129 | every trace of puts without expiry, lookups and clears is such a trace |
| `LruRecency.HitIffReuseDistance` | libs/go/src/collections/lru.go:69-93 | after such a run a lookup hits if and only if its key was touched, fewer than `capacity` distinct keys were touched since, and its deadline has not passed |
| `LruFreshness.HitsAreFresh` | libs/go/src/collections/lru.go:69-129 | in every run over all operations a hit returns the value last put under the key, not removed or cleared since, no later than `ttl` after the clock reading of that put when `ttl` is positive |
| `LruFreshness.ExactWithoutEvictions` | libs/go/src/collections/lru.go:101-129 | as long as nothing was evicted, a lookup returns exactly what the trace describes: hit or miss, and the value, by last put, its clock reading and TTL, removal and clear |
| `LruConservation.Conservation` | libs/go/src/collections/lru.go:255-271 | in every run, for any choice of keys: new-key insertions = listed + reported to the callback + dropped by `Clear`; callbacks = evictions + expirations + removals; `Hits`, `Misses`, `Expirations` and `Size` count what they name |
| `LruConservation.StatsBalance` | libs/go/src/collections/lru.go:194-203 | insertions = Size + Evictions + Expirations + successful removals + entries dropped by `Clear` |
| `LruConservation.CallbackSeesListed` | libs/go/src/collections/lru.go:263-271 | every callback call of every operation reports a key listed just before it, with its value |
| `LruConservation.CleanupExact` | libs/go/src/collections/lru.go:206-225 | `Cleanup` keeps exactly the unexpired entries, in order, and returns how many it removed |
| `LruCache.LRUCache.constructor` | libs/go/src/collections/lru.go:44-54 | a new cache is empty, with a capacity of at least one |
| `LruCache.LRUCache.RemoveElement` | libs/go/src/collections/lru.go:263-271 | unlinks the entry from map and list and reports it; map and list keep agreeing |
| `LruCache.LRUCache.EvictBack` | libs/go/src/collections/lru.go:255-261 | removes and counts the back of the list, if any; map and list keep agreeing |
| `LruCache.LRUCache.Get` | libs/go/src/collections/lru.go:69-93 | new state and result are those of the model; map and list keep agreeing |
| `LruCache.LRUCache.Put` | libs/go/src/collections/lru.go:96-98 | the model's put with the default TTL |
| `LruCache.LRUCache.PutWithTTL` | libs/go/src/collections/lru.go:101-129 | new state is that of the model: overwrite in front, or evict one and push; map and list keep agreeing |
| `LruCache.LRUCache.Remove` | libs/go/src/collections/lru.go:142-151 | new state and result are those of the model; map and list keep agreeing |
| `LruCache.LRUCache.Clear` | libs/go/src/collections/lru.go:174-180 | empties map and list, reports nothing, keeps the other counters |
| `LruCache.LRUCache.Cleanup` | libs/go/src/collections/lru.go:206-225 | the scan from the back ends in the model's state, with the callbacks in scan order and their number returned |
| `LruCache.LRUCache.Resize` | libs/go/src/collections/lru.go:306-318 | the eviction loop terminates in the model's state, at the new capacity |
| `ListIndex.LookupIsFind` | libs/go/src/collections/lru.go:73-79 | when the map is the index of the list, a map lookup is a search of the list |
| `LocalCache.CachesEquivalent` | libs/go/src/cache/local_cache.go:37-141 | for every positive capacity and every trace of set, get, delete and clear, `LocalCache` and `LRUCache` give the same replies and hold the same recency list |
| `LocalCache.LocalCache.constructor` | libs/go/src/cache/local_cache.go:25-34 | empty, with the default capacity 10000 when none is given |
| `LocalCache.LocalCache.RemoveElement` | libs/go/src/cache/local_cache.go:130-134 | unlinks the entry from map and list, which keep agreeing |
| `LocalCache.LocalCache.EvictBack` | libs/go/src/cache/local_cache.go:136-141 | drops the back of the list, if any |
| `LocalCache.LocalCache.Get` | libs/go/src/cache/local_cache.go:37-61 | new list and result are those of the model; map and list keep agreeing |
| `LocalCache.LocalCache.Set` | libs/go/src/cache/local_cache.go:64-98 | the eviction loop terminates and the new list is that of the model |
| `LocalCache.LocalCache.Delete` | libs/go/src/cache/local_cache.go:101-112 | new list and result are those of the model |
| `LocalCache.LocalCache.Clear` | libs/go/src/cache/local_cache.go:115-121 | empties map and list |
| `SlidingWindow.RefinesHistory` | libs/go/resilience/ratelimit/sliding_window.go:38-97 | for every run at nondecreasing times with any mix of `Allow` and observing calls, every decision equals counting the whole history, and pruned at any later instant the kept requests are exactly the admitted times in the window |
| `SlidingWindow.EveryWindowBounded` | libs/go/resilience/ratelimit/sliding_window.go:38-62 | in every run, at any instant t, the window (t - W, t] holds at most `limit` admissions |
| `SlidingWindow.GreedyIsOptimal` | libs/go/resilience/ratelimit/sliding_window.go:38-62 | for every run and every prefix, at least as many admissions as any other selection that keeps every window at or below the limit (an exchange argument); the one exception is a limit of zero with no window |
| `SlidingWindow.OptimalIff` | libs/go/resilience/ratelimit/sliding_window.go:51-59 | in a run no selection that keeps every window at or below the limit admits more than the limiter, if and only if the window has a length, or the limit is not zero, or nothing is asked |
| `SlidingWindow.RetryAfterIsTight` | libs/go/resilience/ratelimit/sliding_window.go:110-122 | after a rejection on any reachable limiter with a positive limit, RetryAfter is positive, every call before it has passed is rejected, and the first `Allow` after it is admitted |
| `SlidingWindow.RetryAfterIff` | libs/go/resilience/ratelimit/sliding_window.go:45-59 | in every run a decision carries the limit, and its RetryAfter is positive if and only if it rejects and the limit is positive |
| `SlidingWindow.RemainingCounts` | libs/go/resilience/ratelimit/sliding_window.go:45-59 | `Remaining` is the limit less the admissions, over the whole history, in the window that ends with the call |
| `SlidingWindow.ResetAtExact` | libs/go/resilience/ratelimit/sliding_window.go:45-52 | in every run `ResetAt` is the first instant at which a request counted after the call leaves the window, if and only if the window held an admission before the call (or has no length and the limit is positive) |
| `SlidingWindow.FirstResetIsNow` | libs/go/resilience/ratelimit/sliding_window.go:100-107 | the first admission reports its own time as `ResetAt`, although its window ends later |
| `SlidingWindow.NonPositiveLimitRejects` | libs/go/resilience/ratelimit/sliding_window.go:110-122 | without a positive limit every call of every run is rejected, with RetryAfter zero |
| `SlidingWindow.Limiter.constructor` | libs/go/resilience/ratelimit/sliding_window.go:28-35 | starts with no requests |
| `SlidingWindow.Limiter.PruneOldRequests` | libs/go/resilience/ratelimit/sliding_window.go:80-97 | the scan drops exactly the leading requests at or before the window's start |
| `SlidingWindow.Limiter.Allow` | libs/go/resilience/ratelimit/sliding_window.go:38-62 | new state and the whole decision are those of the model |
| `SlidingWindow.Limiter.GetHeaders` | libs/go/resilience/ratelimit/sliding_window.go:65-77 | only prunes; reports limit, remaining and reset time of the pruned state |
| `SlidingWindow.Limiter.CalculateRetryAfter` | libs/go/resilience/ratelimit/sliding_window.go:110-122 | the model's retry delay |
| `TokenBucket.TokensInRange` | libs/go/resilience/ratelimit/token_bucket.go:85-98 | in every run the tokens stay between zero and the capacity |
| `TokenBucket.IntervalBound` | libs/go/resilience/ratelimit/token_bucket.go:45-98 | over every interval [s, t] of every run, admissions are at most what a full bucket at s is worth at t: capacity + rate * (t - s) |
| `TokenBucket.IntervalBoundFromNew` | libs/go/resilience/ratelimit/token_bucket.go:31-42 | the same bound in the numbers of the configuration |
| `TokenBucket.Conservation` | libs/go/resilience/ratelimit/token_bucket.go:45-98 | in every run tokens held + admissions + tokens lost to the cap = starting tokens + rate * elapsed time |
| `TokenBucket.ExactBelowCap` | libs/go/resilience/ratelimit/token_bucket.go:45-98 | in every run that never reaches the cap, tokens held + admissions = starting tokens + rate * elapsed time |
| `TokenBucket.BurstFromNew` | libs/go/resilience/ratelimit/token_bucket.go:31-68 | of any number of `Allow` calls at the instant of creation exactly the first `capacity` are admitted |
| `TokenBucket.ObservationsInvisible` | libs/go/resilience/ratelimit/token_bucket.go:142-147 | inserting `GetHeaders` and `GetTokenCount` calls anywhere in a run changes no `Allow` decision |
| `TokenBucket.RefillSplits` | libs/go/resilience/ratelimit/token_bucket.go:85-98 | capped lazy refill splits over time: refilling on the way changes nothing |
| `TokenBucket.RetryAfterExact` | libs/go/resilience/ratelimit/token_bucket.go:113-122 | after a rejection, over any calls in between: every `Allow` before RetryAfter has passed is rejected, and a following `Allow` is admitted if and only if RetryAfter has passed and the capacity holds a whole token |
| `TokenBucket.NoRateNoRetry` | libs/go/resilience/ratelimit/token_bucket.go:113-122 | without a refill rate no wait is given for less than a whole token, and every later `Allow` is rejected |
| `TokenBucket.Limiter.constructor` | libs/go/resilience/ratelimit/token_bucket.go:31-42 | starts full, with the rate per second of the configuration |
| `TokenBucket.Limiter.FillUp` | libs/go/resilience/ratelimit/token_bucket.go:85-98 | the model's refill |
| `TokenBucket.Limiter.Allow` | libs/go/resilience/ratelimit/token_bucket.go:45-68 | new state, decision and retry delay are those of the model |
| `TokenBucket.Limiter.GetTokenCount` | libs/go/resilience/ratelimit/token_bucket.go:142-147 | only refills |
| `RateLimiter.TokensInRange` | libs/go/src/fault/ratelimit.go:88-101 | in every run of calls with non-negative requests the tokens stay in [0, Rate + BurstSize] |
| `RateLimiter.GrantedSinceCreation` | libs/go/src/fault/ratelimit.go:20-29 | tokens granted from creation to t are at most Rate + BurstSize + Rate * floor((t - t0) / Window) |
| `RateLimiter.IntervalBoundInWindows` | libs/go/src/fault/ratelimit.go:32-57 | over any interval [s, t] of any run with any mix of calls, at most Rate + BurstSize + Rate * (floor((t - s) / Window) + 1) |
| `RateLimiter.RefillAddsIncome` | libs/go/src/fault/ratelimit.go:88-101 | a refill adds exactly Rate per whole window since the last one, up to the cap, and nothing (keeping the old instant) before a window has passed |
| `RateLimiter.GrantedIff` | libs/go/src/fault/ratelimit.go:46-57 | a request for n is granted if and only if n is at most the tokens held plus the income since the last refill, and at most Rate + BurstSize; then exactly n are taken |
| `RateLimiter.BurstAtCreation` | libs/go/src/fault/ratelimit.go:20-43 | of any number of `Allow` calls at the instant of creation exactly Rate + BurstSize are granted |
| `RateLimiter.AllowNKeepsRangeIff` | libs/go/src/fault/ratelimit.go:46-57 | `AllowN` keeps the range if and only if n is not below the tokens missing from a full bucket, negated |
| `RateLimiter.NegativeRequestOverflows` | libs/go/src/fault/ratelimit.go:46-57 | an input on which a negative n lifts the tokens above the maximum |
| `RateLimiter.AllowNSafeIff` | libs/go/src/fault/ratelimit.go:46-57 | `AllowN(n)` leaves every bucket that was in range in range, at every time, if and only if n is not negative |
| `RateLimiter.RetrySucceedsIff` | libs/go/src/fault/ratelimit.go:103-112 | after a rejection, a retry after d succeeds if and only if a whole window has passed since the last refill |
| `RateLimiter.AdvertisedWaitCanFail` | libs/go/src/fault/ratelimit.go:103-112 | an input on which waiting the advertised Window / Rate is not enough |
| `RateLimiter.AdvertisedWaitSufficesIff` | libs/go/src/fault/ratelimit.go:103-112 | waiting the advertised Window / Rate is enough after every rejection from every bucket in range, if and only if Rate is one |
| `RateLimiter.NewRateLimiter` | libs/go/src/fault/ratelimit.go:20-29 | creates a full limiter if and only if the configuration validates |
| `RateLimiter.Limiter.constructor` | libs/go/src/fault/ratelimit.go:20-29 | starts with Rate + BurstSize tokens |
| `RateLimiter.Limiter.FillUp` | libs/go/src/fault/ratelimit.go:88-101 | the model's refill |
| `RateLimiter.Limiter.Allow` | libs/go/src/fault/ratelimit.go:32-43 | new state and grant are those of the model |
| `RateLimiter.Limiter.AllowN` | libs/go/src/fault/ratelimit.go:46-57 | new state and grant are those of the model |
| `RateLimiter.Limiter.Tokens` | libs/go/src/fault/ratelimit.go:129-134 | only refills; returns the tokens |
| `FaultBreaker.HistoryInvariant` | libs/go/src/fault/circuitbreaker.go:80-155 | for any interleaving of any number of callers: closed iff failures < threshold; while closed, failures are the trailing failures of the history; successes are zero outside half-open and inside it count those since it was entered, below their threshold; outside closed the remembered failure is the latest recorded |
| `FaultBreaker.FollowsHistory` | libs/go/src/fault/circuitbreaker.go:80-155 | in every run, of any number of interleaved callers, the state is the one a reference without counters reads off the events, and a request is admitted if and only if that state is not open or more than the timeout has passed since the latest failure |
| `FaultBreaker.OpenAdmitsIff` | libs/go/src/fault/circuitbreaker.go:84-103 | an open breaker admits if and only if more than the timeout has passed since the latest recorded failure, and half-open then starts without successes |
| `FaultBreaker.OpensOnThreshold` | libs/go/src/fault/circuitbreaker.go:116-129 | from closed it opens if and only if the step records the failure that makes FailureThreshold in a row |
| `FaultBreaker.QuietBeforeProbe` | libs/go/src/fault/circuitbreaker.go:87-91 | in a run at nondecreasing times, when an open breaker admits, every failure ever recorded is more than the timeout ago |
| `FaultBreaker.NewCircuitBreaker` | libs/go/src/fault/circuitbreaker.go:45-53 | creates a closed breaker if and only if the configuration validates: thresholds, timeout and HalfOpenRequests all positive |
| `FaultBreaker.CircuitBreaker.constructor` | libs/go/src/fault/circuitbreaker.go:45-53 | starts closed with zero counts |
| `FaultBreaker.CircuitBreaker.Transition` | libs/go/src/fault/circuitbreaker.go:143-155 | the model's transition |
| `FaultBreaker.CircuitBreaker.CanExecuteNow` | libs/go/src/fault/circuitbreaker.go:80-103 | new state and admission are those of the model |
| `FaultBreaker.CircuitBreaker.RecordOutcome` | libs/go/src/fault/circuitbreaker.go:105-141 | new state is that of the model |
| `FaultBreaker.CircuitBreaker.ResetBreaker` | libs/go/src/fault/circuitbreaker.go:172-178 | closed with zero counts, the latest failure kept |
| `ResilienceBreaker.BreakersAgreeIff` | libs/go/resilience/circuitbreaker/breaker.go:94-212 | with equal thresholds and timeout, over every sequential run of calls, outcomes and resets, the two breakers make the same decisions and pass through the same states if and only if no call lands exactly on the timeout instant |
| `ResilienceBreaker.InterleavingsAgreeIff` | libs/go/resilience/circuitbreaker/breaker.go:94-212 | the same over every interleaving of the steps of any number of callers and resets at nondecreasing times: same decisions and states if and only if no request reaches an open breaker from openedAt + timeout to lastFailure + timeout |
| `ResilienceBreaker.LogsAgreeIff` | libs/go/resilience/circuitbreaker/breaker.go:94-175 | the step behind it, for every interleaving at any times from any related states: they agree if and only if no request reaches open breakers of which one has waited long enough and the other has not |
| `ResilienceBreaker.OverlappingCallersDiffer` | libs/go/resilience/circuitbreaker/breaker.go:158-175 | an input with overlapping callers: a late failure postpones one breaker's probe only |
| `ResilienceBreaker.CircuitHistory` | libs/go/resilience/circuitbreaker/breaker.go:141-212 | after every interleaving: while closed, the failure count is the trailing failures of the history and below the threshold; version is the number of state changes and the change time that of the last; an open breaker opened then; the latest failure of the history is remembered |
| `ResilienceBreaker.CircuitObject.constructor` | libs/go/resilience/circuitbreaker/breaker.go:58-75 | starts closed with zero counts |
| `ResilienceBreaker.CircuitObject.Transition` | libs/go/resilience/circuitbreaker/breaker.go:188-212 | the model's transition; nothing when the state is already there |
| `ResilienceBreaker.CircuitObject.Allow` | libs/go/resilience/circuitbreaker/breaker.go:94-115 | new state and admission are those of the model |
| `ResilienceBreaker.CircuitObject.RecordSuccess` | libs/go/resilience/circuitbreaker/breaker.go:141-155 | new state is that of the model |
| `ResilienceBreaker.CircuitObject.RecordFailure` | libs/go/resilience/circuitbreaker/breaker.go:158-175 | new state is that of the model |
| `ResilienceBreaker.CircuitObject.Reset` | libs/go/resilience/circuitbreaker/breaker.go:178-185 | new state is that of the model |
| `ResilienceBreaker.CircuitObject.Execute` | libs/go/resilience/circuitbreaker/breaker.go:78-91 | admission, outcome and state afterwards are those of one call of the model |
| `Retry.ExecutionIsSound` | libs/go/resilience/retry/handler.go:81-127 | on a breaker nobody else uses, closed with f failures: at most min(MaxAttempts, FailureThreshold - f) runs, stopping at the first success; success iff the last run succeeded; breaker open iff the runs reached the threshold without success, opened at the last run's instant; exhausted only after MaxAttempts runs; no run starts and no wait goes on after the context has ended, and cancelled only when it did |
| `Retry.OutcomeDetermined` | libs/go/resilience/retry/handler.go:81-127 | that description fixes the outcome and the number of runs of every execution: any report that meets it has both equal to the execution's |
| `Retry.CancelledThere` | libs/go/resilience/retry/handler.go:90-120 | an execution that gets to an attempt with its context ended makes no further run there and is cancelled, unless it had already succeeded or opened the breaker |
| `Retry.ExecutionDelays` | libs/go/resilience/retry/handler.go:113-123 | the delays are `CalculateDelay` of the attempts and their draws in order, one between two runs (one more only on cancellation), and sum to at most MaxDelay each |
| `Retry.HalfOpenRunsOnce` | libs/go/resilience/retry/handler.go:94-111 | from half-open the operation runs exactly once, unless MaxAttempts or the context allows none; a failure leaves the breaker open and ends the execution, a success ends it with success |
| `Retry.JobsFollowHistory` | libs/go/resilience/retry/handler.go:81-127 | for every sequence of executions on a breaker closed with f failures and used by nobody else: it is never left half-open; it ends open if and only if all outcomes in order, after f failures, end in FailureThreshold failures in a row; otherwise its count is that number |
| `Retry.NothingAfterOpening` | libs/go/resilience/retry/handler.go:82-97 | once an execution of the sequence leaves the breaker open, every later one, at whatever time, reports an open circuit, runs nothing and leaves it unchanged |
| `Retry.OpenIsForever` | libs/go/resilience/retry/handler.go:82-97 | from an open breaker every sequence of executions runs nothing and leaves it unchanged, because only the state is read and admission never asked |
| `Retry.CalculateDelay` | libs/go/resilience/retry/handler.go:130-156 | never above MaxDelay, and never negative for a non-negative MaxDelay |
| `Retry.DelayIsExponential` | libs/go/resilience/retry/handler.go:130-137 | without jitter the delay of attempt k is the base delay multiplied k times by the multiplier, capped at MaxDelay, less the fraction |
| `Retry.BackoffStep` | libs/go/resilience/retry/handler.go:131-137 | the backoff starts at the capped base delay, and each next one is the multiplier times the one before, capped |
| `Retry.BackoffMultiplies` | libs/go/resilience/retry/handler.go:131-137 | k attempts later the backoff is this one multiplied k times, capped |
| `Retry.LowestDraw` | libs/go/resilience/retry/handler.go:139-153 | a draw of zero takes the whole jitter fraction off the backoff |
| `Retry.HighestDraw` | libs/go/resilience/retry/handler.go:139-153 | a draw of one adds the whole jitter fraction, up to MaxDelay |
| `Retry.DelayGrowsWithDraw` | libs/go/resilience/retry/handler.go:139-153 | a higher draw never gives a shorter delay |
| `Retry.DelayWithinJitter` | libs/go/resilience/retry/handler.go:139-153 | for a draw in [0, 1] the delay lies, up to the dropped fraction, within the jitter band around the capped backoff, and is the backoff itself at draw one half or without jitter |
| `Retry.DelaysGrow` | libs/go/resilience/retry/handler.go:131-137 | without jitter the delays never shrink from one attempt to the next |
| `Retry.ExecuteWithCircuitBreaker` | libs/go/resilience/retry/handler.go:81-127 | outcome, runs, delays and breaker afterwards are those of the model |
| `Retry.AttemptLoop` | libs/go/resilience/retry/handler.go:89-127 | the attempt loop on the live breaker refines the recursive model |
| `RustBreaker.EpisodeInvariant` | libs/rust/rust-common/src/circuit_breaker.rs:106-178 | in every run: open implies a remembered failure; outside closed the failures have reached their threshold; in half-open the counters are the episode's admissions and outcomes |
| `RustBreaker.FollowsHistory` | libs/rust/rust-common/src/circuit_breaker.rs:106-178 | in every run the state is the one a reference without counters reads off the moves, and a request is admitted if and only if that state is closed, or open with the timeout passed since the latest failure, or half-open with fewer than half_open_max_requests requests made in it |
| `RustBreaker.OpensIff` | libs/rust/rust-common/src/circuit_breaker.rs:162-178 | from closed it opens if and only if the step is the failure that makes failure_threshold in a row since the last success or reset (any failure if that is zero) |
| `RustBreaker.EpisodeQuota` | libs/rust/rust-common/src/circuit_breaker.rs:126-130 | each half-open episode admits at most half_open_max_requests + 1 requests |
| `RustBreaker.HalfOpenFailureReopens` | libs/rust/rust-common/src/circuit_breaker.rs:162-173 | any failure while half-open reopens |
| `RustBreaker.StuckIff` | libs/rust/rust-common/src/circuit_breaker.rs:137-148 | an episode can use its whole quota, hear back from all of it and still be half-open if and only if success_threshold > half_open_max_requests + 1 |
| `RustBreaker.StuckRejectsForever` | libs/rust/rust-common/src/circuit_breaker.rs:126-130 | from there every later request is rejected at whatever time, until an outcome or a reset arrives |
| `RustBreaker.RustCircuit.constructor` | libs/rust/rust-common/src/circuit_breaker.rs:86-95 | starts closed with zero counts |
| `RustBreaker.RustCircuit.Request` | libs/rust/rust-common/src/circuit_breaker.rs:106-132 | new state and admission are those of the model |
| `RustBreaker.RustCircuit.RecordSuccess` | libs/rust/rust-common/src/circuit_breaker.rs:137-157 | new state is that of the model |
| `RustBreaker.RustCircuit.RecordFailure` | libs/rust/rust-common/src/circuit_breaker.rs:162-178 | new state is that of the model |
| `RustBreaker.RustCircuit.Reset` | libs/rust/rust-common/src/circuit_breaker.rs:192-198 | back to the initial state, the remembered failure forgotten |
| `Bulkhead.EveryInterleaving` | libs/go/src/fault/bulkhead.go:32-93 | after every interleaving of any number of callers: semaphore occupancy = callers holding a permit <= MaxConcurrent; queue occupancy = callers between enqueue and deferred dequeue <= QueueSize; currentLoad = callers between increment and decrement |
| `Bulkhead.ConcurrencyBounded` | libs/go/src/fault/bulkhead.go:32-39 | at most MaxConcurrent operations run at once |
| `Bulkhead.TogetherIff` | libs/go/src/fault/bulkhead.go:41-54 | some run has exactly k operations running at once if and only if k is at most MaxConcurrent |
| `Bulkhead.SelectsExact` | libs/go/src/fault/bulkhead.go:41-76 | after every run, counted over callers: the first select takes a permit iff fewer than MaxConcurrent hold one, else tries the queue; the second joins iff fewer than QueueSize are queued, else refuses; a waiting caller can proceed iff a permit is free |
| `Bulkhead.WaitCanEnd` | libs/go/src/fault/bulkhead.go:56-76 | a wait can end if and only if the caller is waiting, and that caller then leaves the queue and is refused without anyone else acting |
| `Bulkhead.SucceedsIffRan` | libs/go/src/fault/bulkhead.go:32-39 | in every run an operation runs at most once, and a finished caller succeeded if and only if its operation ran |
| `Bulkhead.ReceivesNeverBlock` | libs/go/src/fault/bulkhead.go:56-81 | the receive in `release` and both deferred dequeues never block |
| `Bulkhead.DrainsToZero` | libs/go/src/fault/bulkhead.go:32-93 | when every caller has finished, both channels are empty and the load is zero |
| `Bulkhead.NoDeadlock` | libs/go/src/fault/bulkhead.go:41-81 | while some caller is unfinished some caller can act, without any wait having to end |
| `Bulkhead.CallersTerminate` | libs/go/src/fault/bulkhead.go:32-93 | in every run a caller takes at most nine actions |
| `Bulkhead.LoadLag` | libs/go/src/fault/bulkhead.go:83-93 | currentLoad + holders not yet counted = semaphore occupancy + callers that gave back but are still counted |
| `Bulkhead.LoadBoundedIff` | libs/go/src/fault/bulkhead.go:78-93 | every run with at most n callers keeps currentLoad within MaxConcurrent if and only if n is at most MaxConcurrent |
| `Bulkhead.LoadPilesUp` | libs/go/src/fault/bulkhead.go:83-93 | for every configuration and every k there is a run with exactly k callers, no permit held, and currentLoad k |
| `Ulid.RunIsSorted` | libs/go/src/domain/ulid.go:46-69 | for every run from any generator state with nondecreasing times below 2^50 ms and no wrap within one millisecond, every string compares below every later one in byte order |
| `Ulid.RunTimesRecovered` | libs/go/src/domain/ulid.go:72-84 | in the same runs, parsing recovers the text and the exact timestamp of every ULID |
| `Ulid.NextIsGreaterIff` | libs/go/src/domain/ulid.go:52-63 | a new ULID compares above the previous one if and only if the clock moved on, or stood still with the random part below its maximum |
| `Ulid.NextSpells` | libs/go/src/domain/ulid.go:52-63 | the number of the next ULID is the time and the random bytes delivered in a new millisecond, and otherwise the last number plus one with the random part wrapping to zero |
| `Ulid.TimeRecoveredIff` | libs/go/src/domain/ulid.go:172-185 | parsing an encoded ULID gives back its text and timestamp if and only if the timestamp is below 2^50 |
| `Ulid.ParseOfEncode` | libs/go/src/domain/ulid.go:72-84 | parsing an encoded ULID succeeds with its text and the low fifty bits of the timestamp |
| `Ulid.ParseExact` | libs/go/src/domain/ulid.go:72-84 | for every input, as a core between blanks: accepted if and only if the core has 26 characters that are digits or letters in either case other than I, L and O; the value is the core in capitals and the time the number of its first ten digits; otherwise the error names the length or the first bad character |
| `Ulid.Surrounded` | libs/go/src/domain/ulid.go:72-76 | every input is such a core between blanks |
| `Ulid.CompareIsNumeric` | libs/go/src/domain/ulid.go:116-118 | byte-lexicographic comparison of encoded ULIDs gives -1, 0 or 1 exactly as the numbers they spell compare |
| `Ulid.CompareIsOrder` | libs/go/src/domain/ulid.go:116-118 | on all strings the comparison is -1, 0 or 1, zero if and only if they are equal, and negated when they are swapped |
| `Ulid.EncodeSpellsKey` | libs/go/src/domain/ulid.go:139-170 | the 26 base-32 digits spell the low fifty bits of the time followed by the ten random bytes, as one number |
| `Ulid.IncrementAddsOne` | libs/go/src/domain/ulid.go:53-59 | the carry adds one to the eighty-bit random part, wrapping from all ones to zero |
| `Ulid.IncrementInPlace` | libs/go/src/domain/ulid.go:53-59 | the carry loop on the array is the model's increment |
| `Ulid.DecodeInverts` | libs/go/src/domain/ulid.go:18-26 | decoding the character of a digit gives the digit, although the table is written at overlapping places |
| `Ulid.LettersAccepted` | libs/go/src/domain/ulid.go:22-25 | among upper-case letters exactly I, L and O are rejected; U is accepted and decodes to 5 |
| `Ulid.InitTable` | libs/go/src/domain/ulid.go:18-26 | the two loops of `init` fill the decode table of the model |
| `Ulid.Generator.constructor` | libs/go/src/domain/ulid.go:34-38 | the globals start at zero |
| `Ulid.Generator.NewULID` | libs/go/src/domain/ulid.go:46-69 | new globals and the returned text and time are those of the model |
| `StringToInt.RoundTripIff` | libs/go/src/optics/prism.go:110-153 | for every 64-bit integer, parsing what was printed gives the number back if and only if it is not the smallest one |
| `StringToInt.PrintOfParseIff` | libs/go/src/optics/prism.go:110-153 | printing what was parsed gives the string back if and only if the string is canonical: no leading zero, at most one sign, a digit, and in range |
| `StringToInt.ParsesIff` | libs/go/src/optics/prism.go:112-130 | exactly which strings parse (not empty; digits, and minus signs before which the digits spell zero modulo 2^64) and to what: the number of the digits, negated after a leading minus sign, wrapped to 64 bits |
| `StringToInt.GetOption` | libs/go/src/optics/prism.go:112-130 | the parser's loop, with wrap-around, is the model's |
| `StringToInt.ReverseGet` | libs/go/src/optics/prism.go:131-151 | digit extraction, sign and reversal give the model's text |
| `StringToInt.ReverseInPlace` | libs/go/src/optics/prism.go:147-149 | the two-index loop reverses the buffer |

## Left out

- HTTP, gRPC, Redis, message-broker, Vault and key-set clients, error types, configuration loading, metrics and
  logging: input and output over libraries that are not part of the repository, or finite tables.
- LRU entries are values shared by map and list, not heap nodes: overwriting an entry replaces it in both, so
  aliasing of list elements is not captured. `LocalCache` byte slices are values, so copying is implicit.
- `LRUCache.Contains`, `Peek`, `Keys`, `Values`, `All`, `Collect`, `GetOrCompute` and `HitRate`: they only read, or
  compose `Get` and `Put`.
- LruCache.LRUCache.RemoveElement: takes the entry and removes by its key, not a list element, and always records the
  callback.
- LocalCache.LocalCache.RemoveElement: takes the entry and removes by its key, not a list element.
- LruCache.LRUCache.Get: without a registered callback the source makes no calls; the model always records them.
- SlidingWindow.Limiter.GetHeaders: the reset instant is not reduced to Unix seconds.
- TokenBucket.Limiter.constructor: a window of zero seconds, which gives an infinite rate in floating point, is not
  modelled.
- TokenBucket.Limiter.Allow: does not model the decision's limit, remaining and reset time, nor the rounding of
  floats and of the wait to whole nanoseconds, because the theorems are about admission.
- `GetHeaders` of the token bucket and `GetRequestCount` and `GetRequests` of the sliding window have no method of
  their own; they are the observing calls of the runs.
- `RateLimiter.Wait` and `Execute`: polling loops around `Allow`.
- FaultBreaker.CircuitBreaker.CanExecuteNow: does not model the fields of the circuit-open error; `OnStateChange`
  and the correlation identifier have no effect on the state.
- `HalfOpenRequests` of the fault breaker is validated by the source but never enforced, so nothing more is claimed of
  it.
- ResilienceBreaker.CircuitObject.constructor: the constructor's two unresolved merge variants agree on the fields
  modelled here; the event code between merge markers is not part of this model.
- RustBreaker.RustCircuit.Request: the separate locks and atomics inside one method are not interleaved; with them
  the quota would not hold.
- Bulkhead: the error values and the reading of the load for them are left out, since they change nothing.
- `Handler.Execute` without a breaker: the same loop with fewer exits.
- Ulid.ParseOfEncode: non-ASCII input to `ParseULID` is not modelled; `Bytes`, JSON and `IsZero` are left out.
- `PriorityQueue`, `DrainManager`, worker pools, `EventBus`, `CachedRepository` and the regex-based domain types.
