# A verified model of go-judgy's resilience layer and score aggregation

go-judgy asks language models to judge answers. Between its workflow and the providers stands a
stack of middlewares (cache, circuit breaker, rate limiter, retry, pricing), and behind them the
judges' scores are aggregated and a winner is chosen. This project models that stack and the
aggregation in Dafny and proves what they keep over every run.

| file | models |
|---|---|
| `Ordering.dfy`, `OrderStatistics.dfy` | sorting, Go's string order, ranks and sums of score lists |
| `Aggregation.dfy`, `Winner.dfy` | mean, median, trimmed mean; per-answer tables, epsilon ties, winner |
| `CircuitBreaker.dfy`, `BreakerHistory.dfy` | the breaker as an object, one call at a time, and all its call traces |
| `ProbeSlots.dfy`, `ProbeOvershoot.dfy` | the half-open probe slots, one atomic operation at a time, under every interleaving; a run that exceeds their limit |
| `ShardedBreakers.dfy` | the sharded, capped table of breakers under every interleaving |
| `FixedWindow.dfy`, `LocalLimiter.dfy`, `LimiterPhases.dfy` | the shared Redis window, the local token buckets with cleanup, the phases of one request |
| `Backoff.dfy`, `Retry.dfy`, `Pricing.dfy` | delays, the retry loop over an arbitrary handler, cost rounding |
| `CacheEntry.dfy`, `CacheLease.dfy` | what a cached response keeps; the check-and-lease protocol over a shared store |
| `CanonicalText.dfy`, `CanonicalPayload.dfy` | the canonical request text and the payload behind the idempotency key |

`dafny verify dfyconfig.toml` checks everything.

## How it is modelled

Code that updates fields or loops over variables is a class or method here, proved against a
specification function; what the code promises is then proved about those functions, over all
inputs, traces or schedules. Two granularities are used for the breaker. At call granularity
(`CircuitBreaker`, `BreakerHistory`) calls are atomic, and the counters refine a machine that has no
counters and reads its state off the trace. At operation granularity (`ProbeSlots`) every atomic
load, store, add and compare-and-swap is a step, and the `Undisturbed...` lemmas show that a call
nobody interrupts is the call-level one. The breaker table, the limiter phases and the cache protocol
are likewise machines over atomic steps, next to the object that performs one undisturbed call.

Time, randomness, handler answers, Redis failures and map iteration order are parameters or arbitrary
choices. Scores, rates and multipliers are exact reals.

## What the proofs found

- The trimmed mean with fraction 0.5 is the median for an odd number of scores, but the plain mean,
  with no resistance to outliers at all, for an even number; `FallbackCondition` says exactly when.
- Lowering a rival's score can dethrone the winner, because ties are measured from the highest
  aggregate; `WinnerUnderLowering` says exactly when. Raising the winner's own score cannot.
- The half-open probe limit can be exceeded: cleanups of probes admitted before a counter reset free
  the slots of newer probes. It holds in every run exactly if there are no more threads than slots
  (`LimitHoldsExactly`); `SlotConservation` says by how much it is exceeded.
- That eleven tenths of the open timeout always suffice holds exactly for nonzero timeouts and slots; with
  a zero timeout an `allow` in the same instant as the failure is still refused.
- A breaker can be refused for lack of room while nothing is stored yet. `RefusalCondition` says exactly
  when a call is refused: the missing places are promised to callers about to fill them.
- A limiter that was ever denied or has no burst is locked out for good once it has been stale at a
  cleanup. The comment at internal/llm/ratelimit/middleware.go:312-318 says such limiters are
  eventually deleted; the code never deletes them, and the model follows the code.
- A Redis counter that has lost its expiry at the limit is never given one again, so its key is denied for
  ever (`ImmortalCounter`); the script restores a missing expiry only on an admission.
- With local limiting off, a request that survives a Redis failure pays two fallback tokens.
- The window admits up to 2 * limit - 1 requests within two consecutive milliseconds; the maximum is
  known exactly for every length.
- The retry budget only sees responses. It can stop exactly those handlers whose retryable failures carry
  responses worth more than one cent or one token (`BudgetStopsExactly`). The handler and the pricing
  middleware below the loop return none with an error (internal/llm/transport/handler.go:80-134,
  internal/llm/business/pricing.go:520-528), so there no budget stops any run.
- A cached value that was not checked may have any age within its lifetime: if the check fails but the re-read succeeds, maxAge
  does not count. After a check that ran, late hits are fresh (`LateHitsAreFresh`).
- A cached response loses its finish reason (always "stop"), most headers and repeated header values.
- A cache hit after waiting for a lease is counted both as a miss and as a hit.
- Where the reply of a missed check arrives cut at its nil, a lease it took is neither used nor given back.
- A generation request with a blank question and one with an empty question get different payloads,
  although both have no words; it is the only request whose payload is not that of its canonical form.
- Answer IDs that may hold commas collide: every list of two or more does, and a single ID exactly if it can
  be cut at a comma into parts in order. Answer IDs are declared UUIDs (internal/domain/answer.go:109), so
  only unvalidated requests get there.
- The standalone exponential backoff skips jitter once a product went beyond the cap; the middleware's does not.

## Model

| member | source | states |
|---|---|---|
| OrderStatistics.Rank | internal/aggregation/activities.go:476-525 | The k-th entry of the sorted copy is at most x exactly when more than k scores are at most x. |
| OrderStatistics.Dominance | internal/aggregation/activities.go:476-525 | Raising any scores of the unsorted list lowers no entry of its sorted copy. |
| OrderStatistics.MiddleIsBounded | internal/aggregation/activities.go:495-525 | A sorted position at least m away from both ends stays within the bounds of the untouched scores, whatever m scores become. |
| Ordering.LexMeaning | internal/aggregation/activities.go:447-448 | The order of the sorted IDs: a prefix, or the smaller character at the first difference. |
| Aggregation.CalculateMeanValues | internal/aggregation/activities.go:463-472 | The loop returns the sum of the values over their number, and zero for none. |
| Aggregation.CalculateMedianValues | internal/aggregation/activities.go:476-490 | Returns the median that MedianIsMiddle characterises. |
| Aggregation.CalculateTrimmedMeanValues | internal/aggregation/activities.go:495-525 | The loop over the middle of the sorted copy returns the mean of what is left when the count of TrimCountExact is taken off both ends, and the plain mean when nothing would be left. |
| Aggregation.AggregateValues | internal/aggregation/activities.go:405-420 | Each answer's value is the one its policy prescribes; an unknown method falls back to the mean. |
| Aggregation.FilterExact | internal/aggregation/activities.go:269-277 | The filtered list holds each valid score as often as the input does, and no invalid one. |
| Aggregation.FilterValidScores | internal/aggregation/activities.go:269-277 | The filtering loop yields the list that FilterExact characterises. |
| Aggregation.ValidateScoreReasoning | internal/aggregation/activities.go:249-265 | Accepts exactly the lists in which every score marked valid has one reasoning source and not both. |
| Aggregation.CalculateMean | internal/domain/aggregation.go:155-174 | The mean over scores is that of the valid values alone, zero when there are none. |
| Aggregation.CalculateTrimmedMean | internal/aggregation/activities.go:339-371 | The trimmed mean over scores, whose fallback is the mean of the valid ones. |
| Aggregation.ApplyAggregationPolicy | internal/aggregation/activities.go:282-371 | The overall score. Unlike per answer, an unknown method is an error, unless there is nothing to combine. On valid scores the value is the policy's; on other lists the mean skips invalid scores, while median and trimming use them, falling back to the mean of the valid ones. |
| Aggregation.AggregateCosts | internal/aggregation/activities.go:530-536 | The loop adds up the costs of all scores, invalid ones included. |
| Aggregation.CostOfAll | internal/aggregation/activities.go:530-536 | The total is the cost of the scores that count plus the cost of those that do not. |
| Aggregation.AggregateIsMiddleMean | internal/aggregation/activities.go:463-525 | Every method is the mean of the sorted scores without the `Depth` lowest and highest ones. |
| Aggregation.MedianIsMiddle | internal/aggregation/activities.go:476-490 | The median is the mean of the one or two middle entries of the sorted list, for odd and even lengths alike. |
| Aggregation.FallbackCondition | internal/aggregation/activities.go:495-519 | Trimming would leave nothing, so that the mean takes over, if and only if the number of scores is even and the fraction at least one half. |
| Aggregation.TrimCountExact | internal/aggregation/activities.go:503-513 | The count taken off each end is the greatest whole number that is at most the fraction times the number of scores. |
| Aggregation.TrimExtremes | internal/aggregation/activities.go:339-371 | Trimming nothing is the mean; trimming half is the median of an odd list and the mean of an even one. |
| Aggregation.AggregatePermutation | internal/aggregation/activities.go:463-525 | No method depends on the order in which scores arrive. |
| Aggregation.AggregateMonotone | internal/aggregation/activities.go:463-525 | Every method is monotone in every coordinate of its unsorted input. |
| Aggregation.DepthResists | internal/aggregation/activities.go:495-525 | Any replacement of at most `Depth` scores leaves the result within the bounds of the untouched ones. |
| Aggregation.OneMoreBreaks | internal/aggregation/activities.go:495-525 | One replacement more can move the result to any nonnegative target while all untouched scores are zero. |
| Aggregation.BreakdownPoint | internal/aggregation/activities.go:476-525 | Exactly: m replacements are harmless for every list of n scores if and only if m is at most `Depth`. |
| Aggregation.BreakdownInNumbers | internal/aggregation/activities.go:476-525 | The breakdown point without reference to the code: a trimmed mean below one half withstands exactly its fraction of the scores, the median less than half of them, the mean and the fallback none. |
| Winner.GroupScores | internal/aggregation/activities.go:383-403 | Groups hold, for each known answer that was scored, its values in order of arrival; scores of unknown answers are dropped. |
| Winner.AggregateGroups | internal/aggregation/activities.go:405-420 | Whatever order the groups are visited in, each answer gets its aggregate. |
| Winner.Highest | internal/aggregation/activities.go:426-433 | The loop finds an attained greatest aggregate, also when all are negative or zero. |
| Winner.WithinTolerance | internal/aggregation/activities.go:435-441 | Collects exactly the answers within epsilon of the highest aggregate, each once. |
| Winner.TopByHighest | internal/aggregation/activities.go:435-441 | Being within epsilon of the highest aggregate is trailing no rival by more than epsilon. |
| Winner.DetermineWinner | internal/aggregation/activities.go:383-457 | Winner followed by ties is the lexicographically sorted, duplicate-free tie set of the scores' table; both are empty when that set is. |
| Winner.VerdictMeaning | internal/aggregation/activities.go:383-457 | There is a winner exactly when some score names a known answer; it has a smaller ID than every tied answer, and winner and ties are exactly the answers within epsilon of every rival. |
| Winner.VerdictUnique | internal/aggregation/activities.go:443-457 | A table allows one verdict only, so map iteration order cannot show. |
| Winner.OrderIndependence | internal/aggregation/activities.go:383-457 | Winner and ties depend only on the multiset of (answer, value) pairs and the set of answer IDs. |
| Winner.WinnerMonotone | internal/aggregation/activities.go:405-457 | Under every policy, raising one score of the winner keeps it the winner and adds no ties. |
| Winner.LoweringARival | internal/aggregation/activities.go:434-457 | On tables, when a rival of the winner drops: the winner stays if and only if no answer with a smaller ID, the rival aside, comes within epsilon of what is then the greatest aggregate. |
| Winner.LoweringNoSoleLeader | internal/aggregation/activities.go:434-457 | On tables, the winner stays whenever an answer other than the dropping rival has the greatest aggregate. |
| Winner.WinnerUnderLowering | internal/aggregation/activities.go:405-457 | The same condition, if and only if, for lowering one score of an answer other than the winner, under every policy. |
| Winner.WinnerSurvivesLowering | internal/aggregation/activities.go:405-457 | Under every policy the winner survives the lowering of any score whose answer does not alone have the greatest aggregate. |
| Winner.LoweringARivalMayDethrone | internal/aggregation/activities.go:435-457 | The condition can fail: scores a < b < c spread over one and a half epsilon, where lowering c moves the victory from b to a. |
| Winner.AggregateScores | internal/aggregation/activities.go:129-243 | Only valid scores count, except for the cost. A report is given only with valid input and output, sound reasoning, enough valid scores and a known method if there is something to combine, and is then the one report the scores allow; an error means that one of these failed. |
| Winner.OutputUnique | internal/aggregation/activities.go:129-243 | The scores allow one report only: aggregate, winner, ties, counts and cost. |
| CircuitBreaker.AdaptiveThresholds.constructor | internal/llm/circuitbreaker/adaptive.go:39-54 | A new window is empty, and a base outside int32 starts at the largest int32. |
| CircuitBreaker.AdaptiveThresholds.RecordRequest | internal/llm/circuitbreaker/adaptive.go:57-80 | Counts one outcome, first opening a new window if the old one is over a minute old, and then adjusts. |
| CircuitBreaker.AdaptiveThresholds.Adjust | internal/llm/circuitbreaker/adaptive.go:83-124 | From ten outcomes on the threshold becomes the one the error rate calls for; before that it stays. |
| CircuitBreaker.CircuitBreaker.constructor | internal/llm/circuitbreaker/circuit_breaker.go:114-130 | A new breaker is closed with all counters at zero. |
| CircuitBreaker.CircuitBreaker.GetJitter | internal/llm/circuitbreaker/circuit_breaker.go:100-111 | The jitter lies below a tenth of the timeout, and is zero when that tenth is. |
| CircuitBreaker.CircuitBreaker.HandleHalfOpenProbe | internal/llm/circuitbreaker/circuit_breaker.go:135-173 | Claims a slot if one is free and refuses otherwise, changing nothing else. |
| CircuitBreaker.CircuitBreaker.Allow | internal/llm/circuitbreaker/circuit_breaker.go:181-224 | Decision and new state of one call, for every state, time and jitter. |
| CircuitBreaker.CircuitBreaker.Cleanup | internal/llm/circuitbreaker/circuit_breaker.go:152-163 | Gives one slot back, saturating at zero. |
| CircuitBreaker.CircuitBreaker.RecordSuccess | internal/llm/circuitbreaker/circuit_breaker.go:229-266 | Effect of a success in every state on counters, state and window. |
| CircuitBreaker.CircuitBreaker.RecordFailure | internal/llm/circuitbreaker/circuit_breaker.go:273-322 | Effect of a failure in every state; the threshold in force is the one after the failure was counted. |
| CircuitBreaker.CircuitBreaker.TransitionTo | internal/llm/circuitbreaker/circuit_breaker.go:325-350 | A real transition resets the counters of its target state; a transition to the current state changes nothing. |
| BreakerHistory.BreakerFollowsHistory | internal/llm/circuitbreaker/circuit_breaker.go:229-350 | After every trace the state is the one a counter-free machine reads off the trace, `failures` is the number of failures since the last success or entry to Closed, `successes` those since entering HalfOpen, each zero in other states; trips and closings happen exactly when these counts reach their thresholds. |
| BreakerHistory.DecisionsFollowHistory | internal/llm/circuitbreaker/circuit_breaker.go:135-224 | After every trace each decision is the one the trace prescribes: closed lets pass, open refuses until timeout and jitter are over, otherwise exactly the free slots count, which are the limit less the probes admitted since entering HalfOpen that no cleanup gave back. |
| BreakerHistory.OpenAdmitsNobody | internal/llm/circuitbreaker/circuit_breaker.go:181-215 | In every trace without reset, an open breaker refuses every request until strictly more than the timeout after the latest recorded failure. |
| BreakerHistory.ReadmissionTimes | internal/llm/circuitbreaker/circuit_breaker.go:100-111 | For every jitter draw: refused exactly up to the timeout; admitted as a probe exactly when slots are configured and the timeout plus the largest jitter has passed. |
| BreakerHistory.JitterReaches | internal/llm/circuitbreaker/circuit_breaker.go:100-111 | The jitters that some draw yields are zero and exactly the nanoseconds below a tenth of the timeout. |
| BreakerHistory.TenPercentSuffices | internal/llm/circuitbreaker/circuit_breaker.go:193-215 | On a clock that does not run back, from eleven tenths of the timeout after the latest failure on every open breaker admits a probe at every draw, if and only if the timeout is not zero and there are slots. |
| BreakerHistory.ZeroTimeoutStillRefuses | internal/llm/circuitbreaker/circuit_breaker.go:193-199 | The reachable case that a zero timeout leaves: in the instant of the failure a request is still refused. |
| BreakerHistory.AdaptiveInvariant | internal/llm/circuitbreaker/adaptive.go:57-124 | In every reachable state failures are at most requests, the threshold lies between one and its base, and a closed breaker has fewer failures than the threshold now in force. |
| BreakerHistory.AdaptiveFollowsHistory | internal/llm/circuitbreaker/adaptive.go:57-124 | The window's counters are exactly the outcomes since it opened, and from the tenth on the threshold is the one their error rate calls for. |
| BreakerHistory.TargetBands | internal/llm/circuitbreaker/adaptive.go:89-123 | In whole numbers: above an error rate of one half the base is halved, above three tenths it loses a quarter, both rounded down but to one at least; otherwise it stays. |
| BreakerHistory.TargetAntitone | internal/llm/circuitbreaker/adaptive.go:89-123 | A higher error rate never calls for a higher threshold. |
| BreakerHistory.CountersInRange | internal/llm/circuitbreaker/circuit_breaker.go:135-350 | In every trace all counters stay between zero and their configured limits. |
| ProbeSlots.ActBalances | internal/llm/circuitbreaker/circuit_breaker.go:135-350 | Each single atomic operation either resets the slot counter or changes it in step with the slots held. |
| ProbeSlots.SlotCounterBounds | internal/llm/circuitbreaker/circuit_breaker.go:135-173 | Under every interleaving the slot counter is between zero and its limit, never above the probes in flight, and zero when there are none. |
| ProbeSlots.SlotConservation | internal/llm/circuitbreaker/circuit_breaker.go:135-350 | Probes admitted since the last reset exceed the counter by exactly the stale cleanups less the cleanups that found it at zero; so they exceed the limit exactly when stale cleanups outrun those and the free slots. |
| ProbeOvershoot.LimitHoldsExactly | internal/llm/circuitbreaker/circuit_breaker.go:135-350 | In every run of n threads the probes admitted since the last counter reset stay within the limit, if and only if n does not exceed the limit; this holds with any moving threshold and also with the configured one fixed. |
| ProbeOvershoot.OneTooMany | internal/llm/circuitbreaker/circuit_breaker.go:135-173 | For every configuration and every number of threads above the limit: a schedule that ends with one current probe more than slots, through a single stale cleanup. |
| ProbeOvershoot.TwoProbesOnOneSlot | internal/llm/circuitbreaker/circuit_breaker.go:135-173 | The smallest instance: two threads bring two probes onto a single slot. |
| ProbeSlots.UndisturbedAllow | internal/llm/circuitbreaker/circuit_breaker.go:181-224 | Run without interruption, the atomic steps of allow amount to the call-level decision and state, and a slot is held exactly by an admitted probe. |
| ProbeSlots.UndisturbedSuccess | internal/llm/circuitbreaker/circuit_breaker.go:229-266 | The same for recording a success. |
| ProbeSlots.UndisturbedFailure | internal/llm/circuitbreaker/circuit_breaker.go:273-322 | The same for recording a failure with the configured threshold. |
| ProbeSlots.UndisturbedCleanup | internal/llm/circuitbreaker/circuit_breaker.go:152-163 | The same for a probe's cleanup. |
| ProbeSlots.UndisturbedReset | internal/llm/circuitbreaker/middleware.go:210-218 | The same for a manual reset. |
| ProbeSlots.LostClaim | internal/llm/circuitbreaker/circuit_breaker.go:136-172 | A claim that loses its compare-and-swap decides as a fresh call on the present state would. |
| ProbeSlots.LostRelease | internal/llm/circuitbreaker/circuit_breaker.go:152-163 | A cleanup that loses its compare-and-swap gives back exactly one slot of the present counter. |
| ProbeSlots.LostClose | internal/llm/circuitbreaker/circuit_breaker.go:242-263 | A success that reached its threshold but finds the breaker no longer half-open takes its count back and is recorded in the present state. |
| ProbeSlots.LostTrip | internal/llm/circuitbreaker/circuit_breaker.go:280-320 | A failure that reached its threshold but finds the breaker no longer closed is recorded in the present state. |
| ProbeSlots.LostReopen | internal/llm/circuitbreaker/circuit_breaker.go:280-320 | The same for a failure that finds the breaker no longer half-open. |
| ProbeSlots.OutcomeIsRecorded | internal/llm/circuitbreaker/middleware.go:86-117 | Every handled request is recorded as success or failure, except a probe that the distributed guard stops. |
| ShardedBreakers.GetShard | internal/llm/circuitbreaker/sharded.go:39-45 | The hash loop with 32-bit wrap-around picks one of the sixteen shards, the same for the same key. |
| ShardedBreakers.HashIsNumber | internal/llm/circuitbreaker/sharded.go:39-45 | Wrapping at every step is wrapping once: the hash is the key read as a number in base 31, modulo 2 to the 32. |
| ShardedBreakers.ShardIsNumber | internal/llm/circuitbreaker/sharded.go:39-45 | So the shard is that number modulo sixteen. |
| ShardedBreakers.BreakerTable.Get | internal/llm/circuitbreaker/sharded.go:48-54 | Returns the breaker stored under the key, if any. |
| ShardedBreakers.BreakerTable.GetOrCreate | internal/llm/circuitbreaker/sharded.go:59-94 | Undisturbed: returns the stored breaker, or stores a new one unless that would exceed a positive cap, and then leaves the table and its total alone. |
| ShardedBreakers.CalledInSteps | internal/llm/circuitbreaker/sharded.go:59-94 | The undisturbed call is a run of the interleaved steps. |
| ShardedBreakers.CapHolds | internal/llm/circuitbreaker/sharded.go:59-94 | Under every interleaving the stored breakers respect a positive cap, and the total is the stored ones plus the callers between increment and insertion or rollback. |
| ShardedBreakers.OneBreakerPerKey | internal/llm/circuitbreaker/sharded.go:59-94 | No key is ever given two breakers, and every breaker ever made is found under its key. |
| ShardedBreakers.LookupIsStable | internal/llm/circuitbreaker/sharded.go:48-94 | The breaker a lookup finds is the one every later lookup of that key finds. |
| ShardedBreakers.HandsOutTheStored | internal/llm/circuitbreaker/sharded.go:59-94 | Under every interleaving a breaker handed out is the one stored under the key asked for. |
| ShardedBreakers.NoCapNoRefusal | internal/llm/circuitbreaker/sharded.go:77-89 | Without a positive cap nobody is ever refused. |
| ShardedBreakers.RefusalCondition | internal/llm/circuitbreaker/sharded.go:77-86 | In every reachable state a caller about to increment will be refused if and only if the stored breakers and the callers about to insert make up the cap exactly; then at least the cap less 15 are stored. |
| ShardedBreakers.RefusalIsExact | internal/llm/circuitbreaker/sharded.go:77-86 | While some caller stands refused, stored breakers plus callers about to insert equal the cap; the table is really full if and only if nobody is about to insert. |
| ShardedBreakers.RefusalIsFinal | internal/llm/circuitbreaker/sharded.go:59-94 | After one refusal that equality holds for ever, so the table is full whenever nobody is about to insert. |
| ShardedBreakers.RefusalBeforeFull | internal/llm/circuitbreaker/sharded.go:74-84 | For any two keys of different shards: a run in which, with a cap of one, a caller is refused while nothing is stored. |
| FixedWindow.CounterStore.RunScript | internal/llm/ratelimit/global_limiter.go:50-78 | One atomic run of the script on its key: opens a window, counts within it (restoring a missing expiry), or denies with the remaining time; other keys are untouched. |
| FixedWindow.CounterStore.CheckGlobalLimit | internal/llm/ratelimit/global_limiter.go:80-142 | A negative limit is an error and a zero limit passes without touching the store; otherwise the script decides. |
| FixedWindow.GlobalKeyInjective | internal/llm/ratelimit/global_limiter.go:80 | Different keys have different counters. |
| FixedWindow.WindowCounts | internal/llm/ratelimit/global_limiter.go:50-78 | In every run the counter expires within a window's length and holds exactly the admissions since its window opened, never more than the limit. |
| FixedWindow.AllowIsExact | internal/llm/ratelimit/global_limiter.go:57-72 | The remaining capacity in an admitting reply is the limit less the admissions of the window, this one included. |
| FixedWindow.DenyIsExact | internal/llm/ratelimit/global_limiter.go:73-77 | The time-to-live in a denying reply is when the window ends, positive and at most a second, so RetryAfter is one second. |
| FixedWindow.ImmortalCounter | internal/llm/ratelimit/global_limiter.go:63-77 | A counter without expiry gets one at its next admission; at the limit there is none, and the key is denied for ever. |
| FixedWindow.DenialMeansFull | internal/llm/ratelimit/global_limiter.go:63-77 | A call is denied exactly when the live window already holds limit admissions. |
| FixedWindow.RetryAfterCovers | internal/llm/ratelimit/global_limiter.go:119-133 | The advertised seconds cover a positive time-to-live if and only if that is at most one second, or whole seconds up to an hour; no shorter wait of at least a second does. |
| FixedWindow.RetryAfterOutlastsWindow | internal/llm/ratelimit/global_limiter.go:119-140 | After waiting the returned RetryAfter the denying window is gone, and a call that finds no newer one is admitted. |
| FixedWindow.RetryDeniedMeansOvertaken | internal/llm/ratelimit/global_limiter.go:119-140 | Whatever calls come in between: a window live after the advertised wait opened after the denial, and the retry is denied only if at least limit other calls were admitted since. |
| FixedWindow.IntervalBound | internal/llm/ratelimit/global_limiter.go:50-78 | Any half-open interval of length L holds at most limit*ceil(L/W) admissions of all instances together, plus limit - 1 unless W divides L - 1; this is below (ceil(L/W)+1)*limit. |
| FixedWindow.BoundIsAttained | internal/llm/ratelimit/global_limiter.go:50-78 | That maximum is exact: for every limit and every length some run fills some interval of the length with as many admissions. |
| FixedWindow.ShortIntervals | internal/llm/ratelimit/global_limiter.go:50-78 | The exact maximum is limit for one millisecond, 2*limit - 1 from two milliseconds to a second, and 2*limit for 1001 milliseconds. |
| LocalLimiter.LimiterTable.GetOrCreateLimiter | internal/llm/ratelimit/middleware.go:252-282 | An existing limiter is only touched; a new one starts full and never denied; other keys are unchanged. |
| LocalLimiter.LimiterTable.CheckLocalLimit | internal/llm/ratelimit/local_limiter.go:32-62 | One request takes a token or marks its limiter as denied; other keys are unchanged. EntryRemembers says what the mark means. |
| LocalLimiter.LimiterTable.CleanupStale | internal/llm/ratelimit/middleware.go:319-343 | In whatever order it visits them, cleanup leaves fresh limiters alone, drops stale ones with a token that were never denied, and replaces the other stale ones by empty buckets. |
| LocalLimiter.RefillTime | internal/llm/ratelimit/middleware.go:116-123 | The cleanup age is at least the time an empty bucket needs to fill, in spite of its truncation to seconds. |
| LocalLimiter.MinTTLExact | internal/llm/ratelimit/middleware.go:113-123 | The cleanup age is an hour, or ten times the refill time in whole seconds if that is more. |
| LocalLimiter.StaleBucketIsFull | internal/llm/ratelimit/middleware.go:319-343 | A bucket left alone for the cleanup age is full, whatever it held. |
| LocalLimiter.RunsRelated | internal/llm/ratelimit/middleware.go:252-343 | In every run the cleaned entry is the never-cleaned one, or missing while that one is full, or locked out. |
| LocalLimiter.SweepsNeverLoosen | internal/llm/ratelimit/middleware.go:319-343 | With cleanups interleaved anywhere, a key is granted exactly when it is not locked out and would be granted without any cleanup. |
| LocalLimiter.EntryRemembers | internal/llm/ratelimit/local_limiter.go:35-41 | In every run an entry that is not locked out holds the time of the latest request, and is marked exactly if some request since it came to exist was refused. |
| LocalLimiter.SweepFollowsHistory | internal/llm/ratelimit/middleware.go:319-343 | By the history alone: a cleanup touches a key exactly if its latest request is older than the cutoff, and then locks it out exactly if some request since it had no entry was refused or the burst is zero, and otherwise drops it. |
| LocalLimiter.LockoutIsPermanent | internal/llm/ratelimit/middleware.go:319-343 | A locked-out key stays so in every continuation. |
| LocalLimiter.LockoutCondition | internal/llm/ratelimit/middleware.go:325-341 | A cleanup locks a key out exactly when its limiter is stale and marked as denied, or the burst is zero. |
| LocalLimiter.RateBound | internal/llm/ratelimit/local_limiter.go:32-62 | In every run, with or without cleanups, a stretch of length L grants a key at most burst + rate*L requests. |
| LocalLimiter.RetryAfterSuffices | internal/llm/ratelimit/local_limiter.go:44-59 | After the advertised whole seconds the bucket holds a token again, if it can hold one at all. |
| LocalLimiter.RetryAfterIsLeast | internal/llm/ratelimit/local_limiter.go:44-59 | No smaller whole number of seconds, of at least one, would do. |
| LimiterPhases.NeverFailsOpen | internal/llm/ratelimit/middleware.go:180-207 | No interleaving of requests lets one through without any grant, if and only if local limiting is on or a nonzero global limit is. |
| LimiterPhases.HandledMeansGranted | internal/llm/ratelimit/middleware.go:180-207 | Under such a configuration every handled request holds a grant, and the local one when local limiting is on. |
| LimiterPhases.AnswersDecide | internal/llm/ratelimit/middleware.go:180-207 | In every schedule a request's grants are exactly the tokens that limiters gave it, in order, and it is refused if and only if some limiter refused it; so nothing is handled on a refusal. |
| LimiterPhases.DegradedIsLatched | internal/llm/ratelimit/middleware.go:222-243 | Once raised, the degraded flag stays raised in every schedule. |
| LimiterPhases.RedisFailureChargesTwice | internal/llm/ratelimit/middleware.go:222-243 | A handled request was charged exactly two fallback tokens and nothing else if and only if local limiting is off and Redis had failed it. |
| LimiterPhases.RateLimitMiddleware.HandleGlobalLimit | internal/llm/ratelimit/middleware.go:222-243 | Flag, verdict and grants of the global check in terms of the script's result and the fallback's answer. |
| LimiterPhases.RateLimitMiddleware.Handle | internal/llm/ratelimit/middleware.go:178-207 | A request is allowed if and only if the local bucket, the global check and the last fallback, as far as each is asked, let it pass; each grant was given by the limiter it names; the flag is never lowered; and all this is as the interleaved phases end it. |
| LimiterPhases.EndIsUnique | internal/llm/ratelimit/middleware.go:178-207 | The phases end a request in one way only, so that the contract of Handle fixes verdict, flag and grants. |
| Backoff.Interval | internal/llm/retry/backoff.go:20-35 | Under a validated configuration the capped recurrence stays between the initial and the largest interval for every attempt. |
| Backoff.ScaledExact | internal/llm/retry/backoff.go:30 | Scaling is the exact product with its fraction cut off, for either sign. |
| Backoff.IntervalGrows | internal/llm/retry/backoff.go:25-35 | Each interval is the multiple of the one before, up to less than a nanosecond, or the cap if the multiple reaches that. |
| Backoff.IntervalBelowExponential | internal/llm/retry/backoff.go:25-35 | No interval exceeds initial * multiplier^(attempt - 1). |
| Backoff.IntervalIsExponential | internal/llm/retry/backoff.go:25-35 | For a whole multiplier the interval is min(cap, initial * multiplier^(attempt - 1)). |
| Backoff.IntervalMonotone | internal/llm/retry/backoff.go:20-35 | The intervals never decrease. |
| Backoff.CapAbsorbs | internal/llm/retry/backoff.go:31-34 | Once an interval is at the cap all later ones are, which is what lets the loops stop early. |
| Backoff.RetryableExactly | internal/llm/retry/middleware.go:237-281 | Which errors are retried, with the precedence of error kinds as one condition. |
| Backoff.FullJitter | internal/llm/retry/backoff.go:37-44 | Jitter yields whole milliseconds between zero and the interval. |
| Backoff.JitterReachesAll | internal/llm/retry/backoff.go:37-44 | Every whole number of milliseconds up to the interval is drawn by some draw. |
| Backoff.CalculateBackoff | internal/llm/retry/backoff.go:17-55 | The early-exit loop computes the interval that IntervalGrows and IntervalIsExponential describe, jittered; a positive retry-after of the error takes precedence. |
| Backoff.CalculatePureExponentialBackoff | internal/llm/retry/backoff.go:59-79 | The early-exit loop computes the same recurrence, ignoring retry-after. |
| Backoff.ExponentialBackoff | internal/llm/retry/backoff.go:165-185 | For any configuration: the cap, unjittered, exactly if some product went beyond it, otherwise the jittered product, or a panic if that is negative by a millisecond or more; no delay for attempts below one. Under a validated configuration this is the recurrence of the loops above. |
| Backoff.ProductIsInterval | internal/llm/retry/backoff.go:165-185 | Under a validated configuration the uncapped product is the interval until it goes beyond the cap, where the interval is the cap; and it does so exactly when some scaled interval does. |
| Pricing.AttemptLoss | internal/llm/business/pricing.go:100-106 | The cents recorded for one attempt never exceed its exact cost and miss less than 1001 milli-cents of it. |
| Pricing.RunLoss | internal/llm/retry/budget.go:79-84 | Over n attempts, 0 <= exact - recorded <= 1000.998 * n milli-cents. |
| Pricing.LossIsAttained | internal/llm/retry/budget.go:79-84 | For every n some run loses exactly that much, recording nothing at all. |
| Retry.WaitFits | internal/llm/retry/middleware.go:341-371 | A planned wait is never negative and never ends past the time limit; none is planned only if even the unguided interval would. |
| Retry.WaitInNumbers | internal/llm/retry/middleware.go:341-371 | A delay the error asks for is kept if there is no time limit or it ends within it; any other wait is an unguided one; there is none only if even the interval would pass the limit. |
| Retry.RetryMiddleware.ValidateBackoffWithTimeout | internal/llm/retry/middleware.go:341-371 | Any proposed backoff that fits is kept, one that does not is replaced by the unguided delay if the error carried a retry-after and that delay fits, and otherwise the loop is told to stop. |
| Retry.RetryMiddleware.UpdateBudgetFromResponse | internal/llm/retry/budget.go:71-85 | Adds positive tokens and whole cents to the budget and, equally, to the statistics. |
| Retry.RetryMiddleware.Try | internal/llm/retry/middleware.go:146-217 | One attempt: the loop goes on only after a retryable error, uncancelled, with attempts and time left, and otherwise the run ends as this attempt says. |
| Retry.RetryMiddleware.Handle | internal/llm/retry/middleware.go:92-231 | For every handler: at most MaxAttempts calls (one for a probe), each started within time and budget on the exact sums of the earlier ones and only after a retryable error and the planned wait; result and time of the end are those that `Ends` allows, and a run that would go on in time but over budget ends as over budget; statistics match the run. |
| Retry.OutcomeUnique | internal/llm/retry/middleware.go:119-229 | Handler, limits and configuration allow one outcome only: attempts, their starting times and sums, result and time of the end. So the contract of Handle determines what it returns. |
| Retry.RunDuration | internal/llm/retry/middleware.go:119-126 | A run lasts at most MaxElapsedTime plus its last handler call and a late timer. |
| Retry.GivingUpEarly | internal/llm/retry/middleware.go:119-217 | Attempts are left over after a retryable error only because of the time limit. |
| Retry.LastResponseMeaning | internal/llm/retry/middleware.go:155-158 | The response that accompanies an error is that of the last attempt that had one. |
| Retry.OvershootIsOneAttempt | internal/llm/retry/budget.go:48-85 | Recorded cost and tokens exceed their limits by at most the last attempt. |
| Retry.SpendingIsRecorded | internal/llm/retry/budget.go:71-85 | For any handler whose responses are priced, the recorded cents fall short of the exact cost by at most 1000.998 milli-cents for each attempt that returned a response. |
| Retry.AttemptsDoNotOverlap | internal/llm/retry/middleware.go:119-217 | An attempt starts only after the one before it returned, with a retryable error. |
| Retry.ExactSpendingIsBounded | internal/llm/retry/budget.go:48-85 | All attempts but the last cost together, exactly and not as recorded, at most the cent limit plus 1000.998 milli-cents for each of them that returned a response; the others may return none. |
| Retry.BudgetStopsExactly | internal/llm/retry/budget.go:48-68 | Some budget stops some run of a handler that would go on, if and only if its first attempts, for some number of them, fail retryably and uncancelled while their responses record more than one cent or more than one token. |
| Retry.EmptyFailuresEscapeBudget | internal/llm/transport/handler.go:80-134 | In particular, when failures come without a response, as here, every attempt starts with nothing recorded and no budget stops any run. |
| CacheEntry.ResponseToEntry | internal/llm/cache/response_transform.go:73-98 | The entry keeps body, usage, cost and the first value of each nonempty essential header. |
| CacheEntry.EntryToResponse | internal/llm/cache/response_transform.go:103-119 | The response rebuilt from an entry, whatever order its headers are visited in. |
| CacheEntry.EntryKeeps | internal/llm/cache/response_transform.go:73-98 | An entry names provider and model, and keeps the first value of exactly three headers. |
| CacheEntry.RoundTrip | internal/llm/cache/response_transform.go:73-119 | Body, usage and cost always survive caching; the whole response does if and only if its content parses from the body, it finished with "stop", it has single-valued essential headers only, and its request IDs are its X-Request-ID header. |
| CacheEntry.CachingIsIdempotent | internal/llm/cache/response_transform.go:73-119 | Caching a response that came out of the cache stores the same entry again. |
| CacheEntry.FinishReasonIsLost | internal/llm/cache/provider_parsers.go:108-111 | A response cut off at its length limit comes back as one that stopped. |
| CacheLease.ScriptOutcome | internal/llm/cache/redis_operations.go:22-71 | The script hits exactly on a present, fresh value and then changes nothing; otherwise it leaves no value and a live lease, acquired exactly when none was live. |
| CacheLease.LeaseLasts | internal/llm/cache/redis_operations.go:67-70 | A lease taken is live for exactly thirty seconds. |
| CacheLease.LeasesAreGivenBack | internal/llm/cache/middleware.go:140-151 | A process removes a lease only as its own, and then does so unless the store fails. |
| CacheLease.HitsComeFromHandlers | internal/llm/cache/middleware.go:101-168 | In every run of any number of processes over any store, each hit is a value the store held from the start, unchanged, or the stored form of a response that an earlier successful handler call gave for that key; over an empty store always the latter. |
| CacheLease.HitsAreFresh | internal/llm/cache/redis_operations.go:50-60 | With age checking on, a checked hit's stamp is between zero and maxAge old; and if the writers' clocks are within some skew of the store's, a value written in the run was really written at most maxAge plus that skew before it is served. |
| CacheLease.LateHitsAreNewer | internal/llm/cache/middleware.go:118-128 | What the unchecked re-read after the wait returns was written after that process's check had missed, in steps and in the store's time. |
| CacheLease.LateHitsAreFresh | internal/llm/cache/middleware.go:118-128 | If its check ran, a late hit is at most as old as the time from check to re-read; so is its stamp, up to the skew of the clocks. |
| CacheLease.UncheckedHitsHaveAnyAge | internal/llm/cache/middleware.go:118-128 | That the check ran is needed: for every age and every maxAge a run with agreeing clocks serves a value of that age to a process whose check failed. |
| CacheLease.CacheMiddleware.RunScript | internal/llm/cache/redis_operations.go:22-71 | The script's effect on one key and its lease; other keys are untouched, and a hit changes nothing. |
| CacheLease.CacheMiddleware.Check | internal/llm/cache/redis_operations.go:87-151 | What the process learns from the script, or from its failure: lease, failed check, cached response; a reply cut at its nil has the script's effect but reads as a failed check. |
| CacheLease.CacheMiddleware.Get | internal/llm/cache/response_transform.go:18-39 | Returns a present, decodable value, deletes an undecodable one unless the deletion fails, and changes nothing else. |
| CacheLease.CacheMiddleware.Set | internal/llm/cache/response_transform.go:46-67 | Replaces the value under the key by the stamped entry with its lifetime, and nothing else. |
| CacheLease.CacheMiddleware.Handle | internal/llm/cache/middleware.go:87-171 | Reply, store, leases and hit, miss and error counts of a request, for fresh, stale, undecodable and missing values, free and taken leases, a failure of any of its store commands, a reply cut at its nil, a context that ends during the wait, and anything another process writes by then; a lease is given back exactly if the request took it, knows so, and the release succeeds. |
| CacheLease.StoredIsServed | internal/llm/cache/redis_operations.go:22-71 | A stored response is hit exactly until its lifetime ends, if its stamp is acceptable or age checking is off, and what is hit is that response. |
| CacheLease.AnswerThenServe | internal/llm/cache/middleware.go:87-171 | A response that the handler gave and the cache stored is served to a later request for the key, exactly while it is alive and its stamp acceptable; afterwards the handler answers again. |
| CacheLease.StoredAsInMachine | internal/llm/cache/response_transform.go:56-66 | The object and the interleaved machine write the same value. |
| CanonicalText.NormalizeIsJoinedWords | internal/llm/transport/idempotency.go:172-189 | Trimming and line-ending repair are absorbed: the normalised text is the words joined by single spaces. |
| CanonicalText.TrimExact | internal/llm/transport/idempotency.go:172-175 | Trimming takes only spaces off the ends and leaves none there. |
| CanonicalText.CrLfBecomesLf | internal/llm/transport/idempotency.go:176-177 | Every CRLF becomes a line feed. |
| CanonicalText.WithoutCrLfStays | internal/llm/transport/idempotency.go:176-177 | A text without CRLF stays as it is. |
| CanonicalText.FieldsAreWords | internal/llm/transport/idempotency.go:186-189 | What words are: none of an empty text, a text without spaces itself, and around any space those of both sides. |
| CanonicalText.SplitOfJoin | internal/llm/transport/idempotency.go:186-189 | Splitting words that were joined by spaces gives the words back. |
| CanonicalText.NormalizeMergesExactly | internal/llm/transport/idempotency.go:172-189 | Two texts normalise alike if and only if they have the same word sequence. |
| CanonicalText.NormalizeIdempotent | internal/llm/transport/idempotency.go:172-183 | Normalising twice is normalising once. |
| CanonicalText.NormalizedIsOneLine | internal/llm/transport/idempotency.go:172-183 | A normalised text holds no newline, so the answers line cannot be forged by a question. |
| CanonicalText.JoinCommasInjective | internal/llm/transport/idempotency.go:102-107 | A nonempty list of comma-free IDs can be read back from its joined text. |
| CanonicalText.ScoringTextMergesExactly | internal/llm/transport/idempotency.go:97-113 | For comma-free IDs two scoring texts are equal if and only if the questions have the same words and the answers the same multiset of IDs. |
| CanonicalText.CommasCollideExactly | internal/llm/transport/idempotency.go:97-113 | A single answer ID shares its scoring text with another multiset of IDs if and only if it can be cut at some comma so that the first part is not greater than the rest. |
| CanonicalText.CollisionsExactly | internal/llm/transport/idempotency.go:97-113 | A list of IDs of any form shares its scoring text with another multiset of IDs if and only if it has two or more IDs, or a single one that can be cut like that. |
| CanonicalText.CommasCollide | internal/llm/transport/idempotency.go:102-107 | An instance that collides: the ID "a,b" has the text of the two IDs "a" and "b". |
| CanonicalText.CommaAlone | internal/llm/transport/idempotency.go:102-107 | An instance that does not: no other IDs have the text of "b,a". |
| CanonicalPayload.BuildMessages | internal/llm/transport/idempotency.go:84-115 | The messages that MessagesMergeExactly characterises. |
| CanonicalPayload.BuildCanonicalPayload | internal/llm/transport/idempotency.go:69-137 | The payload that PayloadMergesExactly characterises. |
| CanonicalPayload.MessagesMergeExactly | internal/llm/transport/idempotency.go:89-115 | Requests of one operation share their messages if and only if the queries have the same words and answer IDs, and for generation are both empty or both not. |
| CanonicalPayload.PayloadMergesExactly | internal/llm/transport/idempotency.go:69-137 | Requests with comma-free IDs share a payload if and only if they agree on tenant, operation, provider and model up to outer space and whatever lower-casing merges of the provider, words of prompt and query, answer IDs, effective limits, temperature and seed. |
| CanonicalPayload.PayloadIsCanonical | internal/llm/transport/idempotency.go:69-137 | Rebuilding the payload from the canonical request gives it again, if and only if the request is not for a generation with a question of blanks; provided that the lower-casing of the provider is stable. |

## Left out

- HTTP adapters, provider parsers, Temporal activities and workflow, events, logging, metrics and statistics snapshots: I/O and wrappers. The parser that reads content from a raw body is a parameter.
- SHA-256, JSON encoding and the key built from the payload: the model stops at the canonical payload.
- IEEE rounding, infinities and NaN: scores, rates, multipliers and error rates are exact reals.
- 32- and 64-bit wrap-around of counters, durations and costs. `BreakerHistory.CountersInRange` shows that the breaker's counters stay within configured limits; the shard hash does wrap.
- Legal-transition and history claims under fine interleaving: `transitionTo` swaps unconditionally, so a stale thread can move a closed breaker to half-open. Those claims are made at call granularity.
- ProbeSlots.SlotConservation: speaks of the probes admitted since the last counter reset; across resets more can be in flight. The adaptive window's own atomics are replaced by an arbitrary threshold at each failure.
- Mutual exclusion by leases: a lease expires after 30 seconds, its deletion carries no owner, and waiters may execute anyway.
- CacheLease.HitsAreFresh: real ages are bounded for values written in the run; a value the store held from the start is only as fresh as its stamp says.
- CacheLease.CacheMiddleware.Handle: other processes act on its key only during its wait; full interleaving is in the machine beside it. Replies of the script are read as pairs, except that the nil of a miss may cut its reply short. A handler that returns neither response nor error counts as one that failed, and requests without idempotency key, and the mode without Redis, bypass the model.
- Redis expiry is modelled to the millisecond: a key set at t for w is present until just before t + w.
- LocalLimiter.RateBound: the token bucket is the textbook one on real time, without the nanosecond truncation of the library; a reservation that is cancelled at once is neutral.
- The reset of a bucket between a request's lookup and its `Allow`: a request and a cleanup are atomic towards each other.
- The fallback limiter's own table: its answers are arbitrary here. In internal/llm/ratelimit/fallback_limiter.go:56-81 the loser of a creation race unlocks the mutex twice when a token is granted; that crash is not modelled.
- Retry.RetryMiddleware.Handle: whether the context marks a half-open probe is an input. In the code the lookup at internal/llm/retry/middleware.go:115 uses a string key while the breaker stores a typed one (internal/llm/circuitbreaker/circuit_breaker.go:34), so it never finds the mark.
- Retry.RunDuration: timers may fire late, by an amount the environment chooses; the part of a wait before a cancellation is not timed.
- The inspection of error chains and the parsing of retry-after values: an error is a record of what the inspection finds.
- The lower-casing of provider names: it is an arbitrary function here, so which names it merges is not said.
- Winner.AggregateScores: the tag-based validations of input and output are parameters, and per-dimension averages are not modelled. The older `DetermineWinner` of internal/domain/aggregation.go is superseded and left out.
- In-place sorting: slices are values here, and the code sorts copies of its own, so nobody else sees the sorting.
- The branch for an unknown breaker state, breaker keys and their escaping, and the distributed probe guard beyond its effect on the slot.
