# apigate, modelled and proved in Dafny

Apigate is an API gateway. This project models the parts of it whose
correctness spans whole runs - many clients, many gateways, clocks, expiring
keys and events in any order - and proves what those runs keep. To check it, run
`dafny verify dfyconfig.toml` (Dafny 4.11).

**Rate limiting** (`RateLimitTypes`, `Algorithms`, `Runs`, `Buckets`,
`FixedBounds`, `SlidingLog`, `SlidingCounter`, `RetryAfter`, `Remaining`). The five algorithms are
functions from a state, a policy, a time and a cost to a new state and a
decision, and a run folds one of them over any calls. Bucket levels and the
counter's weighted estimate are kept in units of 1/windowMs, in which they are
whole numbers, so the arithmetic is exact. The clock never steps back, a key's
policy never changes, costs are positive integers.

**Stores** (`Stores`, `RedisScripts`, `KeyExpiry`, `StoreRefinement`,
`StoreRuns`). The
in-process store and the Redis store are machines over the same events. The
five Lua scripts are methods on a mutable database whose keys expire; whether a
key still answers at its very last millisecond, and the order of zset members
with equal scores, are left open, so the results hold either way. The main
result: expiry cannot be observed.

**Resilience** (`CircuitBreaking`, `Balancing`, `Retrying`, `RequestPools`,
`TrialSlots`, `DeadTargets`, `RequestHandlers`). The breaker, the round-robin
scan and the retry loop; then one machine of all targets' breakers and any
number of retry loops and upgrades in flight, whose reports find their target by
URL.

**WebSocket bridge** (`Bridging`, `BridgeProofs`, `BridgeClosing`,
`BridgeTimers`, `BridgeLimits`, `BridgeConnections`, `Capacity`). `acceptClient`
is a machine over platform events (messages, closes, errors, timers, pongs,
limiter answers); the class `Connection` is the same with fields updated in
place, proved against the machine. `Capacity` adds the
registry and the check that an `await` separates from registration.

**API keys** (`AuthCache`: modules `AuthCache`, `AuthHandlers`). Lookups of one
key by many gateways, racing with a revoke; each Redis or SQL call is one step.

**Response cache** (`Text`, `CacheKeys`, `CacheAmbiguity`, `CachePolicy`,
`CacheStores`, `CacheHits`). Keys, purge by prefix on both stores, lifetimes,
and what a HIT replays. SHA-256 is any function to 64 hex digits; results that
need it to be injective name the colliding inputs instead.

**Query tokens** (`QueryToken`). Extracting, stripping and redacting
`access_token`, for any percent-decoding function.

## What the proofs found

The code is modelled as it is; where a stronger claim fails, the exact
condition is proved.

- A half-open trial whose pick goes unreported (an oversized body at
  `packages/gateway/src/proxy/retry.ts:64`, a client abort at
  `packages/gateway/src/websocket/proxy.ts:119-126`) costs the target for good,
  exactly when no other target shares its URL and no request in flight holds a
  pick with that URL (`DeadTargets.DeadExactlyWhen`).
- A log limiter keeps its sequence under `<key>:seq`; if that is itself a
  limiter key the log limiter fails (`StoreRefinement.SeqKeyCollision`).
- `retryAfterMs` of the sliding counter, and of the log for costs above 1, can
  be too short; it is never too long (`RetryAfter.CounterRetryExactWhen`,
  `RetryAfter.LogRetryExactWhen`).
- `maxConnections` is overrun by overlapping handshakes, by exactly the overlap
  (`Capacity.ConnectionCap`, `Capacity.CapIsSharp`).
- A revoked key can come back for up to 60 s through a lookup that was
  outstanding at the revoke, and a failed cache delete is never retried
  (`AuthCache.RevokeIsFinalExactlyWhenQuiet`, `AuthCache.LostDeleteIsNotRepaired`).
- A `|` in a tenant id, host or vary value makes cache keys ambiguous, and each
  of these fields by itself does (`CacheAmbiguity.KeysSeparateExactlyWhen`).

Where code and comments disagree the model follows the code:
`packages/core/src/breaker/circuitBreaker.ts:13` says a half-open failure resets
the counter, but `recordFailure` (lines 55-59) leaves it;
`packages/core/src/ratelimit/stores/redisStore.ts:43-45` says every algorithm
lives in one Redis key, but the log uses two and `reset` deletes both;
the repository's `README.md:305-306` promises that a revoke takes effect immediately, which holds
exactly under the condition of `AuthCache.RevokeIsFinalExactlyWhenQuiet`.

## Model

| member | source | states |
|---|---|---|
| Buckets.TokenRange | packages/core/src/ratelimit/algorithms/tokenBucket.ts:19-29 | On every run with a non-decreasing clock the bucket stays between 0 and its capacity and is dated by the last call. |
| Buckets.TokenConservation | packages/core/src/ratelimit/algorithms/tokenBucket.ts:19-29 | What was admitted since t1 plus what is left in the bucket never exceeds one full bucket plus the refill since t1. |
| Buckets.TokensAreTight | packages/core/src/ratelimit/algorithms/tokenBucket.ts:19-29 | And this is tight: after every non-empty run there is an instant t1 since which admissions and what is left make exactly one full bucket plus the refill. |
| Buckets.TokenIsExact | packages/core/src/ratelimit/algorithms/tokenBucket.ts:19-36 | Over the admission history alone: a call is admitted if and only if for every t1 up to now what was admitted since t1, with it, stays within burst ?? limit plus the refill since t1. |
| Buckets.TokenEnvelope | packages/core/src/ratelimit/algorithms/tokenBucket.ts:19-36 | On every run the cost admitted in any interval [t1, t2] is at most the burst (the limit when there is none) + (t2 - t1) * limit / windowMs. |
| Buckets.MirrorStep | packages/core/src/ratelimit/algorithms/leakyBucket.ts:19-36 | One call keeps tokens + level = capacity and gives the same decision on both buckets, whatever the times. |
| Buckets.LeakyMirrorsToken | packages/core/src/ratelimit/algorithms/leakyBucket.ts:19-36 | Forever tokens + level = capacity; every call gets the same allowed, remaining and retryAfterMs from both buckets, so the admission histories are equal. |
| Buckets.LeakyEnvelope | packages/core/src/ratelimit/algorithms/leakyBucket.ts:19-36 | The leaky bucket obeys the same envelope. |
| Buckets.LeakyIsExact | packages/core/src/ratelimit/algorithms/leakyBucket.ts:19-36 | The leaky bucket admits a call exactly when it fits every such interval. |
| SlidingLog.LogKeepsTheWindow | packages/core/src/ratelimit/algorithms/slidingWindowLog.ts:18-23 | The stored entries are exactly the part of the complete admission history that lies in the trailing window. |
| SlidingLog.LogIsExact | packages/core/src/ratelimit/algorithms/slidingWindowLog.ts:18-34 | Every call is decided, in all four fields, as by a specification that sums the complete, never-pruned history. |
| SlidingLog.LogWindowBound | packages/core/src/ratelimit/algorithms/slidingWindowLog.ts:18-23 | No trailing window, ending at any instant, ever holds more than limit. |
| SlidingLog.LogShape | packages/core/src/ratelimit/algorithms/slidingWindowLog.ts:19-23 | The stored log is sorted by time, inside the window, and has at most limit entries. |
| SlidingCounter.CountsAreExact | packages/core/src/ratelimit/algorithms/slidingWindowCounter.ts:41-52 | currentCount and previousCount are exactly what the current and the previous aligned window admitted. |
| SlidingCounter.CounterIsExact | packages/core/src/ratelimit/algorithms/slidingWindowCounter.ts:20-38 | Over the admission history alone: a call is admitted if and only if it fits on top of the weighted sum of the two windows; a refusal announces the least whole number of ms in which limit / windowMs per ms makes up what lacks. |
| SlidingCounter.AlignedWindowBound | packages/core/src/ratelimit/algorithms/slidingWindowCounter.ts:20-31 | No aligned window ever admits more than limit. |
| SlidingCounter.TrailingWindowSum | packages/core/src/ratelimit/algorithms/slidingWindowCounter.ts:20-52 | The cost admitted in any trailing window ending at offset e of an aligned window is at most limit + prev * e / windowMs, prev being what the previous aligned window admitted. |
| SlidingCounter.TrailingWindowBelowTwiceLimit | packages/core/src/ratelimit/algorithms/slidingWindowCounter.ts:20-52 | Hence any trailing window admits strictly less than twice the limit. |
| FixedBounds.CountIsExact | packages/core/src/ratelimit/algorithms/fixedWindow.ts:19-23 | The count is exactly what the aligned window of the last call has admitted. |
| FixedBounds.FixedIsExact | packages/core/src/ratelimit/algorithms/fixedWindow.ts:19-33 | Every call is decided, in all four fields, by the sum over the admission history of its aligned window. |
| FixedBounds.FixedAlignedBound | packages/core/src/ratelimit/algorithms/fixedWindow.ts:19-23 | No aligned window ever admits more than limit. |
| FixedBounds.FixedTrailingBound | packages/core/src/ratelimit/algorithms/fixedWindow.ts:19-23 | No trailing window ever admits more than twice the limit. |
| FixedBounds.FixedTrailingIsSharp | packages/core/src/ratelimit/algorithms/fixedWindow.ts:9-12 | For every limit and every window longer than 1 ms some run reaches that bound. |
| RetryAfter.TokenRetryIsExact | packages/core/src/ratelimit/algorithms/tokenBucket.ts:22-34 | After a refusal and any number of further refused polls the same request is admitted at t if and only if it fits the bucket and t >= now + retryAfterMs. |
| RetryAfter.LeakyRetryIsExact | packages/core/src/ratelimit/algorithms/leakyBucket.ts:22-34 | The same for the leaky bucket. |
| RetryAfter.FixedRetryIsExact | packages/core/src/ratelimit/algorithms/fixedWindow.ts:19-31 | The same for the fixed window, for costs within the limit; a larger cost is never admitted. |
| RetryAfter.LogRetryIsLowerBound | packages/core/src/ratelimit/algorithms/slidingWindowLog.ts:18-32 | Sliding log, any cost: admitted later exactly when retryAfterMs is over and the entries then live leave room; so never too early. |
| RetryAfter.LogRetryExactWhen | packages/core/src/ratelimit/algorithms/slidingWindowLog.ts:32-32 | retryAfterMs is exact if and only if dropping the entries with the oldest live timestamp makes room; otherwise the request is refused at that very instant. |
| RetryAfter.LogRetryIsExactForCostOne | packages/core/src/ratelimit/algorithms/slidingWindowLog.ts:32-32 | For requests of cost 1 that condition always holds. |
| RetryAfter.EstimateDecay | packages/core/src/ratelimit/algorithms/slidingWindowCounter.ts:23-25 | Across any number of window rollovers the estimate falls no faster than limit / windowMs per ms. |
| RetryAfter.CallsKeepEstimate | packages/core/src/ratelimit/algorithms/slidingWindowCounter.ts:27-31 | A call never lowers the estimate at a later instant; a refused one leaves it unchanged. |
| RetryAfter.CounterRetryIsLowerBound | packages/core/src/ratelimit/algorithms/slidingWindowCounter.ts:23-36 | After a refusal no request of that cost or more is admitted before now + retryAfterMs, whatever calls happen in between. |
| RetryAfter.CounterRetryExactWhen | packages/core/src/ratelimit/algorithms/slidingWindowCounter.ts:36-36 | With only refused polls in between, retryAfterMs is exact if and only if the two counts known at the refusal fall off by what was lacking within it. |
| RetryAfter.CounterRetryIsNotExact | packages/core/src/ratelimit/algorithms/slidingWindowCounter.ts:36-36 | A concrete run whose request is still refused at now + retryAfterMs. |
| Remaining.RemainingIsExact | packages/core/src/ratelimit/stores/Store.ts:8-13 | For each of the five algorithms, after any run: a further call at the same instant is admitted if and only if it costs no more than remaining; limit is the policy's. |
| Stores.MemoryStore.ConsumeCall | packages/core/src/ratelimit/stores/memoryStore.ts:41-45 | Reads, decides and writes back one key; answer and new map are those of the keyed machine. |
| Stores.MemoryStore.ResetKey | packages/core/src/ratelimit/stores/memoryStore.ts:46-49 | Forgets that key and no other. |
| RedisScripts.RedisServer.FixedWindowScript | packages/core/src/ratelimit/lua/fixedWindow.lua:3-31 | The script, statement by statement, is the in-process fixed window on the live hash, its fields written back with a windowMs expiry. |
| RedisScripts.RedisServer.TokenBucketScript | packages/core/src/ratelimit/lua/tokenBucket.lua:3-36 | The script is the in-process token bucket on the live hash, its fields written back with an expiry of the full refill time plus 1000 ms. |
| RedisScripts.RedisServer.LeakyBucketScript | packages/core/src/ratelimit/lua/leakyBucket.lua:3-30 | The script is the in-process leaky bucket on the live hash, its fields written back with an expiry of the full drain time plus 1000 ms. |
| RedisScripts.RedisServer.SlidingWindowCounterScript | packages/core/src/ratelimit/lua/slidingWindowCounter.lua:3-42 | The script is the in-process counter on the live hash, its fields written back with a 2 * windowMs expiry. |
| RedisScripts.RedisServer.SlidingWindowLogScript | packages/core/src/ratelimit/lua/slidingWindowLog.lua:3-37 | The script prunes the zset, sums it in its loop, and on admission bumps the sequence counter and adds a member, giving both keys a windowMs expiry; wrong value types fail as Redis fails them. |
| RedisScripts.RedisServer.ConsumeCall | packages/core/src/ratelimit/stores/redisStore.ts:56-68 | Chooses the script (a value of another type fails as Redis fails it) and passes burst ?? limit as capacity; the policy itself decides. |
| RedisScripts.RedisServer.ResetKey | packages/core/src/ratelimit/stores/redisStore.ts:70-76 | Deletes the key, and for the log its sequence counter too. |
| StoreRefinement.NewMemberIsFresh | packages/core/src/ratelimit/lua/slidingWindowLog.lua:23-28 | Although the sequence counter expires, a new zset member never equals a live one. |
| StoreRefinement.ExpiredIsForgotten | packages/core/src/ratelimit/lua/tokenBucket.lua:28-29 | By the time a hash key expires its state no longer influences any decision or later state. |
| KeyExpiry.KeysExpireOnTime | packages/core/src/ratelimit/lua/slidingWindowLog.lua:22-28 | On every run a key, and a log's sequence counter, live for the time their scripts give them from the call that last wrote them: windowMs, twice that for the counter, the time to fill the bucket plus 1000 ms; until then the key answers, afterwards not. |
| StoreRefinement.HashesAreReadable | packages/core/src/ratelimit/lua/tokenBucket.lua:10-17 | On every run, whatever algorithms share a key, a hash that one of the scripts reads has the fields that go together: what the four hash scripts ask for always holds. |
| StoreRefinement.ExpiryIsUnobservable | packages/core/src/ratelimit/stores/redisStore.ts:47-82 | On every run over any keys, algorithms, policies, resets and gateways with one non-decreasing clock, the expiring Redis store gives the very reply of the in-process store that never forgets. |
| StoreRefinement.LogLosesNothing | packages/core/src/ratelimit/lua/slidingWindowLog.lua:22-30 | On every such run the zset holds each log entry exactly once. |
| StoreRefinement.SeqKeyCollision | packages/core/src/ratelimit/lua/slidingWindowLog.lua:24-25 | The proviso of the two results above is exact: if a log key with ":seq" appended is itself a limiter key, one call on that key makes the next admission on the log key fail. |
| StoreRuns.RedisDecidesPerKey | packages/core/src/ratelimit/stores/redisStore.ts:56-68 | What a gateway hears on a consume is the single-key decision over that key's own calls since its last reset, so every bound and retry promise holds for the shared store. |
| StoreRuns.KeyIsItsOwnRun | packages/core/src/ratelimit/stores/memoryStore.ts:38-49 | Interleaved calls and resets on other keys never change what a key holds. |
| CircuitBreaking.CircuitBreaker.AskToSend | packages/core/src/breaker/circuitBreaker.ts:31-44 | canRequest: answer and next state in every state and at every time. |
| CircuitBreaking.CircuitBreaker.Succeeded | packages/core/src/breaker/circuitBreaker.ts:46-50 | recordSuccess closes the breaker, forgets all failures and frees the trial. |
| CircuitBreaking.CircuitBreaker.Failed | packages/core/src/breaker/circuitBreaker.ts:52-66 | recordFailure reopens a half-open breaker at once (keeping the counter), counts otherwise, and opens or re-dates at the threshold. |
| CircuitBreaking.ClosedExactlyBelowThreshold | packages/core/src/breaker/circuitBreaker.ts:31-66 | On every run the breaker is closed exactly when consecutiveFailures < failureThreshold and half-open exactly while its trial is in flight. |
| CircuitBreaking.BreakerIsItsHistory | packages/core/src/breaker/circuitBreaker.ts:31-66 | From the events alone: a request passes if and only if fewer than failureThreshold failures were reported since the last success, or resetTimeoutMs have gone by since the last failure and no request was let through since; while closed, consecutiveFailures is that number of failures. |
| CircuitBreaking.PassesAreSpaced | packages/core/src/breaker/circuitBreaker.ts:31-66 | After it opens and until a success is recorded, admitted requests are at least resetTimeoutMs apart, even with stale failure reports. |
| CircuitBreaking.PassesAreFew | packages/core/src/breaker/circuitBreaker.ts:31-66 | So at most floor(L / resetTimeoutMs) pass in the L ms after the opening. |
| CircuitBreaking.UnreportedTrialBlocksForever | packages/core/src/breaker/circuitBreaker.ts:40-43 | Without a report a half-open breaker with its trial in flight lets nothing through again. |
| Balancing.Balancer.PickTarget | packages/gateway/src/proxy/balancer.ts:58-69 | Returns the ready target nearest after the cursor - healthy, its breaker absent, closed, open for resetTimeoutMs or half-open with a free trial -, changes no breaker but its own, and returns nothing only when no target is ready. |
| Balancing.Balancer.Report | packages/gateway/src/proxy/balancer.ts:71-77 | A report reaches the first target with that URL and no other. |
| Balancing.PickIsUnique | packages/gateway/src/proxy/balancer.ts:59-67 | The nearest available target is unique, so the choice is fully determined. |
| Balancing.PicksAlternate | packages/gateway/src/proxy/balancer.ts:58-69 | Between two picks of one target there is a pick of any other target available throughout, whatever the rest do. |
| Balancing.NoStarvation | packages/gateway/src/proxy/balancer.ts:58-69 | A target that stays available is picked before the cursor has passed over it. |
| Balancing.ChosenWithinOneRound | packages/gateway/src/proxy/balancer.ts:58-69 | A target available at n consecutive picks, n the number of targets, is chosen within them. |
| Balancing.AllInTurn | packages/gateway/src/proxy/balancer.ts:58-69 | While all targets are available they are picked in turn, in the order of the list, from the cursor on. |
| Retrying.ForwardWithRetry | packages/gateway/src/proxy/retry.ts:29-77 | The loop does exactly the picks, forwards, reports and sleeps of the trace, in order, and ends as it ends. |
| Retrying.RetryAccounting | packages/gateway/src/proxy/retry.ts:45-76 | It stops at the first attempt that is not a connection failure; it forwards once per pick and reports once per pick, except that BodyTooLargeError leaves its own pick unreported; it sleeps between attempts only. |
| Retrying.ForwardsAreBounded | packages/gateway/src/proxy/retry.ts:36-37 | At most attempts + 1 forwards, and one when the method is not idempotent or no retry is configured. |
| Retrying.OnlyFourMethodsRetry | packages/gateway/src/proxy/retry.ts:8-8 | GET, HEAD, PUT and DELETE have attempts + 1 attempts on a route that configures them; every other method has one. |
| Retrying.AllAttemptsAreUsed | packages/gateway/src/proxy/retry.ts:45-76 | While there is a target and no answer all attempts are used, and the last connection error is thrown. |
| Retrying.BackoffIsProportional | packages/gateway/src/proxy/retry.ts:79-84 | The backoff after attempt k is b * 2^(k-1) times one plus the draw. |
| Retrying.BackoffOfCall | packages/gateway/src/proxy/retry.ts:79-84 | A call that sleeps k times, k >= 1, sleeps at least b * (2^k - 1) in all and less than twice that. |
| RequestHandlers.Attempt | packages/gateway/src/proxy/retry.ts:45-73 | One pass of the loop on the shared balancer itself: pick, outcome and report change it exactly as the pool machine does. |
| RequestHandlers.ForwardOn | packages/gateway/src/proxy/retry.ts:29-77 | The whole loop on the shared balancer, run alone, is a run of the pool machine with the same end. |
| RequestHandlers.ProxyUpgrade | packages/gateway/src/websocket/proxy.ts:84-148 | An upgrade from its pick on: it reports a success, a rejection (failure from 500 on) or a failure to the picked URL, and on a client abort reports nothing. |
| RequestHandlers.CallsRunTheLoop | packages/gateway/src/proxy/retry.ts:29-77 | However many requests interleave on the pool, each finished retry loop did exactly the picks, forwards, reports and sleeps of forwardWithRetry on the attempts it saw, with the same end. |
| RequestPools.AttemptEffect | packages/gateway/src/proxy/retry.ts:51-67 | An attempt reports to its URL a success below 500, a failure from 500 on and on a connection error, and nothing for an oversized body. |
| RequestHandlers.RetryLeaksOnlyOnBodyTooLarge | packages/gateway/src/proxy/retry.ts:51-72 | A forwardWithRetry call reports each of its picks exactly once on every exit but BodyTooLargeError, which leaves its last pick unreported. |
| TrialSlots.TrialIsHeld | packages/gateway/src/proxy/balancer.ts:58-77 | On every interleaving of retry loops, upgrades and health changes, with reports routed by URL and any URLs repeated, a half-open target is held by an unreported pick of that very target. |
| TrialSlots.NoLeakNoHeldSlot | packages/gateway/src/proxy/retry.ts:51-74 | Once all requests are over, if none ended in a BodyTooLargeError or a client abort, no breaker of the pool is half-open. |
| DeadTargets.DeadExactlyWhen | packages/gateway/src/proxy/balancer.ts:58-77 | At any moment of any run, no continuation ever lets a request through to a target if and only if it is half-open, no request in flight holds a pick with its URL, and no other target shares the URL. |
| DeadTargets.TwinRevives | packages/gateway/src/proxy/balancer.ts:71-77 | While a target shares the URL the half-open one is not lost: the twin hears no report, stays closed, is reached by round robin, and its success report closes the half-open breaker. |
| DeadTargets.OneLeakKillsATarget | packages/gateway/src/proxy/retry.ts:62-64 | A BodyTooLargeError or a client abort on a half-open target that no other request talks to leaves it dead for good, exactly when no other target shares its URL. |
| DeadTargets.LeaksHappen | packages/gateway/src/websocket/proxy.ts:118-126 | Both leaks do happen, at every threshold and timeout: a lone target is driven to the dead state by one oversized body, and by one client abort. |
| BridgeConnections.Connection.HandleUpgrade | packages/gateway/src/websocket/proxy.ts:357-434 | The accepted handshake: early messages are relayed in order, then the early close, then the timers start. |
| BridgeConnections.Connection.RunFinish | packages/gateway/src/websocket/proxy.ts:281-292 | finish: a second call changes nothing; the first clears the timers, the registration and the gauge and reports the cause. |
| BridgeConnections.Connection.CloseBothSides | packages/gateway/src/websocket/proxy.ts:295-310 | closeBoth: first cause kept, both open sides closed, kill timer armed. |
| BridgeConnections.Connection.ClientCloseEvent | packages/gateway/src/websocket/proxy.ts:393-398 | The client's close: cause, relayed close or terminate by code, kill timer, side counted. |
| BridgeConnections.Connection.UpstreamCloseEvent | packages/gateway/src/websocket/proxy.ts:399-405 | The upstream's close, likewise. |
| BridgeConnections.Connection.RawSocketClosed | packages/gateway/src/websocket/proxy.ts:318-324 | The client handshake is lost: upstream terminated and both sides counted as closed. |
| BridgeConnections.Connection.ChainLinkStarts | packages/gateway/src/websocket/proxy.ts:378-381 | A limiter link is skipped once the bridge is finished or has a first cause; otherwise the limiter is charged at once. |
| BridgeConnections.Connection.ChainLinkDecides | packages/gateway/src/websocket/proxy.ts:381-387 | The limiter's answer relays the message or closes both sides with 1008. |
| BridgeConnections.Connection.HeartbeatFires | packages/gateway/src/websocket/proxy.ts:456-468 | A missing pong since the last tick kills both sides; otherwise the flags are cleared and every open side is pinged. |
| BridgeConnections.Connection.Handle | packages/gateway/src/websocket/proxy.ts:248-435 | Every callback of acceptClient does to the closure's variables what the event machine does; the lifecycle invariants hold before and after, and no cause, close, frame or finish is taken back. |
| BridgeProofs.StepOk | packages/gateway/src/websocket/proxy.ts:248-435 | Every event, in whatever order, keeps the bridge's invariants and never takes back a cause, a close or a finish. |
| BridgeProofs.BridgeLifecycle | packages/gateway/src/websocket/proxy.ts:278-324 | On every event order finish has run exactly once when both sides have closed or the handshake failed, and not before; it reported a set cause; gauge and registration agree; no timer outlives it; a begun close has the kill timer armed, or already fired, until then. |
| BridgeProofs.FirstCauseStays | packages/gateway/src/websocket/proxy.ts:305-305 | The first cause set is the one that stays and the one reported. |
| BridgeProofs.BridgeOrdering | packages/gateway/src/websocket/proxy.ts:328-342 | In each direction the relayed messages are an in-order prefix of the received ones; nothing is lost or repeated in the hand-over from the early buffer, under denial, backpressure, idle and peer close. |
| BridgeProofs.EarlyRelayInOrder | packages/gateway/src/websocket/proxy.ts:407-410 | The early buffer is handed over in order and completely while the client stays open. |
| BridgeProofs.CloseFramesAreLawful | packages/gateway/src/websocket/proxy.ts:496-508 | No side ever gets a close frame with a code outside 1000-1014 (but 1004, 1005, 1006) and 3000-4999, whatever code the other side closed with; a side that had its frame is no longer open. |
| BridgeClosing.CloseIsRelayed | packages/gateway/src/websocket/proxy.ts:393-405 | A close event takes an open other side into closing and sends it the code it came with, if that is 1000-1003, 1007-1014 or 3000-4999; for 1005 a frame without a code; for any other code no frame. |
| BridgeClosing.EarlyCloseIsRelayed | packages/gateway/src/websocket/proxy.ts:407-410 | An upstream that closed before the hand-over: the accepted client is told its code in the same way, unless the early messages found no room. |
| BridgeClosing.CodesAreRelayedOrOwn | packages/gateway/src/websocket/proxy.ts:304-310 | On every event order a code on a close frame is the one the other side closed with, or 1001, 1008 or 1013. |
| BridgeClosing.MessagesGoOutIfRoom | packages/gateway/src/websocket/proxy.ts:328-342 | A message for an open side goes out if and only if at most maxBufferedBytes wait there, otherwise both sides close with 1013; a denied one closes both with 1008; for a side that is not open it is dropped. |
| BridgeClosing.IdleAndShutdownClose | packages/gateway/src/websocket/proxy.ts:427-434 | An idle tick closes both sides with 1001 if and only if nothing went out for idleTimeoutMs; a shutdown does at once. |
| BridgeClosing.SilenceIsCut | packages/gateway/src/websocket/proxy.ts:456-468 | A heartbeat tick cuts both sides if one owes a pong, otherwise it pings every open side; the kill timer and terminate cut both, without a frame. |
| BridgeClosing.TroubleIsHandled | packages/gateway/src/websocket/proxy.ts:318-337 | A lost handshake terminates the upstream and finishes; an error only names the cause; a failed send cuts its own side; a chain link that starts while closing drops its message uncharged. |
| BridgeClosing.CauseIsOfTheFirst | packages/gateway/src/websocket/proxy.ts:305-305 | On every event order the first cause is explained by an event that found none: each cause by its own condition. |
| BridgeClosing.LimiterAnswers | packages/gateway/src/websocket/proxy.ts:381-387 | A message is admitted as the limiter's algorithm decides on the calls made so far. |
| BridgeTimers.TimersRunWhileOpen | packages/gateway/src/websocket/proxy.ts:421-434 | On every event order heartbeat and idle timer run from the hand-over to the end, each if its interval is positive, and at no other time. |
| BridgeTimers.DeadMeansUnanswered | packages/gateway/src/websocket/proxy.ts:447-465 | A side counts as dead exactly when a ping round has gone by and no pong from it has come since. |
| BridgeTimers.ActivityIsTheLastRelay | packages/gateway/src/websocket/proxy.ts:341-341 | lastActivity is when a message last went out on either side, or when the bridge opened. |
| BridgeLimits.RunMetered | packages/gateway/src/websocket/proxy.ts:373-389 | On every event order the connection's limiter is one run of its algorithm, and in any time range the messages passed upstream cost no more than that run admitted. |
| BridgeLimits.MessageRateEnvelope | packages/gateway/src/websocket/proxy.ts:371-389 | Whatever the limit's algorithm, on every clocked event order the messages passed upstream, dated by when the limiter admitted them, keep that algorithm's own bound over any interval and any trailing window. |
| Capacity.Registry.CountFor | packages/gateway/src/websocket/registry.ts:25-29 | The loop counts exactly the route's connections. |
| Capacity.ConnectionCap | packages/gateway/src/websocket/proxy.ts:76-82 | Open bridges never exceed maxConnections - 1 + P, P the peak number of handshakes past the check but not yet registered; so the cap is exact when handshakes do not overlap; the gauge equals the registry count. |
| Capacity.CapIsSharp | packages/gateway/src/websocket/proxy.ts:106-147 | For every cap and every overlap P some run reaches that bound. |
| AuthCache.AnswersAreGrounded | packages/gateway/src/auth/index.ts:100-136 | Every answer given out, accepting or not, is what a database read of this run returned, at most 60 s plus that reader's delay between read and cache write earlier. |
| AuthCache.AnswersReflectTheRow | packages/gateway/src/db/repositories/apiKeys.ts:46-77 | When lookups finish within d of their read, an answer is what the row said (there, unrevoked, unexpired, tenant active, this record; or not) at some instant at most 60 s + d earlier. |
| AuthCache.RowIsItsHistory | packages/gateway/src/db/repositories/apiKeys.ts:56-63 | The row holds what was done to the key: its first creation, any later revoke, and its tenant's newest status and plan. |
| AuthCache.CachedAnswersLastAMinute | packages/gateway/src/auth/index.ts:112-126 | An answer written at t, accepting or not, and not deleted, evicted or written over, answers every lookup that asks the cache before t + 60 s and none that asks after. |
| AuthCache.RevocationTakesHold | packages/gateway/src/auth/index.ts:122-135 | Even if the cache delete is lost: when lookups finish within d of their read, nothing is accepted later than 60 s + d after the row was revoked. |
| AuthCache.RevokeIsFinalExactlyWhenQuiet | packages/gateway/src/admin/routes.ts:146-155 | When the cache delete succeeds, no lookup begun afterwards is ever accepted if and only if no outstanding lookup holds an answer it read while the key was active. |
| AuthCache.LateWriteRevives | packages/gateway/src/auth/index.ts:122-126 | Otherwise such a lookup's cache write brings the revoked key back for a later lookup. |
| AuthCache.RevokedForever | packages/gateway/src/db/repositories/apiKeys.ts:127-135 | A revoked row stays revoked. |
| AuthCache.LostDeleteIsNotRepaired | packages/gateway/src/admin/routes.ts:147-152 | If the cache delete fails, revoking again never deletes the entry: it is served until 60 s after it was written. |
| AuthHandlers.Backend.LookupApiKey | packages/gateway/src/auth/index.ts:100-136 | The lookup run alone: cache, then database, then cache write; no cache fault fails it; answer and cache are those of its events; the last use is noted exactly when the database said the key is active. |
| AuthHandlers.Backend.RevokeKey | packages/gateway/src/admin/routes.ts:146-155 | The revoke handler run alone: 404 exactly when there is no unrevoked row, and then nothing changes; otherwise row first, cache second. |
| CacheKeys.EncodingIsInjective | packages/gateway/src/cache/index.ts:33-33 | encodeURIComponent (UTF-8, percent-escapes) gives different route ids different texts. |
| CacheKeys.EncodingHasNoColon | packages/gateway/src/cache/index.ts:33-33 | An encoded route id never holds the key's separator. |
| CacheKeys.PurgePrefixIsExact | packages/gateway/src/cache/index.ts:32-35 | A route or path prefix begins a key if and only if the key was built for that route and, given a path, for a URL that is the path or begins with the path and "?", including ids with ":". |
| CacheKeys.UrlIsPathAndQuery | packages/gateway/src/cache/index.ts:54-56 | A URL is its path, or its path, "?" and its query; the path holds no "?". |
| CacheKeys.SameUrlExactlyWhen | packages/gateway/src/cache/index.ts:54-56 | Two URLs have the same path and query if and only if they are equal up to a bare trailing "?". |
| CacheKeys.UnderPathExactlyWhen | packages/gateway/src/cache/index.ts:54-55 | A URL has that path if and only if it is the path or begins with the path and "?". |
| CacheKeys.HeaderTextCases | packages/gateway/src/cache/index.ts:59-62 | An absent header counts as empty; repeated values count joined by commas, in order. |
| CacheKeys.VariantIsInjective | packages/gateway/src/cache/index.ts:58-71 | When the method, tenant ids, hosts and vary values hold no vertical bar, equal variants mean equal method, query, tenant, host part and vary values; queries and header names may hold bars. |
| CacheKeys.KeysTellPagesApart | packages/gateway/src/cache/index.ts:46-73 | Equal keys mean the same route and, up to a bare trailing "?", the same URL, with the same method, tenant, host part and vary values, unless SHA-256 itself collides. |
| CacheKeys.SamePageSameKey | packages/gateway/src/cache/index.ts:46-73 | And such requests do share one key. |
| CacheAmbiguity.KeysSeparateExactlyWhen | packages/gateway/src/cache/index.ts:58-72 | A class of requests, given by which of tenant id, host and vary headers may hold a vertical bar, is told apart by its keys (as far as SHA-256 tells texts apart) if and only if none of these fields is part of the route's key. |
| CacheAmbiguity.BarsMixTenants | packages/gateway/src/cache/index.ts:71-71 | For every bar-free request, every keyed field of its route and every other tenant, a request of that tenant with bars in its query only shares a key with the given request grown by a bar in that one field. |
| Glob.EscapedPrefixIsLiteral | packages/core/src/cache/redisStore.ts:55-58 | The escaped prefix followed by "*" matches exactly the strings that begin with the literal prefix, whatever brackets mean. |
| CacheStores.RedisCacheStore.DeleteByPrefix | packages/core/src/cache/redisStore.ts:35-47 | For any pages covering all matches, with repeats, exactly the keys with the prefix go, and the count is the number of distinct keys removed. |
| CacheStores.MemoryCacheStore.Get | packages/core/src/cache/memoryStore.ts:13-23 | Returns the unexpired entry; dropping an expired one changes nothing visible, then or later. |
| CacheStores.MemoryCacheStore.DeleteByPrefix | packages/core/src/cache/memoryStore.ts:30-41 | Whatever the visiting order, exactly the keys with the prefix go; only unexpired ones are counted. |
| CacheStores.PurgesAgree | packages/core/src/cache/memoryStore.ts:30-41 | A purge counts and leaves the same on both stores, though one still holds expired entries. |
| CachePolicy.ParseCacheControl | packages/core/src/cache/policy.ts:41-61 | The last max-age with a finite number counts; a directive is set exactly when listed. |
| CachePolicy.DirectivesAreCommaSeparated | packages/core/src/cache/policy.ts:42-46 | A text without a comma is one trimmed, lower-cased directive; around a comma the directives of both parts are found; repeated headers read like their values with commas between; no header reads like an empty one. |
| CachePolicy.MaxAgeIsWritten | packages/core/src/cache/policy.ts:49-53 | A max-age directive is "max-age=" and a text that denotes a finite number, which is its value. |
| CachePolicy.CachedExactlyWhenAllowed | packages/core/src/cache/policy.ts:15-32 | Exactly the 200 responses whose Cache-Control lists no no-store, no-cache or private, and that may live at all, are cached, with the longest lifetime that neither the route nor the last valid max-age forbids. |
| CachePolicy.Decide | packages/core/src/cache/policy.ts:15-32 | The decision made step by step is that decision. |
| CachePolicy.StripUncacheableHeaders | packages/gateway/src/cache/index.ts:79-88 | Drops Set-Cookie in any case and keeps every other header as it is. |
| CacheHits.EntriesAreWritten | packages/gateway/src/server.ts:513-535 | Every entry of the store was written by an answer of this run, and not purged, evicted or replaced since. |
| CacheHits.HitsAreSound | packages/gateway/src/server.ts:471-538 | Every HIT replays a 200 without Set-Cookie, within maxBodyBytes, stored less than min(max-age, ttlSec) seconds earlier for the same route, URL (up to a bare trailing "?"), method, tenant, host part and vary values, and neither the route nor the URL's path was purged since (at most, not less than, on a server that still answers at the very deadline). |
| CacheHits.HitsAreComplete | packages/gateway/src/server.ts:471-538 | And a response that may be kept for t seconds is the HIT of every request for the same page within them, unless it was purged, evicted or replaced. |
| CacheHits.CacheBranch.Handle | packages/gateway/src/server.ts:471-538 | The handler run step by step: hit or miss, and the store afterwards, are those of the two events. |
| CacheHits.SharedCacheBranch.Handle | packages/gateway/src/server.ts:471-538 | The same on the shared store, where keys expire by themselves and the write may fail. |
| QueryToken.ExtractQueryToken | packages/gateway/src/websocket/url.ts:30-41 | Returns the decoded value of the first named pair that has a non-empty one; nothing if there is none. |
| QueryToken.UrlsAreCutAtTheMark | packages/gateway/src/websocket/url.ts:19-22 | The path ends at the first "?", the query is what follows; its pairs are the pieces between "&". |
| QueryToken.PairsAreCutAtTheSign | packages/gateway/src/websocket/url.ts:24-38 | A pair k=v, k without "=", has the key decode(k) and the value decode(v); without "=" it is all key. |
| QueryToken.StripKeepsTheRest | packages/gateway/src/websocket/url.ts:44-50 | Stripping keeps the path and all other non-empty pairs, unchanged and in order. |
| QueryToken.OthersIsAFilter | packages/gateway/src/websocket/url.ts:48-48 | Each pair is kept or dropped by itself, in its place. |
| QueryToken.StripRemovesTheToken | packages/gateway/src/websocket/url.ts:44-50 | After stripping there is no token to extract, and stripping again changes nothing. |
| QueryToken.StripForgetsExactlyTheToken | packages/gateway/src/websocket/url.ts:44-50 | Two URLs strip to the same URL if and only if they have the same path and the same other pairs. |
| QueryToken.RedactKeepsTheRest | packages/gateway/src/websocket/url.ts:53-59 | Redacting keeps the path and every pair in place, and the key of a masked pair as it was written. |
| QueryToken.MaskIsWritten | packages/gateway/src/websocket/url.ts:57-57 | A named pair is shown as its written key and "=[redacted]", any other as it is. |
| QueryToken.RedactIsIdempotent | packages/gateway/src/websocket/url.ts:53-59 | Redacting twice is redacting once. |
| QueryToken.RedactForgetsExactlyTheToken | packages/gateway/src/websocket/url.ts:53-59 | Two URLs redact alike if and only if they differ only in token values; such URLs also strip alike. |

## Left out

- IEEE-754 rounding, and Redis' number-to-text formatting, in bucket levels and in the counter's estimate: arithmetic is exact here.
- Clock skew between gateways, and a clock that steps back: one non-decreasing clock.
- Policies that change between two calls on the same key, and fractional or non-positive costs.
- Atomicity inside Redis and Postgres: each script, command or query is one step; network failures of the rate-limit store and its fail-open switch are not modelled.
- A cache write or delete that a client sees fail but that Redis applies later.
- Eviction of rate-limit keys by Redis under memory pressure.
- AuthHandlers.Backend.LookupApiKey: the re-check of the key's hash in constant time and the 401/500 bodies are not modelled, because the query already selects by that hash.
- JWT authentication, key generation and hashing.
- Balancing.Balancer.PickTarget: breakers are held by value in the target list, because they are never shared between targets; target lists with repeated URLs are allowed, as in the source.
- Health probes: they appear only as health that may change in any way between picks, on routes that configure them.
- Retrying.ForwardWithRetry: buffering the body is not modelled; an attempt's outcome is an input.
- RequestHandlers.ProxyUpgrade: building the URL and headers between the pick and the connection attempt is assumed not to throw, because the URL parser is not in the repository.
- `connectUpstream` up to the moment the upstream is open (sub-protocols, rejected handshakes, timeouts): it only decides whether `acceptClient` runs.
- Close reason texts, message payload flags and sizes, per-message metrics, and log lines of the bridge.
- `closeAll`'s waiting loop: its two calls per connection are events of the bridge.
- The number of milliseconds between timer ticks: ticks come at any time while the timer is set.
- CacheHits.HitsAreSound: requests are assumed free of `|` in tenant ids, hosts and vary values and of digest collisions, which CacheAmbiguity.KeysSeparateExactlyWhen shows to be needed; configuration reload is not modelled.
- CachePolicy.ParseCacheControl: trimming, lower-casing and number parsing are any functions, because their Unicode and numeric corner cases belong to the JavaScript runtime.
- CacheStores.RedisCacheStore.DeleteByPrefix: no other client writes and no key expires while the scan runs, because only then does SCAN promise to return every matching key.
- CacheHits.SharedCacheBranch.Handle: a read that fails is not modelled, because the handler then fails as a whole.
- Serialisation of cached responses (JSON, base64), and a fractional or over-large `EX` that Redis refuses: such a write is a failed write.
- CacheKeys.EncodingIsInjective: texts are sequences of Unicode scalar values, so lone surrogates, on which encodeURIComponent throws, do not occur.
- `createCacheStores` and `createMemoryStore`: tables that pick an implementation.
- Configuration schema and reload, routing, path rewriting, header transforms, CORS, body limits, usage metering, metrics text and HTTP status plumbing: local code without an invariant over runs.
