# A verified model of the load balancer's core

This project models the state machines at the heart of a Go reverse proxy and load balancer and
proves what they guarantee over whole runs:

- **Balancing** (`internal/balancer`): smooth weighted round robin (`Swrr.dfy`), weighted round robin
  and weighted random selection (`Weighted.dfy`), bounded-load consistent hashing (`HashRing.dfy`),
  the stackable narrowing wrappers (`Wrappers.dfy`), and the health list with its cache, once as the
  object (`BaseBalancer.dfy`) and once as an interleaving of concurrent calls (`HealthCache.dfy`).
- **Request driving** (`internal/proxy/proxy.go`): sequential failover with retries (`Failover.dfy`)
  and the hedged race (`Hedge.dfy`).
- **Circuit breaking** (`internal/circuit`): the breaker (`Breaker.dfy`), its bucketed window against
  a log of all outcomes (`RollingWindow.dfy`), the reading of the shared hash (`SharedBreaker.dfy`),
  the openings nested in its hook (`Nested.dfy`), the protocol over any number of replicas
  (`Replicas.dfy`) and how long the echo of a trip lasts among them (`Echo.dfy`).
- **Rate limiting** (`internal/limiter`): GCRA in its three forms (`Gcra.dfy`), the per-key map that
  forgets idle limiters (`Limiter.dfy`), and requests and evictions that interleave (`Interleaved.dfy`).
- **Response cache** (`internal/middleware/cache.go`): its keys (`CacheKeys.dfy`), the parsing of Vary
  (`VaryHeader.dfy`), and the LRU list, index and Vary hints (`ResponseCache.dfy`).

`dafny verify dfyconfig.toml` checks everything.

Objects that change in place are classes; loops are methods with invariants; both are tied to pure
specification functions, about which the run-level results are proved. Concurrency is modelled as a
state machine whose steps interleave freely. Clocks, random draws, hash functions, upstream outcomes
and the Redis server are parameters or nondeterministic steps.

## Where the code differs from its own description

- **Narrowing order.** The outermost wrapper narrows first, so zone over tiers prefers a local backup
  to a remote primary; the comment at `internal/server/server.go:228-234` describes the other order.
  `ZoneOverTiersIff` says exactly when the two agree.
- **MemStore.** It is described as matching the local limiter, and admits one event less. It runs as
  the limiter of burst b-1, with burst 1 it admits nothing, and it matches exactly at emission zero.
- **Rolling window.** The window never counts too many outcomes but can miss fresh ones, in two ways:
  a bucket ages out with a fresh outcome inside, or is restarted after one. Its total is exact if and
  only if neither has happened to any outcome younger than the window.
- **Rates that are not positive.** They are meant to block everything. A new limiter still admits its
  first event unless its tolerance wraps to a negative 64-bit number; `BlockedIff` says for which
  bursts it does, and then every event is refused.
- **Idle eviction.** Forgetting an idle limiter is unobservable exactly when burst times emission is
  at most the idle time (plus one clock unit, because the comparison is strict). A request reads the
  clock, picks its limiter and reserves in separate steps. If that may take time d, and requests and
  sweeps interleave freely, twice d has to be added to the backlog (`UnobservedIff`): a late request
  sets the time a key was last seen back, and one that is late again finds the limiter gone.
- **Weighted round robin.** Across the 32-bit wrap of its counter it is proportional exactly when the
  total weight divides 2^32 or one backend holds all of it.
- **max_attempts.** The documentation calls it the total number of attempts, the first included. The
  code makes one exchange more with a backend exactly when each of max_attempts exchanges is retried.
  A negative value is not rejected: an idempotent request then gets an attempt without any exchange,
  and the handler returns without having written anything.
- **Recovery and a sibling's word.** An entry older than the local recovery is meant to be ignored. The
  recovery time is read before the lock is taken again to open, so a replica that closes in between is
  opened on a word older than its recovery; `OldWordIff` says exactly when, `RecoveryIsOverrun` is such
  a run. What holds is that the entry was not older than the recovery when it was judged.
- **Echo of a trip.** An open sibling keeps refreshing its entry: from any run in which a replica is
  open, two replicas can force each other open again without bound and without a further failure. The
  echo is over exactly when no replica is open and no open entry, stored or in flight, would still
  convince another one (`EchoIff`).
- **Opening inside the hook.** The hook of a forced opening may ask for another one, which is idle
  exactly when it finds the circuit open. Each further level needs the circuit to leave the open state
  while the hook waits, by a probe past the timeout or a reset. On clocks that never go back, n
  departures can lead to n + 1 openings, for every n.
- **URI in the cache key.** A request URI is put into the key as it is, and over HTTP/2 and HTTP/3 its
  query can hold a blank. A request for u can be served the response captured for another URI v exactly
  when one of them continues the other with " vary:" and a text that can begin a list of header values
  (`Continues` in `CacheKeys.dfy`; `MisservedIff`, with the run `BlankInQueryIsMisserved`).
- **Vary key.** Header values are not escaped. For names that differ a key tells all varied values
  apart exactly when there is at most one name; with more, it does so for values without ';'. Only
  the first value of a header is looked at.

## Model

| member | source | states |
|---|---|---|
| Backends.Backend.IncrConn | internal/balancer/balancer.go:64-66 | one connection more on this backend, nothing else changed |
| Backends.Backend.DecrConn | internal/balancer/balancer.go:68-70 | one connection less on this backend, nothing else changed |
| SmoothRoundRobin.Swrr.Next | internal/balancer/swrr.go:27-58 | one selection on the table of current weights: an error on an empty list, otherwise the row becomes that of one turn, other backends keep theirs, and exactly the picked backend is reserved |
| SmoothRoundRobin.BestIsGreatest | internal/balancer/swrr.go:38-48 | the backend chosen has the greatest raised weight, and is the first among equals |
| SmoothRoundRobin.Raise | internal/balancer/swrr.go:36-48 | the selection loop raises every row by its effective weight, sums the total and finds the first greatest |
| SmoothRoundRobin.AlwaysLevel | internal/balancer/swrr.go:36-53 | in every run the current weights sum to zero and each stays above minus the total |
| SmoothRoundRobin.Ledger | internal/balancer/swrr.go:36-53 | after t selections a current weight is t times the weight less the picks times the total |
| SmoothRoundRobin.FullCycle | internal/balancer/swrr.go:36-53 | after total-weight selections each backend was picked exactly its weight many times and all currents are zero again |
| SmoothRoundRobin.Periodic | internal/balancer/swrr.go:36-53 | state and picks repeat with the total weight as period |
| SmoothRoundRobin.ExactlyFair | internal/balancer/swrr.go:36-53 | any total-weight consecutive selections, wherever they start, pick each backend exactly its weight many times |
| SmoothRoundRobin.FairToWeights | internal/balancer/swrr.go:38-53 | on the weights of the backends themselves: any full cycle picks a backend of positive weight exactly that many times and any other one once |
| SmoothRoundRobin.NewTable | internal/balancer/swrr.go:23-25 | an empty table is the start of a run: every current weight is zero |
| SmoothRoundRobin.NeverAFullPickAhead | internal/balancer/swrr.go:36-53 | at no moment is a backend a full pick ahead of its proportional share |
| WeightedSelection.WeightedRoundRobin.Next | internal/balancer/weighted.go:17-54 | the 32-bit counter advances by one; the pick is what the walk finds at the counter's place modulo the 32-bit total, whatever the total, and exactly it is reserved; without positive weights the first backend is used and the counter stays; the call panics, with nothing reserved, exactly when the total is a multiple of 2^32 |
| WeightedSelection.WalkUp | internal/balancer/weighted.go:36-53 | the first index of positive weight whose 32-bit prefix sum is past the place, or the first of all if there is none |
| WeightedSelection.FirstPastHits | internal/balancer/weighted.go:36-53 | for a total below 2^32 that is the one index whose interval holds the place |
| WeightedSelection.WalkDown | internal/balancer/weightedrandom.go:43-57 | subtracting until negative stops inside the list on the one index whose interval holds the draw |
| WeightedSelection.NextRandom | internal/balancer/weightedrandom.go:24-62 | for every draw the backend owning it is returned and exactly it is reserved; an empty list is an error |
| WeightedSelection.HitsUnique | internal/balancer/weighted.go:39-48 | no two indices own the same place |
| WeightedSelection.DrawsAreProportional | internal/balancer/weightedrandom.go:30-57 | exactly w of the total-weight draws select a backend of weight w |
| WeightedSelection.DrawsFollowWeights | internal/balancer/weightedrandom.go:30-57 | of all draws exactly as many select a backend as its own weight says, or one if that is not positive |
| WeightedSelection.RoundRobinIsProportional | internal/balancer/weighted.go:23-53 | any total-weight consecutive counter values that do not cross the wrap select each backend its weight many times |
| WeightedSelection.RoundRobinFollowsWeights | internal/balancer/weighted.go:23-53 | there a backend is selected as often as its own weight says, and never if that is not positive |
| WeightedSelection.AcrossTheWrapIff | internal/balancer/weighted.go:36-39 | over all windows, crossing ones included, proportionality holds if and only if the total divides 2^32 or one backend holds all the weight |
| ConsistentHashing.OwnerIsFirstClaimant | internal/balancer/consistenthash.go:81-97 | a point is on the ring if and only if some virtual node hashes to it, and belongs to the first backend that does |
| ConsistentHashing.Rebuild | internal/balancer/consistenthash.go:81-97 | the ring is strictly sorted and lists exactly the points of the owner table |
| ConsistentHashing.Search | internal/balancer/consistenthash.go:127-129 | binary search separates the points below the key from those at or after it |
| ConsistentHashing.Start | internal/balancer/consistenthash.go:127-132 | the walk starts at the cyclic successor of the key |
| ConsistentHashing.SuccessorIsUnique | internal/balancer/consistenthash.go:127-132 | a key has one cyclic successor |
| ConsistentHashing.NoNewPoints | internal/balancer/consistenthash.go:81-97 | removing a backend adds no point |
| ConsistentHashing.OthersKeepTheirPoints | internal/balancer/consistenthash.go:81-97 | a point of another backend keeps its owner when one leaves, hash collisions included |
| ConsistentHashing.MinimalDisruption | internal/balancer/consistenthash.go:81-132 | removing (or, read backwards, adding) a backend at any place changes the owner only of keys that backend owns |
| ConsistentHashing.SomeoneIsUnderCapacity | internal/balancer/consistenthash.go:118-126 | for all loads and every load factor of at least one some backend is under capacity |
| ConsistentHashing.UnderCapacityIff | internal/balancer/consistenthash.go:118-126 | a backend is under capacity if and only if its load is at most the load factor times the average, the new connection counted |
| ConsistentHashing.Walk | internal/balancer/consistenthash.go:134-187 | despite skipping backends already seen, the walk returns the first under-capacity healthy backend clockwise, and falls back only if there is none |
| ConsistentHashing.WalkNeverFalls | internal/balancer/consistenthash.go:134-187 | if every healthy backend owns a point the fallback is unreachable |
| ConsistentHashing.PickIsWithinCapacity | internal/balancer/consistenthash.go:118-187 | if every healthy backend owns a point the backend picked is healthy and its load after the reservation is at most floor(factor(1+sum)/n)+1 |
| ConsistentHashing.StaysHomeIff | internal/balancer/consistenthash.go:118-187 | a key stays with the healthy owner of its point if and only if that one's load is at most the factor times the average |
| ConsistentHashing.Choose | internal/balancer/consistenthash.go:118-187 | capacity, start and walk together yield the chosen backend of the specification |
| ConsistentHashing.ConsistentHash.Refresh | internal/balancer/consistenthash.go:107-116 | the URLs on the ring become those of the healthy list; the ring is rebuilt exactly when the membership signature changed or the ring is empty |
| ConsistentHashing.ConsistentHash.NextForKey | internal/balancer/consistenthash.go:101-188 | an empty list is an error; otherwise the chosen backend of the current ring is returned and exactly it is reserved; it is healthy if the ring was built from the healthy list |
| ConsistentHashing.PicksOutsideIff | internal/balancer/consistenthash.go:110-187 | on a ring kept from other backends with the same URLs the pick is outside the healthy list if and only if the owner of the point the walk starts at is and no healthy owner is under capacity |
| Wrappers.EligibleByTier | internal/balancer/wrappers.go:142-159 | the members of the lowest tier present, in order |
| Wrappers.EligibleByZone | internal/balancer/wrappers.go:201-215 | the local members if there are any and the filter is on, otherwise the whole pool |
| Wrappers.SameSet | internal/balancer/wrappers.go:110-124 | on lists without repetition, true if and only if both have the same members |
| Wrappers.StatelessPick | internal/balancer/wrappers.go:82-95 | the least loaded candidate, the first among equals, reserved once; an error on none |
| Wrappers.HashPick | internal/balancer/wrappers.go:99-108 | the candidate at the hash modulo the number of candidates, reserved once; an error on none |
| Wrappers.SelectFrom | internal/balancer/wrappers.go:47-78 | from candidates narrowed so far, a member of what the inner stack narrows them to, reserved exactly once, or an error that reserves nothing; a proper part of the pool is chosen from by the key's hash alone if there is a key and the base selects by key, otherwise by least load |
| Wrappers.PickFrom | internal/balancer/wrappers.go:161-175 | the same through one wrapper and everything below it |
| Wrappers.Ramped | internal/balancer/wrappers.go:318-371 | through up to eight slow-start rejections every rejected reservation is given back, and the outcome is one reservation in the narrowed pool |
| Wrappers.Next | internal/balancer/wrappers.go:161-371 | for every stack, health set, connection counts and draws: a member of the healthy set narrowed outermost first, reserved exactly once, or an error that reserves nothing; where the narrowing leaves out some healthy backend, a request with a key gets the one at the key's hash modulo the number left, for a base that selects by key, so that it stays there; health is a parameter here, which no step could change |
| Wrappers.NarrowSame | internal/balancer/wrappers.go:47-58 | narrowing depends on the members of a pool and not on their order, which is why comparing sets is enough to use the inner algorithm |
| Wrappers.NarrowWithin | internal/balancer/wrappers.go:142-215 | narrowing never empties a pool and never leaves it |
| Wrappers.FiltersInOrder | internal/balancer/wrappers.go:142-215 | health, tier and zone filters keep the order of the list |
| Wrappers.ZoneOverTiersIff | internal/server/server.go:228-262 | zone over tiers selects from the same set as tiers over zone if and only if the filter is off, nothing is local or the lowest tier has a local member |
| BaseBalancing.BaseBalancer.Add | internal/balancer/balancer.go:138-143 | the backend is appended and the generation moves on |
| BaseBalancing.BaseBalancer.Remove | internal/balancer/balancer.go:145-155 | the first occurrence is dropped and the generation moves on; an unknown backend changes nothing |
| BaseBalancing.BaseBalancer.GetHealthy | internal/balancer/balancer.go:170-200 | with or without a cache hit the result is the in-order filter by the current flags |
| BaseBalancing.HealthyInOrder | internal/balancer/balancer.go:170-200 | the filter keeps the order of the list |
| BaseBalancing.SetHealthy | internal/balancer/balancer.go:58-62 | a flip bumps the epoch and keeps the cache of every balancer that shares it honest; setting the same value changes nothing |
| HealthCache.StepKeepsInv | internal/balancer/balancer.go:56-200 | every step of every interleaving keeps the invariant that ties caches and running scans to the epochs and generations they read |
| HealthCache.CacheIsCurrent | internal/balancer/balancer.go:170-200 | in every interleaving, whenever no flip is between swap and bump, a cache that matches epoch and generation equals the filter |
| HealthCache.CallKeepsItsEpoch | internal/balancer/balancer.go:170-200 | through a whole call the epoch it loaded stays with it and never runs ahead |
| HealthCache.UndisturbedCallIsExact | internal/balancer/balancer.go:170-200 | a call during which neither epoch nor generation changed returns exactly the healthy list |
| HealthCache.PublishedIsHit | internal/balancer/balancer.go:170-200 | what one call has published the next one returns without scanning |
| HealthCache.ListIsLedger | internal/balancer/balancer.go:138-155 | in every run a backend is listed as often as it was added and not removed |
| HealthCache.FlagsAreLast | internal/balancer/balancer.go:56-62 | in every run a backend's flag is the one last set |
| HealthCache.HealthyInOrder | internal/balancer/balancer.go:170-200 | the filter keeps the order and drops exactly the backends whose flag is not set |
| HealthCache.MidFlipTheCacheIsStale | internal/balancer/balancer.go:56-62 | between swap and bump a matching cache does differ from the filter, and the bump ends that |
| Failover.AttemptBackend | internal/proxy/proxy.go:773-833 | the attempt makes exactly as many exchanges as retry limit, retried classes and budget allow, reports the last one, releases the reservation once, and delivers a non-idempotent request at most once |
| Failover.MakeExchanges | internal/proxy/proxy.go:791-832 | the loop goes on exactly while an exchange failed unseen in a retried class and the budget grants another |
| Failover.ReserveAlternate | internal/proxy/proxy.go:753-765 | the first healthy untried backend below its cap, or none if there is none |
| Failover.TakeAlternate | internal/proxy/proxy.go:623 | the next candidate is untried, healthy, within its cap with the new connection counted, and becomes reserved, or nothing is left |
| Failover.Attempt | internal/proxy/proxy.go:598-621 | an attempt is recorded once with the class of its last exchange, and the request goes on, stops or is finished as safety and answer demand |
| Failover.TryBackend | internal/proxy/proxy.go:588-624 | one turn either skips or attempts the reserved backend and releases it in both cases; it is attempted exactly if the breaker allows and its connections are within its cap; a skip notes whether the backend was over its cap |
| Failover.ExceedsTheLimitIff | internal/proxy/proxy.go:782-832 | an idempotent request is sent to one backend more than max_attempts times if and only if each of the first max_attempts exchanges is retried, and then once more exactly |
| Failover.RefusedOnceTooOften | internal/proxy/proxy.go:782-832 | a backend that refuses every connection gets max_attempts + 1 exchanges, for every limit and request |
| Failover.MadeExchangesOnce | internal/proxy/proxy.go:791-832 | retries, classes and budget determine the number of exchanges |
| Failover.RetriesArePaid | internal/proxy/proxy.go:791-832 | every exchange after the first follows one that failed unseen in a retried class and has been granted by the budget |
| Failover.IdempotentIff | internal/proxy/proxy.go:657-678 | exactly the methods that section 9.2.2 of RFC 9110 calls idempotent, and requests with an idempotency key, count as idempotent |
| Failover.ConnectErrorIff | internal/proxy/proxy.go:684-695 | an error is a connection error if and only if its outermost network operation is a dial or some layer says refused |
| Failover.ClassIff | internal/proxy/proxy.go:703-728 | the class of an exchange is "timeout" if and only if it was cut short or its outermost network layer timed out, "connect" for every other failure, and for a response whether it is a server error |
| Failover.ProxyRequest | internal/proxy/proxy.go:570-643 | every run ends with nothing reserved, no backend reserved twice, the primary first, one breaker record per attempt and at most (retries + 1) exchanges per attempt in total; exactly one answer is given unless max_attempts is negative for an idempotent request that was attempted, then nothing is written; an error answer is 502 exactly if an exchange was made, otherwise 503, as a bulkhead rejection exactly if some backend was skipped over its cap; an error is given only when replay is unsafe or no backend is left; a request whose method RFC 9110 does not call idempotent and that has no idempotency key is delivered at most once, provided that a failed dial or a refused connection means what it says |
| Failover.ReleasedExactlyOnce | internal/proxy/proxy.go:588-624 | in every sound history the releases are the reservations in order, less the one still held |
| Failover.ConnectClassIsCoarser | internal/proxy/proxy.go:684-728 | a delivered request can end in class "connect" and a failed dial in class "timeout", so the class could not decide what is safe to replay |
| HedgedRace.ReserveHedgeBackends | internal/proxy/proxy.go:1243-1264 | the first n eligible healthy backends other than the primary, or all of them; each is allowed by the breaker and within its cap with the new connection counted |
| HedgedRace.StartHedge | internal/proxy/proxy.go:1097-1109 | a race starts if and only if the primary is available and an extra can be reserved; otherwise nothing but the primary stays reserved |
| HedgedRace.Dispatch | internal/proxy/proxy.go:570-577 | a request is raced if and only if hedging is on, it is idempotent, its primary is available and an extra can be reserved; every other one goes through sequential failover from its reserved primary, so that across both paths a non-idempotent request is delivered at most once |
| HedgedRace.StepKeepsInv | internal/proxy/proxy.go:1111-1230 | every step of request, attempts and timer keeps the invariant on statuses, releases, channel, pending count and winner |
| HedgedRace.NothingToDrain | internal/proxy/proxy.go:1188-1204 | the drain loop after the collecting loop never runs |
| HedgedRace.SendNeverBlocks | internal/proxy/proxy.go:1112-1134 | the result channel's buffer suffices for every attempt |
| HedgedRace.RaceOutcome | internal/proxy/proxy.go:1188-1230 | at the end every reservation, launched or not, was released exactly once, nothing is running, one reply was given: the first successful result received, or a 502 if and only if all attempts failed |
| HedgedRace.NeverStuck | internal/proxy/proxy.go:1159-1204 | before the end some step is always possible |
| HedgedRace.EveryRaceEnds | internal/proxy/proxy.go:1092-1230 | no interleaving of n attempts takes more than 5n+6 steps, one that cannot go on has answered, and one that has answered has ended as in RaceOutcome |
| HedgedRace.UnlaunchedIff | internal/proxy/proxy.go:1138-1186 | in every race that is over, an extra stayed unlaunched if and only if the timer was never taken and the first result received is the primary's success; once the timer is taken every attempt is made |
| CircuitBreaking.Normalised | internal/circuit/breaker.go:123-150 | the defaults make every configuration normal and leave a normal one alone; thresholds become one, the window ten seconds, the rate a half and the minimum twenty |
| CircuitBreaking.CircuitBreaker.Allow | internal/circuit/breaker.go:203-241 | the record and the verdict are those of the specification step, the hook is told of the old and new state exactly when they differ, other backends are untouched |
| CircuitBreaking.CircuitBreaker.RecordSuccess | internal/circuit/breaker.go:243-281 | the record is that of the step, the backend becomes healthy exactly on recovery, the hook is told of the old and new state exactly when they differ, other backends are untouched |
| CircuitBreaking.CircuitBreaker.RecordFailure | internal/circuit/breaker.go:283-325 | the record is that of the step, the backend becomes unhealthy exactly on opening, the hook is told of the old and new state exactly when they differ, other backends are untouched |
| CircuitBreaking.CircuitBreaker.ForceOpen | internal/circuit/redis_sync.go:322-339 | an open record is left alone, any other opens, is stamped and its backend becomes unhealthy; the hook is told exactly of a change |
| CircuitBreaking.CircuitBreaker.Reset | internal/circuit/breaker.go:399-404 | the backend starts afresh, others are untouched |
| CircuitBreaking.WindowTotals | internal/circuit/breaker.go:369-383 | the sums over the buckets still inside the window |
| CircuitBreaking.SlotIs | internal/circuit/breaker.go:334-341 | stretches of a tenth of the window take turns at the ten slots |
| CircuitBreaking.ProbesBounded | internal/circuit/breaker.go:203-325 | over every call sequence the probe counter stays between zero and the success threshold |
| CircuitBreaking.EpisodeAdmitsFew | internal/circuit/breaker.go:203-281 | one half-open episode admits at most 2T-1 requests |
| CircuitBreaking.EpisodeBoundIsReached | internal/circuit/breaker.go:203-281 | and that bound is reached, for every configuration |
| CircuitBreaking.EpisodeEnds | internal/circuit/breaker.go:243-325 | an episode closes exactly on its T-th success and opens exactly on a failure or a forced opening |
| CircuitBreaking.OpenAdmitsAfterTimeout | internal/circuit/breaker.go:203-241 | an open breaker admits if and only if the timeout has passed since the latest recorded failure or forced opening |
| CircuitBreaking.ClosedAdmits | internal/circuit/breaker.go:203-241 | a closed breaker admits every request and is not changed by it |
| CircuitBreaking.TripsOnConsecutiveFailures | internal/circuit/breaker.go:283-325 | in consecutive mode a closed breaker opens exactly when the last threshold outcomes since closing are all failures |
| RollingWindow.BucketsAreExact | internal/circuit/breaker.go:329-354 | in every run each live bucket counts exactly the logged outcomes put in it since its start |
| RollingWindow.WindowIsContained | internal/circuit/breaker.go:329-383 | in every run the window's successes and failures never exceed those of the log younger than the window |
| RollingWindow.RollingTripIsBacked | internal/circuit/breaker.go:358-383 | every rolling trip rests on at least the minimum number of logged outcomes inside the window, a failure among them |
| RollingWindow.RollingTripIff | internal/circuit/breaker.go:301-310 | in every run in rolling mode a closed breaker opens by itself if and only if a failure leaves at least the minimum number of outcomes in the window and a share of failures above the threshold |
| RollingWindow.RollingTripIffLogged | internal/circuit/breaker.go:358-383 | where no fresh outcome is missed, this is so of the numbers of all logged outcomes younger than the window |
| RollingWindow.WindowIsExactIff | internal/circuit/breaker.go:329-383 | in every run and at any time the window's total is the number of outcomes younger than it if and only if none of these is in a bucket that aged out or was restarted after it |
| RollingWindow.AgedOutBucketMisses | internal/circuit/breaker.go:369-383 | a run in which a bucket ages out with a fresh outcome inside |
| RollingWindow.RestartedBucketMisses | internal/circuit/breaker.go:338-348 | a run in which a restarted bucket has forgotten a fresh outcome and counts on |
| SharedBreaker.SplitLastColon | internal/circuit/redis_sync.go:373-380 | prefix and suffix around the last colon, or an empty prefix |
| SharedBreaker.SplitsBack | internal/circuit/redis_sync.go:275-281 | a field name splits back into its replica id, colons and all, and its suffix |
| SharedBreaker.ParseDecimal | internal/circuit/redis_sync.go:290-292 | a timestamp written in decimal is read back |
| SharedBreaker.RemoteSaysOpen | internal/circuit/redis_sync.go:270-318 | whatever the order of the fields, true if and only if some other replica's state field is open, not outdated and not older than the recovery |
| SharedBreaker.PushKeepsEncoding | internal/circuit/redis_sync.go:28-40 | the script's three writes replace that replica's entry and no other |
| SharedBreaker.DecisionDecodes | internal/circuit/redis_sync.go:270-318 | on a hash written by replicas the decision over strings is the decision over their entries |
| NestedOpening.Syncer.PushOne | internal/circuit/redis_sync.go:219-318 | whatever calls and pushes come in between, the entry read before is written, each entry found is judged by the recovery time at its own visit, and the record opens if and only if one convinces |
| NestedOpening.Syncer.ForceOpen | internal/circuit/redis_sync.go:322-339 | an open record stays as it is; any other opens and fires the hook, whose push may open again; record, hash and number of hooks are those of the specification |
| NestedOpening.LeavesOpenIff | internal/circuit/breaker.go:203-325 | an open record leaves the open state only by a reset or a probe past the timeout |
| NestedOpening.DepthNeedsDepartures | internal/circuit/redis_sync.go:148-157 | over all interleaved calls, n + 1 nested hooks take n departures from the open state at levels whose push asked for an opening |
| NestedOpening.AloneOpensOnce | internal/circuit/redis_sync.go:281-287 | a replica that finds no entry but its own opens once, or not at all if it was open |
| NestedOpening.DepthIsReached | internal/circuit/redis_sync.go:148-157 | for every n, timeout and start not before the recovery there are levels, on clocks that never go back, whose n departures nest n + 1 hooks |
| Replicas.OpenNeedsATrip | internal/circuit/redis_sync.go:230-339 | over every interleaving of any number of replicas, if none tripped on its own failures then no replica, entry or message says open |
| Replicas.EntriesAreAccounted | internal/circuit/redis_sync.go:230-318 | every open entry, stored or in flight, was written at its stamp by that replica after it had found itself open, and every decision to open rests on one |
| Replicas.ForcedOpenHasACause | internal/circuit/redis_sync.go:270-339 | a replica is forced open only by another one's open entry, which when judged was within the TTL and not older than this replica's recovery as read at that moment |
| Replicas.JudgesThemAll | internal/circuit/redis_sync.go:274-318 | whatever the order of the entries, a call decides to open if and only if one of those it has read convinces |
| Replicas.OldWordIff | internal/circuit/redis_sync.go:300-339 | at any moment until the opening, the entry decided on is older than the recovery if and only if the replica last closed, in a later second than its stamp, since the judgement |
| Replicas.SilentUntilTheNextTrip | internal/circuit/redis_sync.go:230-339 | after any history and with any clocks, once no replica is open and nothing stored or in flight says that one is, this stays so and nothing is forced until a replica trips on its own failures |
| Echoes.EchoesForEver | internal/circuit/redis_sync.go:148-157 | from any run with an open replica two replicas can force each other open any number of times, each recovering in between, with agreeing clocks and no further failure or reset |
| Echoes.EchoIff | internal/circuit/redis_sync.go:230-339 | with agreeing clocks and two or more replicas, a replica can still be forced open without a failure or reset if and only if one is open or an open entry, stored or in flight, would still convince another |
| Echoes.OldWordOpens | internal/circuit/redis_sync.go:300-339 | a half-open replica whose call has decided may close in a later second and is then opened all the same |
| Echoes.RecoveryIsOverrun | internal/circuit/redis_sync.go:300-339 | a run in which a replica is opened on an entry stamped five seconds before its recovery |
| Gcra.Limiter.constructor | internal/limiter/limiter.go:85-108 | the emission is the spacing, or 2^62-1 for a rate that is not positive; the tolerance is (burst-1) emissions in 64-bit arithmetic, zero for a burst below one; the TAT is unset |
| Gcra.Limiter.Reserve | internal/limiter/limiter.go:110-132 | TAT, verdict and wait are those of one event at the limiter's tolerance, which is negated in 64-bit arithmetic |
| Gcra.ReservedIsLocal | internal/limiter/limiter.go:91-132 | as long as the tolerance fits 64 bits that event is the local step, of which the run-level results speak |
| Gcra.FirstEventIff | internal/limiter/limiter.go:91-132 | a new limiter admits its first event if and only if the burst is positive and the 64-bit tolerance is not negative, or is the least 64-bit number, which is its own negation |
| Gcra.FirstDecides | internal/limiter/limiter.go:110-132 | a limiter that refuses its first event refuses every event of every history |
| Gcra.BlockedIff | internal/limiter/limiter.go:94-108 | for a rate that is not positive and every positive burst an int can hold, all events of a history are refused if and only if the burst is one of those whose tolerance wraps to a negative number |
| Gcra.TatIsLatestSchedule | internal/limiter/limiter.go:110-132 | after n admissions the TAT is the latest of the schedules they started |
| Gcra.AdmittedIffConforming | internal/limiter/limiter.go:110-132 | a schedule is admitted in full if and only if every stretch of it fits rate and burst |
| Gcra.SlidingBound | internal/limiter/limiter.go:91-132 | in every run, refusals included, k admissions from s to t satisfy (k-1) emission <= (t-s) + (burst-1) emission |
| Gcra.ExactWait | internal/limiter/limiter.go:110-132 | after a refusal every earlier time is refused with the wait left, every time from then on is admitted |
| Gcra.RedisStore.Allow | internal/limiter/redis_store.go:96-130 | a rate that is not positive admits; otherwise the key and the verdict are those of the script, other keys are untouched |
| Gcra.RedisStore.Discard | internal/limiter/redis_store.go:53-57 | only a key past its TTL is dropped |
| Gcra.ScriptAgrees | internal/limiter/redis_store.go:24-60 | on every event of every run on a non-decreasing clock, whenever the server drops expired keys, script and local limiter give the same verdict and wait |
| Gcra.TtlIsLeast | internal/limiter/redis_store.go:53-57 | the key's TTL is the least whole number of seconds that covers the backlog, but at least one |
| Gcra.MemStore.Allow | internal/limiter/store.go:31-55 | a rate that is not positive admits; otherwise TAT and verdict are those of the store's step, other keys are untouched |
| Gcra.MemStoreIsOneShort | internal/limiter/store.go:31-55 | with burst b >= 2 every verdict of every run is that of the local limiter with burst b-1 |
| Gcra.MemStoreOfOneIsShut | internal/limiter/store.go:31-55 | with burst 1 nothing is ever admitted |
| Gcra.MemStoreMatchesIff | internal/limiter/store.go:31-55 | the store matches the local limiter of its own burst if and only if the emission is zero |
| Gcra.BacklogIsObservable | internal/limiter/limiter.go:450-474 | a TAT ahead of now is missed as soon as a full burst arrives |
| Gcra.DropUnseenIff | internal/limiter/limiter.go:450-474 | dropping a limiter goes unnoticed by every future if and only if its TAT is not ahead of now |
| Gcra.ForgettableIff | internal/limiter/limiter.go:450-474 | eviction after an idle time is unobservable if and only if burst times emission is at most that time plus one |
| RateLimiting.RateLimiter.Allow | internal/limiter/limiter.go:341-405 | the shared store decides first, then the global limiter, each alone when it refuses; otherwise the limiter of the key in the map of a known rule, or in the bounded default map, where room is made for an unknown key; limiters compute in 64 bits; nothing else changes and the default map stays within its bound |
| RateLimiting.RateLimiter.EnsureCapacity | internal/limiter/limiter.go:410-440 | below the bound nothing goes; at it all idle entries go, and if that is not enough one more, which no other was seen before |
| RateLimiting.RateLimiter.Cleanup | internal/limiter/limiter.go:450-479 | exactly the entries idle longer than the limit are dropped, from the default map and from that of every rule |
| RateLimiting.ForgettingIsUnobservable | internal/limiter/limiter.go:385-440 | with the idle time covering a backlog and no live entry displaced, every verdict of every run of requests and sweeps is that of a private limiter never evicted |
| RateLimiting.RulesForgetUnobserved | internal/limiter/limiter.go:450-474 | in the unbounded map of a rule this holds of every run |
| RateLimiting.NeverMoreThanMaxEntries | internal/limiter/limiter.go:410-440 | displacing included, no run ever holds more than the maximum number of keys |
| InterleavedLimiting.IdleIsUnused | internal/limiter/limiter.go:341-405 | if no request takes more than half the idle time, nobody is about to use the limiter of a key that may be evicted |
| InterleavedLimiting.KeepsInv | internal/limiter/limiter.go:341-479 | every clock reading, pick, reservation and eviction keeps requests on their key's one current limiter, seen no more than the delay before them |
| InterleavedLimiting.InterleavingIsUnobservable | internal/limiter/limiter.go:341-479 | under every interleaving, if the idle time covers a backlog and twice the delay, each verdict is that of a limiter never evicted, on the times read in the order of the reservations |
| InterleavedLimiting.UnobservedIff | internal/limiter/limiter.go:341-479 | for a positive burst and emission whose tolerance fits 64 bits this holds of every interleaving if and only if burst times emission plus twice the delay is at most the idle time plus one |
| CacheKeys.KeyParts | internal/middleware/cache.go:425-447 | two keys are equal only if method and host are, and URI with Vary suffix is one text |
| CacheKeys.UriParts | internal/middleware/cache.go:425-447 | under lists that can be stored that text has one reading, unless one URI continues the other with " vary:" and a text that can begin a list |
| CacheKeys.CanShareIff | internal/middleware/cache.go:425-463 | under lists that can be parsed and stored, requests with two different URIs can have the same key if and only if one URI continues the other with " vary:" and a text z that can begin a list: z is not empty, starts with no blank, and holds no comma or has a header name before some '=' |
| VaryHeader.ParseVary | internal/middleware/cache.go:450-463 | the loop over the parts between commas yields the list that the header means, of trimmed, canonical names |
| VaryHeader.RoundTrip | internal/middleware/cache.go:450-463 | every list of trimmed and canonical names, joined with commas, is parsed back |
| VaryHeader.ParsedIff | internal/middleware/cache.go:450-463 | the lists that some header yields are exactly those of non-empty, trimmed, canonical names without commas |
| CacheKeys.VaryKeyTellsValues | internal/middleware/cache.go:434-447 | for values without ';' (the last one excepted) equal suffixes mean equal values of every varied header |
| CacheKeys.FaithfulIff | internal/middleware/cache.go:434-447 | for names that differ, equal suffixes mean equal values for all requests if and only if there is at most one name |
| CacheKeys.OneNameIsFaithful | internal/middleware/cache.go:434-463 | a list that names one header, however often, is told apart for all requests |
| CacheKeys.NeighboursClash | internal/middleware/cache.go:434-463 | a list, repetitions elsewhere included, with two neighbouring names that each occur once is not |
| CacheKeys.SecondValueClashes | internal/middleware/cache.go:434-447 | requests that differ in a varied header beyond its first value share every key |
| ResponseCache.StoredKeepsInv | internal/middleware/cache.go:360-396 | storing keeps the bound, one entry a key, and every Vary list equal to its hint, and adds nothing but the new entry |
| ResponseCache.StoredIsFound | internal/middleware/cache.go:341-396 | a stored response is found by its own request and by every one with equal keys |
| ResponseCache.ServedOnTime | internal/middleware/cache.go:149-396 | a cacheable response answers every request with equal keys and sufficient authorisation as a hit for its lifetime, as stale for the window after it and then no more, from its storing on through any calls that neither replace nor purge it and are fewer than the cache has places |
| ResponseCache.Uncacheable | internal/middleware/cache.go:209-267 | a response that may not be stored leaves the cache as it is |
| ResponseCache.LookedUpStays | internal/middleware/cache.go:341-395 | a response just looked up survives any calls that neither replace nor purge it, as long as they are fewer than the cache has places |
| ResponseCache.RunKeepsInv | internal/middleware/cache.go:341-406 | over every run of lookups and fetches the list is bounded, holds one entry a key, agrees with the hints, and holds only captured responses |
| ResponseCache.ServedIsLegal | internal/middleware/cache.go:149-267 | whatever any run serves was captured for the same method and host, for the same URI unless one of the two continues the other as a Vary suffix can, with equal varied values where the URIs are equal and the values hold no ';', is younger than lifetime plus stale window, is public if either request was authenticated, and was storable |
| ResponseCache.MisservedIff | internal/middleware/cache.go:149-396 | some run serves a request the response captured for a given other URI if and only if one of the two continues the other as a Vary suffix can |
| ResponseCache.BlankInQueryIsMisserved | internal/middleware/cache.go:149-447 | a request for /x?q with A: 1, after a response to it under Vary: A and one for the URI "/x?q vary:A=1;" were stored, is answered by the latter |
| ResponseCache.PurgeBase | internal/middleware/cache.go:399-406 | exactly the variants of the base key leave list and index, in any order of iteration |
| ResponseCache.Evict | internal/middleware/cache.go:387-395 | the least recently used entries leave list and index until the bound holds |
| ResponseCache.Put | internal/middleware/cache.go:379-395 | a known key is replaced and moved to the front, a new one is put in front and may push out the oldest |
| ResponseCache.Cache.constructor | internal/middleware/cache.go:66-87 | an empty cache with the defaults for bounds that are not positive |
| ResponseCache.Cache.Lookup | internal/middleware/cache.go:341-357 | the entry under the request's key for the recorded hint, moved to the front; list and index stay in bijection |
| ResponseCache.Cache.Insert | internal/middleware/cache.go:360-396 | the contents become those of the specification's store; list and index stay in bijection |
| ResponseCache.Cache.TriggerRefresh | internal/middleware/cache.go:302-312 | a refresh is launched if and only if none is under way for the key, so there is never more than one |
| ResponseCache.Cache.FinishRefresh | internal/middleware/cache.go:316-324 | the key is free again |

## Left out

- HTTP transport, reverse proxying, WebSockets, TLS, HTTP/3, gRPC health checks, tracing and logging: input and output around the modelled logic.
- Configuration parsing and server wiring: flat defaulting and range checks.
- Token bucket limiting: its behaviour is that of an external package.
- EWMA, power of two choices, least connections, plain round robin, IP hash, outlier detection, canary and admission control: easier invariants.
- Live changes of the rates of the rate limiter.
- RateLimiting.RateLimiter.Allow: the shared store's verdict is a parameter; the stores themselves are in `Gcra`. A call is one step here; `InterleavedLimiting` takes a request for one map apart.
- InterleavedLimiting: only idle keys are evicted; a live one displaced for want of room is forgotten, as in `RateLimiting`.
- Gcra.Limiter.Reserve: the wait reported with a refusal is not cut off at 2^63-1 nanoseconds.
- Rounding: emissions and times are integers and the load factor and error rate are fractions, where the source computes in floating point.
- Counter widths: only weighted round robin (32 bits) and the limiter's tolerance (64 bits) wrap; other numbers are unbounded.
- Redis failures in rate limiting, script loading and number formatting inside scripts; a failed push of the shared breaker is modelled as an abandoned call.
- BaseBalancing.SetHealthy: its flag swap and epoch bump are one step in `BaseBalancing`; `HealthCache` takes them apart.
- Wrappers.Ramped: whether a pick is accepted is arbitrary at every try; the ramp itself is not modelled.
- Wrappers.Next: works on values for connection counts and health, so that updates in place are not captured.
- ConsistentHashing.ConsistentHash.NextForKey: the ring's signature is the multiset of URLs, and loads do not change during the walk.
- Failover.ProxyRequest: backoff delays, metrics and panics raised while a response is copied are not modelled; connection counts are read from an environment that may change them at every step.
- HedgedRace: what an attempt's response contains, and the breaker and latency records made by each attempt.
- NestedOpening: one backend.
- Replicas: one backend; the hash may expire at any moment, not only at its TTL.
- VaryHeader: only ASCII blanks are trimmed, where the source also trims those of Unicode.
- CacheKeys.FaithfulIff: not for every list with repeated names; `OneNameIsFaithful` and `NeighboursClash` cover the lists of one name and those with two neighbours that occur once.
- ResponseCache: the gate that lets requests with other methods or with no-store or no-cache past the cache, parsing of Cache-Control, conditional requests and the replay of headers.
