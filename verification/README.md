# Verified model of the gateway data plane

This project models the decision-making core of the Nantian gateway data plane and proves what that
core is for. It covers seven components.

- **Circuit breaker** (`CircuitBreaker`, `BreakerLimits`). A concurrent protocol. Every atomic action
  of a request is one step, a run is any interleaving, and semaphores carry an explicit reference
  count.
- **HTTP route selection** (`Ranking`, `HttpRoutes`, `HttpPrecedence`, `HttpIndexes`, `HttpCandidates`,
  `HostnameIndex`, `HttpFastPath`, `HttpSelection`). The compiled plan, the indexes it runs on, and the
  generic selection it stands in for. The answer is stated on host names and matches, without plan,
  index or score.
- **Stream route selection** (`StreamRoutes`, `StreamSelect`, `StreamPrecedence`, `StreamAgreement`) and
  the backend **service index** (`ServiceIndex`). A compiled form against a scan, with the exact
  condition for agreement, and the answer of both in terms of server names.
- **Rate limits** (`SlidingWindow`, `TenantQuota`, `QuotaBounds`, `QuotaReached`, `QuotaExact`,
  `History`). Bounds over every window of every run, exactly which limits have them, and exactly when
  they are reached.
- **Endpoint health** (`EndpointHealth`, `EndpointStore`, `EndpointLinear`). The ejection automaton
  against its history, and the sharded store against one map: every concurrent run is linearisable.
- **TLS preface** (`Sni`, `Preface`). The ClientHello parser against an encoder, in both directions,
  and the chunked reader that feeds it.
- **Listener reconciliation** (`ListenerReconcile`) and **runtime ids** (`RuntimeId`).

Code that updates fields or loops over local variables is a class or a method here, proved against a
function of the old state; the theorems are about those functions and about runs of them.

## Conventions

- Strings are the bytes of their UTF-8 form, one `char` per byte, as the source compares and cuts them.
  The one exception is the text of a runtime id, a sequence of code points, because it is trimmed by
  Unicode white space.
- Instants and durations are natural numbers of nanoseconds; a run has a clock that never goes back.
- Token counts, limits and quotas are u64 (`Ints.u64`). Unsigned sums that saturate in the source
  saturate here; wrapping multiplication wraps.
- Which endpoint of a usable backend is taken depends on ticket counters and health. Backend
  availability is a parameter (`World.available`), stream backend resolution is an abstract partial
  function that gives nothing for no references, and regular expressions and UTF-8 validity are
  abstract predicates.
- A load of the endpoint counter gives its latest value. The source asks for a relaxed load, which may
  lag behind on a weakly ordered machine.
- Automatic induction is off for every lemma: an inductive proof is the recursion in its body.
- A spawn that fails, a read that fails or times out, and the set of finished tasks are parameters.

## What does not hold

Where a property one would expect fails, a lemma shows it on a concrete input, or the theorem states
the exact condition.

- A lowered breaker limit is not applied to a semaphore that is in the map: the old limit can still be
  used in full (`LoweredLimitExceeded`). Runs that never lower a backend's limit stay within it exactly
  from the states whose semaphore is no larger and for which no pending request can still create a
  larger one (`StaysWithinLimitIff`). Clean-up compares the limit the permit remembers with the free
  permits, so a changed limit is not applied until it returns to the old value (`StaleForever`,
  `CleanupRemovesExactly`).
- A token limit equal to the largest u64 is not a limit, because the saturated sum never exceeds it,
  unless another limit stands in: a smaller hour limit for the minute, or a minute limit that fits
  sixty times for the hour (`TotalsExactIff`). For tenant quotas the stand-ins are a smaller day quota
  or one request a minute, and a minute quota that fits 1441 times into two day quotas
  (`QuotaAtMostDoubledIff`, `LargestQuotaNeverRefuses`). Whether a check is decided by what was admitted
  has its own exact condition (`AcceptedExactlyIff`).
- The wait suggested by a refused check is cut to whole seconds while the window is closed, so a retry
  after it still finds the oldest request (`RetryIsTooEarly`) unless less than a second was left
  (`RetryAfterExact`).
- A request to a bracketed IPv6 literal does not score a route with that very host name, because the
  host is normalised more than once (`LiteralDoesNotScoreItself`; `OwnHostScores` has the condition).
- A request failure after an expired ejection clears the verdict of the active probe
  (`VerdictLostToAFailure`; `FailureClearsProbeVerdict` says after which histories).
- The early exit of success recording passes over a state that an operation in flight has just
  inserted (`SkipLosesExactly`, `InFlightSkipLoses`). No caller can tell: that success has its place
  before the insertion in an order of all calls (`SkippedSuccessLinearises`, `EveryRunLinearises`).
- Replacing listeners with nothing to do reports no retained listener (`UnchangedIsNotReported`,
  `ReportCoversActiveIff`). The reconciling loop never asks for that: it replaces only where a reload
  is needed, and then the report is complete (`NeededReloadIsCovered`).
- Of two clusters for one service the index has the last and the scan the first
  (`IndexAgreesWithScanIff`, `DuplicateClustersDisagree`).
- The compiled stream selection differs from the scan on equal scores attached out of order, on kinds
  spelled `TCPRoute`, `UDPRoute` or `TLSRoute`, and on listeners that share a name (the three
  `...Disagrees` lemmas). `SelectionsAgreeIff` states, on names, kinds and attachments alone, exactly
  which listeners get the same answer for all rules, connections and backends.
- A ClientHello record longer than 4096 bytes gives no server name (`Preface.ReadPreface`).
- The comment on `route_accepts_service_frontend` (crates/ntgw-ir/src/mesh.rs) describes a check, but
  the function accepts every route; the model follows the code and has no such check.
- Host names are matched without regard to case by the hostname index, but exact host names are scored
  byte by byte: a route for `Example.com` is a candidate for `example.com` and never wins it
  (`CaseMattersForTheScore`; `ScoresExactly` has the exact condition).

## Model

| member | source | states |
|---|---|---|
| CircuitBreaker.StepKeepsInv | crates/ntgw-observability/src/circuit_breaker.rs:91-216 | Every atomic step of every request and every limit change keeps the invariant: all handles are on the semaphore in the map, the strong count is the number of handles, free plus taken permits is the capacity, and the statistics are exact. |
| CircuitBreaker.RunKeepsInv | crates/ntgw-observability/src/circuit_breaker.rs:72-216 | The invariant holds after every interleaving from the initial state. |
| CircuitBreaker.PermitsBounded | crates/ntgw-observability/src/circuit_breaker.rs:91-126 | In every interleaving, with semaphores removed and re-created and limits changed, all live permits of a backend belong to the semaphore now in the map and with its free permits make up its capacity; without an entry no permit is live. |
| CircuitBreaker.StatisticsExact | crates/ntgw-observability/src/circuit_breaker.rs:151-172 | The in-flight statistic is live permits plus uncounted releases minus uncounted acquisitions; rejection totals equal the sum by name; a pending release always finds a positive count. |
| CircuitBreaker.RefusalsExact | crates/ntgw-observability/src/circuit_breaker.rs:106-172 | In every interleaving the refusals counted for a backend, with those about to be, are the requests of the run that asked for a permit and found none; the totals are the sum over all backends. |
| CircuitBreaker.ReleaseFindsItsCount | crates/ntgw-observability/src/circuit_breaker.rs:204-216 | No decrement meets a missing or zero statistic. |
| CircuitBreaker.QuiescentStatistic | crates/ntgw-observability/src/circuit_breaker.rs:156-164 | At quiescence the statistic is the number of live permits. |
| BreakerLimits.ConfiguredLimitHolds | crates/ntgw-observability/src/circuit_breaker.rs:91-134 | From every state whose semaphore is within the limit and no pending request can enlarge it, no interleaving that does not lower the backend's limit exceeds it, other limits changing at will. |
| BreakerLimits.StaysWithinLimitIff | crates/ntgw-observability/src/circuit_breaker.rs:91-202 | From any state of the invariant that condition is exact: if it fails, some interleaving that changes no limit exceeds the limit. |
| CircuitBreaker.CleanupRemovesExactly | crates/ntgw-observability/src/circuit_breaker.rs:174-190 | The last permit's clean-up removes the entry exactly when no request has a handle and the remembered limit is the capacity. |
| CircuitBreaker.AdmissionExact | crates/ntgw-observability/src/circuit_breaker.rs:106-125 | A permit is granted exactly while fewer permits are live than the capacity of the semaphore in the map. |
| CircuitBreaker.BeginsUnderLastSet | crates/ntgw-observability/src/circuit_breaker.rs:91-144 | In every run a new request goes without a permit exactly when it has no name or the limit set last for it is zero; otherwise it asks under that limit. |
| CircuitBreaker.StaleForever | crates/ntgw-observability/src/circuit_breaker.rs:174-202 | A semaphore whose limit changed while in use keeps its capacity in every run in which the limit does not return. |
| BreakerLimits.LoweredLimitExceeded | crates/ntgw-observability/src/circuit_breaker.rs:136-144 | For every backend and every limit lowered to a smaller positive one there is a run in which the old limit is used in full. |
| BreakerLimits.Fill | crates/ntgw-observability/src/circuit_breaker.rs:91-126 | From every state new requests can take all free permits of the semaphore in the map, whatever the limit is by now. |
| BreakerLimits.Remove | crates/ntgw-observability/src/circuit_breaker.rs:174-202 | Every semaphore that is not stale can be driven out of the map while a given pending request waits. |
| SlidingWindow.SlidingWindowState.PruneTokenWindow | crates/ntgw-ai/src/ratelimit.rs:98-114 | The pruning loop drops entries and lowers the running total as the specification does. |
| SlidingWindow.SlidingWindowState.PruneWindow | crates/ntgw-ai/src/ratelimit.rs:73-96 | Pruning of all three deques in place. |
| SlidingWindow.SlidingWindowState.Check | crates/ntgw-ai/src/ratelimit.rs:119-161 | The new window and the answer (allowed with what remains, or limited with the wait) are those of the specification. |
| SlidingWindow.SlidingWindowState.RecordTokens | crates/ntgw-ai/src/ratelimit.rs:164-201 | The same for recording tokens against the minute and the hour. |
| SlidingWindow.PruneTokensDrops | crates/ntgw-ai/src/ratelimit.rs:98-114 | From an exact total, pruning leaves an exact total: no subtraction saturates. |
| SlidingWindow.DropKeepsWindow | crates/ntgw-ai/src/ratelimit.rs:73-114 | What pruning keeps sums to exactly what the full history has in the window. |
| SlidingWindow.AdmissibleBoundsEveryWindow | crates/ntgw-ai/src/ratelimit.rs:119-201 | Room at every recording instant means room in every closed window, wherever it ends. |
| SlidingWindow.RunKeepsInv | crates/ntgw-ai/src/ratelimit.rs:58-201 | After every run the deques and totals agree with the full history of what was admitted. |
| SlidingWindow.RequestRateBounded | crates/ntgw-ai/src/ratelimit.rs:119-161 | In every run and for every instant t, the requests admitted in the closed minute ending at t are at most the limit. |
| SlidingWindow.TokenRateBounded | crates/ntgw-ai/src/ratelimit.rs:164-201 | The same for tokens, over every closed minute and every closed hour. |
| SlidingWindow.TotalsExact | crates/ntgw-ai/src/ratelimit.rs:84-114 | After every operation each running total is the sum of its deque and of the history in its window, and within the limit. |
| SlidingWindow.TotalsExactIff | crates/ntgw-ai/src/ratelimit.rs:164-201 | For all limits: an enabled minute total is exact in every run if and only if its limit, or that of an enabled hour, is below the largest u64; an enabled hour total if and only if its limit is, or an enabled minute limit fits into it sixty times. |
| SlidingWindow.HourFromMinutes | crates/ntgw-ai/src/ratelimit.rs:73-201 | Sixty closed minutes cover a closed hour, so a minute limit bounds every hour by sixty times its value. |
| SlidingWindow.CheckAdmitsExactly | crates/ntgw-ai/src/ratelimit.rs:119-161 | After every run a check is admitted exactly when the full history leaves room in every enabled window. |
| SlidingWindow.RecordAcceptsExactly | crates/ntgw-ai/src/ratelimit.rs:164-201 | Tokens are accepted exactly when they fit into every enabled window of the full history. |
| SlidingWindow.CheckRemainderExact | crates/ntgw-ai/src/ratelimit.rs:146-161 | The remainder in the answer is the least of what the history leaves of the limits that are on, the new request included, and the largest u64 where none is. |
| SlidingWindow.RecordRemainderExact | crates/ntgw-ai/src/ratelimit.rs:191-201 | The same for tokens. |
| SlidingWindow.RetryAfterExact | crates/ntgw-ai/src/ratelimit.rs:138-145 | In every run in which the request limit refuses a check, a retry after the suggested wait is admitted if and only if the oldest request of the minute had less than a second left. |
| SlidingWindow.WaitExact | crates/ntgw-ai/src/ratelimit.rs:119-146 | The wait of every refused check of every run: one second where the accepted tokens of the minute or the hour refuse it, otherwise the whole seconds left of the minute of the first request admitted in it, at least one. |
| SlidingWindow.RecordWait | crates/ntgw-ai/src/ratelimit.rs:164-180 | Refused tokens are told to wait one second. |
| SlidingWindow.RetryIsTooEarly | crates/ntgw-ai/src/ratelimit.rs:138-145 | A run with one request a minute in which the retry after the suggested sixty seconds is refused. |
| SlidingWindow.RefusalOnlyPrunes | crates/ntgw-ai/src/ratelimit.rs:119-201 | A refused check or record changes nothing beyond pruning. |
| SlidingWindow.KeysIsolated | crates/ntgw-ai/src/ratelimit.rs:222-254 | A key's window, and the answer it gets, depend on that key's operations alone. |
| SlidingWindow.EveryKeyBounded | crates/ntgw-ai/src/ratelimit.rs:210-254 | The bounds hold for every key in every run over all keys. |
| SlidingWindow.ShortcutIsExact | crates/ntgw-ai/src/ratelimit.rs:222-256 | Answering at once where no limit applies makes no difference: in every run every answer is the one that the window of all operations on its key gives. |
| TenantQuota.TenantQuotaState.Consume | crates/ntgw-ai/src/multitenant.rs:49-83 | Consumption in place follows the specification, and a refusal only rolls expired windows. |
| TenantQuota.RunKeepsInv | crates/ntgw-ai/src/multitenant.rs:49-83 | In every run each counter is what was admitted since its last reset, and any interval of k windows holds at most one quota more for each window that fits in before the current one. |
| QuotaExact.AcceptedExactly | crates/ntgw-ai/src/multitenant.rs:49-83 | In every run a check is accepted exactly when what was admitted since the current minute and day began leaves room for it. |
| QuotaExact.AcceptedExactlyIff | crates/ntgw-ai/src/multitenant.rs:49-83 | For every tenant and quota that is so in all runs if and only if the requests are below the largest u64, the minute tokens are, or one request a minute or a day quota that fits twice keeps their counter from saturating, and the day tokens are, or a minute quota that fits 1441 times does. |
| TenantQuota.QuotaOverWindows | crates/ntgw-ai/src/multitenant.rs:49-83 | Any closed interval of k minutes (days) admits at most k + 1 times the quota, in every run over all tenants. |
| TenantQuota.QuotaAtMostDoubled | crates/ntgw-ai/src/multitenant.rs:49-83 | Any closed minute admits at most twice the minute quotas of tokens and requests, any closed day twice the daily quota. |
| QuotaReached.DoublingIsReached | crates/ntgw-ai/src/multitenant.rs:49-83 | For every tenant and quota, exactly when some run reaches twice the quota: for requests always; for minute tokens if and only if the day quota is off or not smaller; for day tokens if and only if the minute quota is off, lets a full day through in 720 minutes, or lets two through in 1441 where requests may share a minute or the day quota refuses nothing. |
| QuotaReached.AnyDayHalved | crates/ntgw-ai/src/multitenant.rs:49-83 | In every run any closed day falls into two parts that each hold at most one day quota. |
| QuotaBounds.LargestQuotaNeverRefuses | crates/ntgw-ai/src/multitenant.rs:49-83 | Where every enabled quota is the largest u64, n full requests in one instant are all admitted. |
| QuotaBounds.QuotaAtMostDoubledIff | crates/ntgw-ai/src/multitenant.rs:49-83 | For every tenant and quota, and for minute tokens, requests and day tokens each: the factor two bounds every run if and only if the quota is below the largest u64 or, for tokens, another quota stands in (a smaller day quota or one request a minute; a minute quota of which 1441 fit into two day quotas). |
| TenantQuota.CleanupExact | crates/ntgw-ai/src/multitenant.rs:134-142 | Every thousandth counted check drops exactly the states of tenants that are not registered. |
| TenantQuota.CleanupNeverDiscards | crates/ntgw-ai/src/multitenant.rs:134-174 | In every run the periodic clean-up discards no state. |
| EndpointHealth.EndpointRuntimeState.RecordFailure | crates/ntgw-ir/src/lib.rs:228-241 | The failure transition in place. |
| EndpointHealth.EndpointRuntimeState.RecordSuccess | crates/ntgw-ir/src/lib.rs:243-247 | The success transition, with the recovery latency. |
| EndpointHealth.EndpointRuntimeState.RecordActiveProbeSuccess | crates/ntgw-ir/src/lib.rs:266-270 | The transition of a probe success in place, and the latency it reports. |
| EndpointHealth.EndpointRuntimeState.RecordActiveProbeFailure | crates/ntgw-ir/src/lib.rs:249-260 | The probe failure transition. |
| EndpointHealth.RunIsExpected | crates/ntgw-ir/src/lib.rs:203-279 | After every trace the five fields are what the trace's current streak calls for. |
| EndpointHealth.EjectedExactly | crates/ntgw-ir/src/lib.rs:220-241 | Ejected at t exactly when the current streak has at least three failures and the last is under thirty seconds before t. |
| EndpointHealth.UnhealthyExactly | crates/ntgw-ir/src/lib.rs:249-264 | Probe-unhealthy exactly when a probe failure of the streak reached its threshold. |
| EndpointHealth.RecoveryExactly | crates/ntgw-ir/src/lib.rs:228-279 | Recovery is timed exactly while there is an ejection deadline or a probe verdict, from the first event that caused it. |
| EndpointHealth.LatencyExactly | crates/ntgw-ir/src/lib.rs:272-278 | After every trace a success reports a latency exactly when the streak has made the endpoint bad: the whole milliseconds since the first event that did, up to the largest u64, and zero where the clock is behind it. |
| EndpointHealth.FiveSecondsToRecover | crates/ntgw-ir/src/lib.rs:243-278 | Three failures and a success five seconds later report 5000 milliseconds. |
| EndpointHealth.FailureClearsProbeVerdict | crates/ntgw-ir/src/lib.rs:228-241 | After every trace whose probes have tripped in the current streak, one more failure clears the verdict if and only if the streak has three failures and the cool-down of the last has passed. |
| EndpointHealth.VerdictLostToAFailure | crates/ntgw-ir/src/lib.rs:228-241 | A trace at which a failure clears the verdict. |
| EndpointStore.StepKeepsInv | crates/ntgw-ir/src/endpoint_runtime.rs:244-294 | Entering a shard, changing it, adjusting the counter and leaving all keep the store's invariant. |
| EndpointStore.CounterExact | crates/ntgw-ir/src/endpoint_runtime.rs:235-294 | In every interleaving counter plus pending adjustments is the number of entries, the counter is never negative, and no default state is stored. |
| EndpointStore.ShardsRefineOneMap | crates/ntgw-ir/src/endpoint_runtime.rs:268-294 | Every key has the state that replaying the changes on one plain map gives, and is stored in its own shard only. |
| EndpointStore.SkipLosesExactly | crates/ntgw-ir/src/endpoint_runtime.rs:244-266 | With the counter at zero, a success for a key passes over a stored state exactly when an operation has inserted that key and not counted it yet. |
| EndpointStore.SkippedSuccessLinearises | crates/ntgw-ir/src/endpoint_runtime.rs:244-294 | Every skipped success has its place after all changes made, except that the insertion still in flight comes after it; that order leads to the present state of every key. |
| EndpointLinear.EveryRunLinearises | crates/ntgw-ir/src/endpoint_runtime.rs:150-294 | In every interleaving of changes, reads, successes and look-ups that stop at a zero counter, from any store as built, all calls have one order that agrees with real time, in which each sees exactly the state that the earlier ones left, and that leads to the state of every key. |
| EndpointLinear.AdvanceKeeps | crates/ntgw-ir/src/endpoint_runtime.rs:244-294 | Every step of a run leaves such an order; a call that stops early while its key is being inserted goes before the insertion, which moves to the end. |
| EndpointLinear.TraceIsRun | crates/ntgw-ir/src/snapshot/backend_resolution/resolution.rs:629-651 | Reads and calls that stop early leave the store as the run of its other steps has it. |
| EndpointStore.QuiescentSkipIsSafe | crates/ntgw-ir/src/endpoint_runtime.rs:170-176 | With nothing in flight the early exit skips nothing. |
| EndpointStore.InFlightSkipLoses | crates/ntgw-ir/src/endpoint_runtime.rs:244-266 | A run in which the early exit passes over a state just inserted. |
| EndpointStore.FromMap | crates/ntgw-ir/src/endpoint_runtime.rs:216-242 | A store built from a map holds and counts exactly its entries. |
| EndpointStore.InheritForBackends | crates/ntgw-ir/src/endpoint_runtime.rs:150-168 | The next snapshot's store holds and counts exactly the states seen by the look-ups, although the old store may change between them. |
| EndpointStore.InheritedWasSeen | crates/ntgw-ir/src/endpoint_runtime.rs:150-172 | An inherited state was the endpoint's when it was looked up, and an endpoint is left out exactly when every look-up found it healthy. |
| EndpointStore.InheritedAtOnce | crates/ntgw-ir/src/endpoint_runtime.rs:150-168 | If the store does not change meanwhile, exactly the endpoints still configured keep their state. |
| RuntimeId.WriteBytes | crates/ntgw-ir/src/runtime_id.rs:398-404 | The byte loop is the FNV-1a fold. |
| RuntimeId.StableRuntimeId | crates/ntgw-ir/src/runtime_id.rs:388-396 | The id is the fold of the length-prefixed stream, never zero. |
| RuntimeId.MixOfZero | crates/ntgw-ir/src/runtime_id.rs:398-404 | A zero byte multiplies the hash by the FNV prime modulo two to the sixty-fourth. |
| RuntimeId.MixIntoZero | crates/ntgw-ir/src/runtime_id.rs:398-404 | A byte that meets a zero hash is multiplied by the prime: the exclusive or comes first. |
| RuntimeId.IdOfNothing | crates/ntgw-ir/src/runtime_id.rs:388-396 | Without parts the id is the FNV offset basis. |
| RuntimeId.StreamInjective | crates/ntgw-ir/src/runtime_id.rs:388-396 | Different part lists are hashed as different byte streams. |
| RuntimeId.FoldInjectiveInSeed | crates/ntgw-ir/src/runtime_id.rs:398-404 | For fixed bytes the fold is injective in its seed modulo 2^64. |
| RuntimeId.OneByteNeverCollides | crates/ntgw-ir/src/runtime_id.rs:398-404 | Streams of equal length that differ in one byte have different hashes. |
| RuntimeId.OneByteChangesId | crates/ntgw-ir/src/runtime_id.rs:388-404 | One changed byte of one part changes the hash, and the id unless the two hashes are zero and one. |
| RuntimeId.PrintParse | crates/ntgw-ir/src/runtime_id.rs:20-34 | Every id survives printing and parsing. |
| RuntimeId.ParsePrint | crates/ntgw-ir/src/runtime_id.rs:20-34 | Accepted text prints back as itself, trimmed and in lower case. |
| RuntimeId.ParseHexExact | crates/ntgw-ir/src/runtime_id.rs:20-34 | The accepted texts are exactly the sixteen digits of an id in either case, between any white space. |
| RuntimeId.SpaceExactly | crates/ntgw-ir/src/runtime_id.rs:20-21 | White space is that of Unicode. |
| Text.CountDigits | crates/ntgw-ir/src/snapshot/helpers.rs:47-54 | The digit-counting loop. |
| Text.ParseDecimalPort | crates/ntgw-ir/src/snapshot/helpers.rs:56-75 | The checked parsing loop. |
| Text.ParsePortExact | crates/ntgw-ir/src/snapshot/helpers.rs:56-75 | A port is accepted exactly in canonical decimal form within u32. |
| Text.LowerExactly | crates/ntgw-ir/src/matching.rs:219-228 | Lower case maps the 26 ASCII capitals and nothing else. |
| ServiceIndex.ServiceKeyExact | crates/ntgw-ir/src/snapshot/helpers.rs:19-23 | A cluster name gives a service and port exactly when it is the service, a colon and the canonical port. |
| ServiceIndex.BackendServiceIndex.Insert | crates/ntgw-ir/src/types.rs:289-304 | Inserting is an update of the map from (namespace, name, port), with no duplicate entries. |
| ServiceIndex.BackendServiceIndex.InsertInto | crates/ntgw-ir/src/types.rs:330-350 | The single-to-list bucket update refines the map update and disturbs no other entry. |
| ServiceIndex.BackendServiceIndex.IndexFor | crates/ntgw-ir/src/types.rs:352-360 | Look-up is look-up in the map. |
| ServiceIndex.BackendServiceIndex.UniqueNamespace | crates/ntgw-ir/src/types.rs:362-377 | The namespace of a name and port if exactly one has it. |
| ServiceIndex.Rebuild | crates/ntgw-ir/src/snapshot.rs:40-47 | The index built from the clusters is the last-wins map. |
| ServiceIndex.LastWinsExact | crates/ntgw-ir/src/snapshot.rs:40-47 | It leads to the last cluster that serves the key, and only to such. |
| ServiceIndex.ScanFor | crates/ntgw-ir/src/snapshot.rs:705-708 | The scan finds the first such cluster. |
| ServiceIndex.IndexAgreesWithScanIff | crates/ntgw-ir/src/snapshot.rs:692-709 | Index and scan agree if and only if no second cluster serves the key. |
| ServiceIndex.DuplicateClustersDisagree | crates/ntgw-ir/src/snapshot.rs:692-709 | Two equal clusters on which they differ. |
| ServiceIndex.UniqueNamespaceByScan | crates/ntgw-ir/src/snapshot.rs:1065-1085 | The scanning loop gives the only serving namespace, if there is one only. |
| ServiceIndex.UniqueNamespaceAgrees | crates/ntgw-ir/src/snapshot.rs:1065-1085 | Index and scan see the same namespaces, duplicates or not. |
| Sni.ParseServerNameExtension | crates/ntgw-stream/src/sni.rs:43-68 | The extension loop terminates, stays in bounds and finds the first server_name extension. |
| Sni.ParseServerNameList | crates/ntgw-stream/src/sni.rs:70-85 | The same for the first host_name entry. |
| Sni.ExtractServerName | crates/ntgw-stream/src/sni.rs:6-10 | The whole parser, on arbitrary input. |
| Sni.PacketReadBack | crates/ntgw-stream/src/sni.rs:6-99 | Every well-formed ClientHello, with any session id, ciphers, compression and any other extensions and names in front, is read back to exactly its first host name. |
| Sni.PacketRead | crates/ntgw-stream/src/sni.rs:6-99 | Whatever yields a name is the encoding of such a packet. |
| Sni.ExtractExact | crates/ntgw-shared-tls/src/preface.rs:45-138 | Both directions: the inputs that give a name are exactly the encodings of packets with that name. |
| Sni.RecordTags | crates/ntgw-stream/src/sni.rs:12-41 | A name is only read from a handshake record (22) with a ClientHello (1). |
| Sni.ExtensionTag | crates/ntgw-stream/src/sni.rs:43-68 | The first extension of type 0 is the server name; others are passed over by their length. |
| Sni.NameTag | crates/ntgw-stream/src/sni.rs:70-85 | The first name of type 0 is the host name; others are passed over by their length. |
| Sni.NoServerName | crates/ntgw-stream/src/sni.rs:6-85 | A packet with a well-formed ClientHello gives no name exactly when its extensions include no complete server_name or the first one has no complete host_name. |
| Sni.OnlyTheRecordMatters | crates/ntgw-stream/src/sni.rs:12-28 | Bytes after the first record do not matter. |
| Preface.ReadPreface | crates/ntgw-stream/src/tcp.rs:617-656 | For every way of cutting the stream into reads the result is a prefix of at most 4096 bytes, no longer than the last read needed, that gives the same server name as the whole stream, unless the first record is longer than that; an error or a time-out is reported only where a read ends so. |
| Preface.DeliversAny | crates/ntgw-stream/src/tcp.rs:617-656 | The reads of the model are all that are possible: any number of bytes that fit and are there, none only at the end. |
| ListenerReconcile.CollectByName | crates/ntgw-stream/src/listener_plan.rs:46-53 | The desired listeners by name, the later of two winning. |
| ListenerReconcile.ListenerUpdates | crates/ntgw-stream/src/listener_plan.rs:40-83 | Exactly the listeners that must stop and start are listed, each once. |
| ListenerReconcile.ListenerSet.NeedsReload | crates/ntgw-stream/src/lib.rs:210-223 | True exactly when the plan is not empty. |
| ListenerReconcile.ListenerSet.StartAll | crates/ntgw-stream/src/lib.rs:265-320 | Starts with partial failure: the rest keep running, failures and starts are reported once each. |
| ListenerReconcile.ListenerSet.Replace | crates/ntgw-stream/src/lib.rs:225-333 | Afterwards exactly the desired listeners run, less the failed starts; a live unchanged listener is the same task unless forced. |
| ListenerReconcile.ReportCoversActiveIff | crates/ntgw-stream/src/lib.rs:241-333 | Started plus retained is active exactly when there was something to do or nothing runs. |
| ListenerReconcile.NeededReloadIsCovered | crates/ntgw-stream/src/lib.rs:127-131 | Where a reload is needed, started plus retained is active. |
| ListenerReconcile.UnchangedIsNotReported | crates/ntgw-stream/src/lib.rs:241-333 | One listener that runs unchanged stays active and is not reported. |
| ListenerReconcile.NextPlanRetriesFailures | crates/ntgw-stream/src/listener_plan.rs:40-83 | The next unforced plan stops exactly the listeners whose task has finished since, and starts those and exactly the failed ones. |
| ListenerReconcile.RoundsConverge | crates/ntgw-stream/src/lib.rs:225-333 | After any number of rounds, with tasks finishing in between, forced rounds and failing starts, exactly the desired listeners run, less those that had to be started at some round and have failed in every round since. |
| Hostname.NormalizeFixed | crates/ntgw-ir/src/matching.rs:234-239 | Normalising leaves a host alone exactly when it has no colon and no leading bracket. |
| Hostname.NormalizeWithPort | crates/ntgw-ir/src/matching.rs:234-239 | It drops a port. |
| Hostname.NormalizeBracketed | crates/ntgw-ir/src/matching.rs:234-239 | It drops brackets and what follows them. |
| Hostname.SuffixInLowerCase | crates/ntgw-ir/src/matching.rs:219-228 | A wildcard covers a host exactly when some suffix after a dot equals it in lower case. |
| Hostname.StripWildcardExact | crates/ntgw-ir/src/matching.rs:219-228 | A wildcard is exactly a name that starts with "*.". |
| HostnameIndex.Build | crates/ntgw-ir/src/snapshot/helpers.rs:198-225 | The index lists for every bucket the routes pushed to it, in order. |
| HostnameIndex.PushedExact | crates/ntgw-ir/src/snapshot/helpers.rs:198-225 | A bucket's list is ascending and names exactly the routes with a host name of that bucket. |
| HostnameIndex.NextCandidate | crates/ntgw-ir/src/types.rs:157-204 | The merge step gives the least candidate past the last one. |
| HostnameIndex.CandidatesExact | crates/ntgw-ir/src/types.rs:157-190 | The candidates are exactly the routes a scan accepts: no host names, or one that covers the host without regard to case. |
| HostnameIndex.CandidateIndices | crates/ntgw-ir/src/types.rs:132-146 | Visiting terminates and is strictly ascending, free of duplicates and equal to the scan. |
| HttpIndexes.BuildPortIndex | crates/ntgw-ir/src/snapshot.rs:546-595 | The port index lists exactly the HTTP listeners of each port, in order. |
| HttpIndexes.FromListeners | crates/ntgw-ir/src/types.rs:216-241 | The attachment index lists for every route exactly the listeners that attach it, in order and once each. |
| Ranking.MaxScoreExact | crates/ntgw-ir/src/http_fast_path.rs:612-625 | The best host score of a list: the greatest, if any scores. |
| HttpRoutes.OwnHostScores | crates/ntgw-ir/src/http_fast_path.rs:627-642 | A request for a route's own host scores it exactly when the normalised host has no colon and no leading bracket. |
| HttpRoutes.LiteralDoesNotScoreItself | crates/ntgw-ir/src/http_fast_path.rs:627-642 | A route for `[::1]` is not scored by a request for `[::1]`. |
| HttpRoutes.PrefixMatchesSegments | crates/ntgw-ir/src/http_fast_path.rs:688-701 | A path prefix matches exactly at segment boundaries. |
| HttpFastPath.WithoutQueryExact | crates/ntgw-ir/src/http_fast_path.rs:711-713 | The path is cut at the first question mark. |
| HttpFastPath.QueryReads | crates/ntgw-ir/src/http_fast_path.rs:276-290 | A request is read without the port of its host and without its query string. |
| HttpFastPath.QueryKeeps | crates/ntgw-ir/src/http_fast_path.rs:276-290 | A request with neither is read as it is. |
| HttpRoutes.ScoresExactly | crates/ntgw-ir/src/http_fast_path.rs:627-642 | A host name scores a host exactly when it covers it and, unless it is a wildcard, is written in the same case; so the index passes over no scoring route. |
| HttpRoutes.CaseMattersForTheScore | crates/ntgw-ir/src/http_selection/scoring.rs:110-125 | `Example.com` covers `example.com` without scoring it. |
| Ranking.LastBestExact | crates/ntgw-ir/src/http_fast_path.rs:644-661 | The best match of a rule, the last among equals. |
| HttpCandidates.CandidateListeners | crates/ntgw-ir/src/http_fast_path.rs:540-564 | By scan or by index, exactly the HTTP listeners of the port, in order. |
| HttpCandidates.MatchedListeners | crates/ntgw-ir/src/http_fast_path.rs:502-538 | Exactly the candidate listeners that none beats on the host, and whether attachment is enforced. |
| HttpCandidates.RouteListenerMatch | crates/ntgw-ir/src/http_fast_path.rs:566-610 | By scan or by index, the last of those that attach the route. |
| HttpFastPath.WeightedRefsExact | crates/ntgw-ir/src/http_fast_path.rs:466-478 | References compile when every one with weight leads to a backend, and exactly those are kept. |
| HttpFastPath.CompileRules | crates/ntgw-ir/src/http_fast_path.rs:186-219 | Exactly the eligible rules are compiled, in order, and safety is the safety of all rules. |
| HttpFastPath.HarmlessExactly | crates/ntgw-ir/src/http_fast_path.rs:424-500 | A rule does not stand in the way of the plan exactly when it has no timeouts, retries, sessions, filters, header or query conditions, and every reference with weight is plain and leads to a backend. |
| HttpFastPath.Build | crates/ntgw-ir/src/http_fast_path.rs:170-241 | The plan holds exactly the routes with eligible rules, finds them by route index, and is safe exactly when every rule is. |
| HttpFastPath.CompiledRuleAgrees | crates/ntgw-ir/src/http_fast_path.rs:443-478 | A compiled rule matches, scores and offers backends as the rule it came from. |
| HttpFastPath.CandidateRoutes | crates/ntgw-ir/src/http_fast_path.rs:391-421 | With or without the index, compiled routes are visited in route order and no route that scores the host is passed over. |
| HttpFastPath.TakeRule | crates/ntgw-ir/src/http_fast_path.rs:319-372 | One visit keeps the best rule so far, or gives up when the rule taken is blocked. |
| HttpFastPath.Select | crates/ntgw-ir/src/http_fast_path.rs:276-389 | An answer is the rule that precedes all others that qualify, by the host names of listener and route, then by its matches, then by place (`HttpPrecedence.Answered`); there is none exactly when the plan may not be used, nothing matches, or a rule taken on the way needs backend TLS or has no usable backend. |
| Ranking.PassedStep | crates/ntgw-ir/src/http_fast_path.rs:333-372 | Visiting a rule keeps the best one, replaces it only by a strictly greater score, and gives up exactly at a blocked record. |
| Ranking.OutcomeUnique | crates/ntgw-ir/src/http_fast_path.rs:276-389 | That outcome is unique. |
| HttpPrecedence.WinsExactly | crates/ntgw-ir/src/http_selection/scoring.rs:39-133 | In either selection a rule wins exactly when it qualifies and precedes every rule that does: the more specific host names of the listener, then of the route, then an exact path before a regular expression before a prefix, the longer path, a named method and, in the generic selection, more headers and more query parameters, then the lowest route and the earliest rule. |
| HttpPrecedence.HostLessIsSpecific | crates/ntgw-ir/src/http_fast_path.rs:612-642 | The host itself is preferred to a wildcard, a longer wildcard to a shorter one, and any name to none. |
| HttpPrecedence.RuleLessIsPreferred | crates/ntgw-ir/src/http_fast_path.rs:644-709 | A rule scores higher exactly when it has a match that is met and preferred to all matches of the other rule that are. |
| HttpPrecedence.AcceptsIffMeets | crates/ntgw-ir/src/http_fast_path.rs:663-701 | A match accepts a request exactly when path, method and, in the generic selection, headers and query parameters are met; a prefix is met by itself and by what lies below it. |
| HttpPrecedence.ReportedPath | crates/ntgw-ir/src/http_fast_path.rs:644-661 | The answer reports the path of the last of the most preferred matches that are met. |
| HttpPrecedence.TopIsMostSpecific | crates/ntgw-ir/src/http_fast_path.rs:502-538 | The matched listeners are those that cover the host with the most specific names. |
| HttpPrecedence.ListenerReaches | crates/ntgw-ir/src/http_fast_path.rs:566-610 | A route is reached through the last matched listener that lists it as namespace and name. |
| HttpSelection.RebuildIndexes | crates/ntgw-ir/src/snapshot.rs:27-71 | Rebuilding establishes every index and the plan. |
| HttpSelection.Select | crates/ntgw-ir/src/http_selection/selection.rs:23-164 | The generic selection answers the rule that precedes all others that qualify, and nothing exactly when none does. |
| HttpSelection.MatchingAgrees | crates/ntgw-ir/src/http_selection/scoring.rs:39-125 | On a configuration the plan may serve, both selections rank the same rules with the same scores. |
| HttpSelection.FastIsGeneric | crates/ntgw-ir/src/http_selection/selection.rs:23-164 | An answer of the compiled selection is the generic answer: same route, rule, listener and path, with a usable backend. |
| HttpSelection.SelectBoth | crates/ntgw-ir/src/snapshot.rs:343-348 | The two methods side by side give the same answer whenever the compiled one answers. |
| HttpSelection.SelectUnindexed | crates/ntgw-ir/src/http_fast_path.rs:391-421 | The compiled selection has the same outcome with its indexes and without them. |
| StreamRoutes.BestExact | crates/ntgw-ir/src/stream_fast_path.rs:135-158 | A pass finds the first of the best candidates. |
| StreamSelect.BuildListenerRouteIndex | crates/ntgw-ir/src/snapshot/helpers.rs:227-253 | The index holds, under each listener name, the attached routes of the last listener so named that has any. |
| StreamSelect.BuildPlan | crates/ntgw-ir/src/stream_fast_path.rs:42-88 | The compiled routes and rules. |
| StreamSelect.CompiledOffersExact | crates/ntgw-ir/src/stream_fast_path.rs:48-80 | Leaving out rules without a backend leaves out no candidate. |
| StreamRoutes.CompileRefsExact | crates/ntgw-ir/src/stream_fast_path.rs:42-88 | Each reference is compiled by itself, in order, and stays exactly when it has weight and leads to a backend. |
| StreamSelect.SelectCompiled | crates/ntgw-ir/src/stream_fast_path.rs:102-182 | The best candidate of the routes in the index entry, in its order. |
| StreamSelect.SelectScanned | crates/ntgw-ir/src/snapshot.rs:491-535 | The best candidate of the attached routes, in route order. |
| StreamSelect.SelectForListener | crates/ntgw-ir/src/snapshot.rs:469-544 | The routed backend, else the default backend where allowed, on either path. |
| StreamPrecedence.GivesExactly | crates/ntgw-ir/src/matching.rs:97-135 | The answer of either selection is the backend of the rule that goes first among the visited ones that take the connection and have a backend: an exact server name before a wildcard, a longer wildcard before a shorter one, any name before none, and the first visited among equals; the default is given exactly where none qualifies. |
| StreamPrecedence.RuleOrder | crates/ntgw-ir/src/matching.rs:97-135 | One rule scores higher than another exactly when its server names are more specific for the connection. |
| StreamAgreement.ScanOrderExact | crates/ntgw-ir/src/snapshot.rs:725-756 | The scan visits exactly the attached routes of the kind, in ascending order. |
| StreamAgreement.AgreeIff | crates/ntgw-ir/src/stream_fast_path.rs:115-159 | A visit finds the rule that an ascending visit finds, whatever the rules offer, if and only if it has the same routes and each new one comes after all visited before. |
| StreamAgreement.SelectionsAgreeIff | crates/ntgw-ir/src/snapshot.rs:469-544 | Both selections return the same route, rule, backend or default for all rules, connections and backends if and only if the listener is of another kind, or the routes visited through its index entry are its attached routes of the kind, each new one after all before. |
| StreamAgreement.RepetitionsDoNotMatter | crates/ntgw-ir/src/stream_fast_path.rs:115-159 | Visiting a route again changes nothing. |
| StreamAgreement.InOrderAgrees | crates/ntgw-ir/src/snapshot/helpers.rs:227-253 | A listener with its own entry, routes attached in order (repetitions allowed) and kinds in the short form gets the same answer from both, always. |
| StreamAgreement.UniqueNameOwnsEntry | crates/ntgw-ir/src/snapshot/helpers.rs:239-250 | A listener whose name is unique has its own entry. |
| StreamAgreement.AttachmentOrderDisagrees | crates/ntgw-ir/src/stream_fast_path.rs:115-159 | Two routes of equal rank attached in the other order: the compiled selection answers the second and the scan the first. |
| StreamAgreement.KindSpellingDisagrees | crates/ntgw-ir/src/stream_fast_path.rs:185-192 | A kind spelled in the long form: only the compiled selection answers the route. |
| StreamAgreement.SharedNameDisagrees | crates/ntgw-ir/src/snapshot/helpers.rs:239-250 | Two listeners of one name: the compiled selection answers the route of the other. |

## Left out

- HttpFastPath.Select: names route, rule, listener and matched path, not which endpoint of the rule's backends is taken, because that depends on ticket counters; runtime ids and annotations are copied data.
- HttpSelection.FastIsGeneric: the generic selection is given the once-normalised host and the port of the compiled request; taking the port from the authority is not modelled.
- HttpSelection.Select: one backend look-up serves both selections; sessions and consistent hashing enter only as what makes a rule unsafe for the plan.
- SlidingWindow.SlidingWindowState.Check: limits are given as integers; the burst factor that scales them is a floating-point product.
- CircuitBreaker.StepKeepsInv: backend names are taken as already trimmed.
- StreamSelect.BuildPlan: the route, rule and reference counters of the plan are not kept.
- ListenerReconcile.ListenerUpdates: lists are exact up to order; the order of the source's sorted maps is not modelled.
- EndpointStore.QuiescentSkipIsSafe: rests on the load of the counter giving its latest value, which a relaxed load does not promise (crates/ntgw-ir/src/endpoint_runtime.rs:245).
- EndpointLinear.EveryRunLinearises: takes the same of every load of the counter; a snapshot of all shards is not one call of the order, because the source takes their locks one after another.
- EndpointStore.StepKeepsInv: the recovery latency histogram is not modelled.
- HttpSelection.RebuildIndexes: whether a snapshot needs full headers or the source address is given, not computed from its policies.
- Choosing among stream listeners by server name, gRPC selection, request mirroring and misdirected-request detection.
- Weighted, rendezvous and consistent-hash choice of endpoints, and the ticket counters behind them.
- Pooling of connections, proxying, TLS handshakes, certificate parsing, UDP sessions and the configuration client: input and output around the modelled decisions.
- Content filters, cost accounting and the Wasm plug-ins: regular expressions, floating point and foreign code.
