# Verification model of the transport balancer

A Dafny 4.11 model of the three stateful parts of `alloy-transport-balancer`, with proofs about
every run, every interleaving and every answer of the network. Check it with
`dafny verify dfyconfig.toml`.

## What is modelled

**Batching** (`src/batching.rs`). `BatchRetry` is one `send_batch_with_retry`: the methods
`CollectPending`, `MatchResponses`, `ListEntries` and `SendBatchWithRetry` carry the loops of the
source and are proved against the functions `Collect`, `Match` and `After`. `BatchQueue` holds the
shared queue as a class with the two pushes of a caller and the drain, the loop that cuts a drain
into chunks, and the loop that awaits the answers of a batch call. `BatchProtocol` puts all of it
into one step system: handles, call futures, the flush task with its weak reference, the count of
strong references, spawned tasks, fallback semaphores. An event list is one interleaving; the events carry whatever the inner
transport answered and the order in which a hash map was iterated, so a statement about every event
list is a statement about every adversary. `BatchSafety`, `BatchTransparency` and `BatchProgress`
prove what holds in every reachable state. `BatchRefinement` shows that every trace of the method is
a run of its task in the step system, and `BatchTraces` the converse, that every task of every
interleaved run has done what the method does with the replies it received. `BatchAnswers` follows
an answer from there to the caller, and `BatchFallback` shows that ten individual sends can be in
flight.

**Selection and failover** (`src/lib.rs`). `WeightedSelection` builds the tables and selects by
binary search over a wrapping 64-bit counter. `RetryRotation` is the nested retry loop of `call`,
where an `Environment` supplies each single throttle reading, send and tick, so that no two
readings need to agree; every reading, also those of the look ahead, is numbered in the order in
which it is taken. `Permits` runs any number of calls against the per-endpoint semaphores.

**Throttle** (`src/throttle.rs`). `Throttle` is the per-domain state as a class, with closed forms
for sequences of calls. `ThrottleInterleaving` cuts the same operations into their atomic steps,
run by any number of threads with arbitrary clocks. `ThrottleRegistry` has the get-or-create
registry, both as interleaved lock phases and as a class, and the weighted average over it.

Durations are natural numbers of nanoseconds. Counters wrap at 2^32 and 2^64 as they do in a
release build, and the cast that truncates the decay quotient to 32 bits is written out.
A slot is a one-shot channel: the number of a request in the order in which requests were pushed.

## Where the code and its documentation disagree

The model follows the code.

- `src/batching.rs:130-131` and `README.md:375` promise a "missing response in batch" error. No path
  produces one: the last attempt always sends individually (`BatchRetry.IndividualsExactly`).
- `src/throttle.rs:39-47` describes one level per elapsed interval. Decay does not move the time of
  the last 429, so every further query subtracts again, and from 2^32 intervals on the quotient is
  cut to 32 bits (`Throttle.OneLevelPerIntervalExactly`, `Throttle.DocumentedDecayCounterexample`,
  `Throttle.FullDecayAlwaysExactly`, `Throttle.TruncatedDecayCounterexample`).
- `src/throttle.rs:372-373` describes a fallback to the maximum delay while nothing has succeeded.
  Untouched domains weigh 1, so there is none, and the result is cut to whole milliseconds
  (`ThrottleRegistry.AverageIsMaximumExactly`, `ThrottleRegistry.FallbackCounterexample`,
  `ThrottleRegistry.SubMillisecondCounterexample`).
- `src/throttle.rs:275` asks for `recovery_threshold` successes per level. With k threads inside
  `record_success`, k levels can cost only threshold + k - 1 successes
  (`ThrottleInterleaving.RecoveryBound`, `ThrottleInterleaving.RecoveryBoundAttained`,
  `ThrottleInterleaving.LevelsCostThresholdExactly`).
- With an initial backoff above the maximum, the first pause is not capped
  (`RetryRotation.PausesAsDocumented`).
- At the wrap of its counter the round robin is inexact unless the total weight divides 2^64
  (`WeightedSelection.ExactCyclesExactly`).
- Individual sends forward the inner answer without looking at its id
  (`src/batching.rs:278`, `src/batching.rs:357`, `src/batching.rs:423`), so transparency needs an
  inner transport that is truthful for single requests.

## Model

| member | source | states |
|---|---|---|
| BatchTransparency.Transparency | src/batching.rs:171-223 | For every run in which batch answers may drop, reorder, repeat or invent responses but never misrepresent a request, ids are distinct per chunk and no send fails: every call that returns yields exactly the inner answers to its own requests, in their order |
| BatchTransparency.TruthOrError | src/batching.rs:171-442 | The same without any assumption on failures or distinct ids: every call that returns an answer returns exactly the inner answers to its own requests; otherwise it returns an error |
| BatchTransparency.EveryCallIsAnswered | src/batching.rs:171-442 | When a truthful run without failures has no step left but polls, every call has returned the direct answer, unless its future was dropped |
| BatchTransparency.DeliveredTruly | src/batching.rs:378-389 | Matching by id against an arbitrary list of responses resolves each slot with the inner answer to the request of that slot |
| BatchTransparency.OutcomeTruly | src/batching.rs:189-219 | What a waiting call reads off its channels, single or batch, once it is complete equals the direct answer |
| BatchAnswers.ReturnedExactly | src/batching.rs:189-219 | In every reachable state what a call has returned is what was sent through its own channels: that very answer or error for a single request, all responses they carry in request order for a batch, or the first error after answers |
| BatchAnswers.ReceivedExactly | src/batching.rs:189-190 | In every reachable state the receiver of a slot yields exactly the answer that was sent for it |
| BatchAnswers.DroppedReadsAsGone | src/batching.rs:189-190 | In every reachable state a channel that was dropped with the shared state reads as a gone backend, and one that was neither used nor dropped as nothing |
| BatchAnswers.ForwardedUnchanged | src/batching.rs:278-279 | The reply to an individual send, answer or error, is what the receiver yields ever after, unchanged |
| BatchAnswers.CallsAreAsMade | src/batching.rs:171-176 | Every call has the packet it was made with |
| BatchSafety.ExactlyOnce | src/batching.rs:178-208 | In every reachable state each accepted slot is in exactly one place, once: queued, drained, in one task, answered, or dropped at shutdown; a slot that is answered is in no task |
| BatchSafety.ConservationHolds | src/batching.rs:255-290 | Whatever weight slots are given, the weight of queue, drain, tasks, answers and dropped requests stays the weight of everything accepted, whatever the inner transport returns |
| BatchSafety.InvariantHolds | src/batching.rs:245-442 | Ownership, order, shutdown, semaphore and call invariants survive every interleaving |
| BatchSafety.PushOrderKept | src/batching.rs:255-271 | Over a whole run the chunks, the rest of the drain, the queue and what was dropped are together the accepted requests in push order; each chunk has 1 to max_batch_size requests and the chunks are those of the drains |
| BatchSafety.FallbackIsBounded | src/batching.rs:351-360 | At most ten individual sends behind one fallback semaphore are in flight in any reachable state |
| BatchFallback.TenInFlight | src/batching.rs:351-360 | For every configuration with batches of ten or more, some run has ten individual sends of one batch in flight |
| BatchSafety.NeverBatchedFromStart | src/batching.rs:270-280 | With a maximal batch size of one nothing is ever batched: every task is a single send outside any semaphore, and the callback never runs |
| BatchSafety.ReferencesAreCounted | src/batching.rs:172-265 | In every reachable state the reference count, raised by clone, call and upgrade and lowered by drop, end of a call and drain, equals handles plus unfinished calls plus one while the flush task looks at the queue; at zero the queue is gone |
| BatchSafety.ShutdownAbandonsNobody | src/batching.rs:245-265 | If the flush task has exited, or a request was dropped with the shared state, then no handle and no unfinished call exists and nothing is queued; derived from the reference count the upgrade consults |
| BatchSafety.ExitIsReached | src/batching.rs:247-261 | From any state with a correct reference count and no handle or unfinished call, this stays so on every run; the flush task takes only a bounded number of further steps, one from an idle state, and has a step to take until it has exited |
| BatchProgress.NobodyIsStuck | src/batching.rs:171-292 | In every reachable state with an unfinished call some step other than an idle poll is enabled, whatever reply the inner transport has for each task |
| BatchProgress.AnythingGoes | src/batching.rs:112-223 | In every reachable state the model restricts neither callers nor the inner transport: handles may be cloned, dropped and used for any call, calls cancelled, and any reply may arrive, in any order of iteration |
| BatchProgress.WorkIsBounded | src/batching.rs:245-442 | In every schedule without new arrivals the number of steps that are not idle polls is bounded by a measure of the start state |
| BatchProgress.EffortStep | src/batching.rs:337-441 | Every internal step strictly decreases the remaining work, idle polls leave it |
| BatchRefinement.MethodIsARun | src/batching.rs:299-442 | Whatever the method does with a chunk and given replies, the spawned task can do in the step system with the same answers, callbacks and individual sends |
| BatchTraces.TaskIsATrace | src/batching.rs:299-442 | Every finished task of every interleaved run has made the batch calls, answers, individual sends and callbacks of a trace of the method for its chunk and the replies it received |
| BatchTraces.InterleavedTasks | src/batching.rs:299-442 | So in every interleaved run such a task has sent each id at most max_retries + 1 times and at most once individually, has run the callback at most once and only with individual sends, and has disposed of every slot exactly once |
| BatchTraces.DuplicatesAreTold | src/batching.rs:326-334 | In every interleaved run an earlier copy of an id in a chunk gets the duplicate error |
| BatchTraces.SurvivorsAreTold | src/batching.rs:337-441 | In every interleaved run the last copy of an id gets the first response with its id of the first batch reply that names it; if none does, the error of the batch call that failed, or an individual send |
| BatchRetry.SendBatchWithRetry | src/batching.rs:299-442 | The whole loop: which ids each batch carried, what was resolved and in which order, what went individual, how often the callback ran, and which of four endings was taken, as determined by the chunk and the replies |
| BatchRetry.CollectPending | src/batching.rs:322-335 | The loop that fills the id map computes Collect, including what it displaces and in which order |
| BatchRetry.MatchResponses | src/batching.rs:386-390 | The loop over the responses computes Match and appends the answers in response order |
| BatchRetry.ListEntries | src/batching.rs:352 | Iterating the map in any order lists every entry once |
| BatchRetry.DuplicatesExactly | src/batching.rs:324-334 | Of k copies of an id exactly the first k - 1 get the duplicate error and the last survives |
| BatchRetry.MatchExactly | src/batching.rs:386-390 | What stays outstanding is exactly what no response names; each delivered answer is the first response with its id |
| BatchRetry.FewBatchCalls | src/batching.rs:337-378 | At most min(max_retries, distinct ids) batch calls |
| BatchRetry.BatchesShrink | src/batching.rs:364-366 | Each batch call carries a proper subset of the ids of every earlier one |
| BatchRetry.CallbackExactly | src/batching.rs:407-416 | The rejection callback runs once exactly when the last batch call was answered without any match, otherwise never |
| BatchRetry.IndividualsExactly | src/batching.rs:346-362 | Individual sends happen exactly in the last-attempt and the rejection ending, list exactly what is still outstanding, and were part of every batch call |
| BatchRetry.AnsweredIsNotSentAgain | src/batching.rs:387-389 | An id that a reply answered is in no later batch call and not among the individual sends |
| BatchRetry.SendsPerRequest | src/batching.rs:337-362 | No id is sent more than max_retries + 1 times, and at most once individually |
| BatchRetry.RetryConserves | src/batching.rs:313-441 | Every slot of a chunk is displaced, resolved or handed to an individual send, exactly once in total |
| BatchRetry.FirstReplyDelivers | src/batching.rs:378-393 | A first reply, batch or single, that names every request ends it all: one batch call, no callback, no individual send, and each request gets the first response with its id |
| BatchRetry.AnsweredExactly | src/batching.rs:380-390 | The first reply that names a request answers it with its first response of that id, and the request is not sent individually |
| BatchRetry.UnansweredExactly | src/batching.rs:346-440 | A request that no reply names fails with the failed batch call, if the last one failed, and is sent individually otherwise |
| JsonRpc.CarriesExactly | src/batching.rs:380-383 | A batch packet carries its own list of responses, a single packet its one response, and nothing else |
| BatchQueue.BatchingShared.PushSingle | src/batching.rs:177-187 | A single request is appended to the queue and the flush task is notified |
| BatchQueue.BatchingShared.PushBatch | src/batching.rs:192-207 | A batch is appended request by request, in order, under one lock |
| BatchQueue.BatchingShared.TakeAll | src/batching.rs:252-261 | A drain takes the whole queue and leaves it empty |
| BatchQueue.CutIntoChunks | src/batching.rs:267-271 | The drain loop computes Chunks |
| BatchQueue.ChunksExactly | src/batching.rs:267-271 | Cutting keeps content and order; chunks have 1 to max_batch_size requests, all but the last are full, and there are ceil(n / max_batch_size) |
| BatchQueue.AwaitInOrder | src/batching.rs:209-218 | The loop over the receivers computes Gather |
| BatchQueue.GatherExactly | src/batching.rs:209-218 | All answers there: all responses that they carry, in order; otherwise the first error, unless an earlier answer is still missing |
| RetryRotation.Call | src/lib.rs:480-592 | How a call may end and with which rounds: a decisive reply of its last round, the last error after all rounds, a doubling that overflows, or no eligible endpoint; with the start, pause, readings, sends and attempts of every round |
| RetryRotation.EndsExactly | src/lib.rs:487-588 | No endpoint accepts the request if and only if nothing is sent; otherwise a retryable error is returned only after all rounds and is the last one of the last round, and any other error, like an answer, ended its round |
| RetryRotation.NextRound | src/lib.rs:506-587 | One more round extends a failed history or concludes the call; without a decisive reply there is an error to report |
| RetryRotation.RunRound | src/lib.rs:506-582 | One pass over the rotation: which positions were left out, skipped or sent to, after which delay, determined by the readings in the order they were taken; and the updates of the throttle state |
| RetryRotation.TryEndpoint | src/lib.rs:509-581 | One attempt: left out exactly when the size cap forbids it, skipped exactly when its own reading is heavy and its look ahead met a light one, otherwise sent after the delay that was read |
| RetryRotation.LookAhead | src/lib.rs:519-525 | The loop of the look ahead computes Look: whether it met a light endpoint, and the number of the next reading |
| RetryRotation.LookExactly | src/lib.rs:519-525 | A look ahead succeeds if and only if one of the readings it took, each of its own candidate, was light; if it fails it has read every candidate |
| RetryRotation.SkipsExactly | src/lib.rs:517-531 | In every round of every call an endpoint is skipped if and only if it is eligible, its own reading in that attempt was heavy and the look ahead of that attempt took a light reading |
| RetryRotation.AtIsModulo | src/lib.rs:510 | A position of the rotation is the remainder that the code computes |
| RetryRotation.RotationIsPermutation | src/lib.rs:510 | Each endpoint has exactly one position in the rotation |
| RetryRotation.SomeoneIsSentTo | src/lib.rs:509-531 | Against arbitrary readings, a full pass with an eligible endpoint sends to someone |
| RetryRotation.FullPassSends | src/lib.rs:585-590 | A full pass always has a retryable last error to report |
| RetryRotation.SentOncePerPass | src/lib.rs:509-513 | No endpoint is sent to twice in a pass |
| RetryRotation.ShapeOfRound | src/lib.rs:509-531 | In every round of every call with readings steady during the round, the endpoints sent to, as far as the round got, are exactly the eligible light ones and the eligible heavy ones after the last light one, or all eligible ones if none is light |
| RetryRotation.PausesAsDocumented | src/lib.rs:496-504 | The pause of the loop before round r is min(initial * 2^(r-1), max) for all rounds if and only if there is no retry or initial <= max; about the pauses, not about whether the doubling overflows before round r |
| RetryRotation.PauseClosedForm | src/lib.rs:503 | Capping every doubling amounts to capping the last one |
| RetryRotation.PausesGrow | src/lib.rs:503 | With initial <= max the pauses never shrink and never exceed the maximum |
| RetryRotation.TotalPauseBound | src/lib.rs:495-504 | The pauses between rounds sum to at most max_backoff for each retry round |
| RetryRotation.WholeCall | src/lib.rs:495-588 | Sends go only to endpoints that accept the request, after the stated pauses, and number at most eligible * (1 + max_retry_rounds); one success is recorded exactly when an answer is returned, one rate limit per 429 |
| RetryRotation.ToldInCall | src/lib.rs:517-565 | The throttle of endpoint i is told of exactly as many successes, rate limits and skips as endpoint i gave answers, sent 429s and was skipped |
| RetryRotation.FailsOverExactly | src/lib.rs:436-467 | An answer ends the call, and so does every error but HTTP 413, 429, 502, 503 and 504, a gone backend, and custom errors that mention a time-out, a connection or too many requests; these end a round only when the pass is complete |
| RetryRotation.CapsExactly | src/lib.rs:428-430 | An endpoint is left out if and only if its cap is below the size of the request; the call fails as too large, without a send, if and only if every cap is |
| RetryRotation.DefaultPauses | src/lib.rs:173-183 | By default the pauses are 100, 200 and 400 ms, 700 ms over a call that uses all rounds, and the doubling never overflows |
| RetryRotation.NoOverflow | src/lib.rs:503 | The doubling cannot overflow if twice the larger backoff is representable |
| Permits.PermitSafety | src/lib.rs:538-549 | In every reachable state of any number of calls the sends in flight at an endpoint stay within its limit, and a call that waits for a permit holds none |
| Permits.LimitIsReached | src/lib.rs:538-546 | From the start, some run has as many sends in flight at an endpoint as its limit allows, and any number where there is no limit |
| Permits.DeadlockFreedom | src/lib.rs:538-581 | As long as a call is unfinished some call can make a step |
| Permits.SchedulesAreFinite | src/lib.rs:495-588 | Without new calls every schedule is finite, and where it cannot continue every call has finished |
| WeightedSelection.Build | src/lib.rs:253-324 | Succeeds if and only if there is an endpoint, every weight is positive, no cap and no limit is zero, and the weights sum to less than 2^64; the tables are then the prefix sums, caps and limits; failure names what the first offending endpoint breaks first |
| WeightedSelection.DefaultsAreBuildable | src/lib.rs:78-82 | Two endpoints of the default weight are buildable, with a total of 200 |
| WeightedSelection.PartitionPoint | src/lib.rs:425 | Binary search equals the linear scan and splits the boundaries |
| WeightedSelection.LoadBalancer.SelectEndpoint | src/lib.rs:422-426 | Takes one tick of the wrapping counter and returns an index in range that the tick selects |
| WeightedSelection.ChooseExactly | src/lib.rs:422-426 | A tick selects an endpoint exactly if its bucket lies between the endpoint's boundaries |
| WeightedSelection.BucketIsRemainder | src/lib.rs:424 | The bucket of a tick is the remainder that the code computes |
| WeightedSelection.WeightedFairness | src/lib.rs:422-426 | In any window of n selections by any clones, endpoint i is chosen c times with abs(c * W - n * w) <= w * (W - w), and exactly w times if n = W, when the window does not cross the wrap or W divides 2^64 |
| WeightedSelection.ExactCyclesExactly | src/lib.rs:422-426 | With two or more endpoints, all full cycles from all counter values are exact if and only if W divides 2^64 |
| WeightedSelection.WrapCounterexample | src/lib.rs:423-424 | Three equal endpoints are served 0, 0, 1 across the wrap |
| Throttle.DomainThrottle.constructor | src/throttle.rs:176-184 | A new domain starts with all cells zero |
| Throttle.DomainThrottle.RecordRateLimit | src/throttle.rs:253-266 | A 429 stamps the time, clears the streak, counts and escalates under the cap |
| Throttle.DomainThrottle.RecordBatchRejection | src/throttle.rs:497-510 | A batch rejection does exactly what a 429 does |
| Throttle.DomainThrottle.RecordSuccess | src/throttle.rs:289-306 | A success counts and, at the threshold, clears the streak and drops a level |
| Throttle.DomainThrottle.PreRequestDelay | src/throttle.rs:205-237 | Decays by the truncated quotient and returns the delay of the new level; a zero interval divides by zero |
| Throttle.QueryShowsTable | src/throttle.rs:205-237 | A query that finds a level above zero returns the table entry of the level it leaves, 2000 ms if the table is too short; at level zero it returns zero; it divides by zero if and only if there is a level, a time of the last 429 and an interval of zero |
| Throttle.RateLimitsShowTable | src/throttle.rs:205-266 | With a full-size table, n 429s and a query less than one interval later give entry min(n, max_level), or zero if there are no levels |
| Throttle.DefaultDelays | src/throttle.rs:56-72 | By default one to five 429s delay by 50, 150, 400, 1000 and 2000 ms, more by 2000 ms, and a level that has decayed away by nothing |
| Throttle.DomainThrottle.RecordSkip | src/throttle.rs:269-271 | Only the skip counter changes |
| Throttle.SuccessesClosedForm | src/throttle.rs:289-306 | Level and streak after n successes are quotient and remainder by the threshold, counted from the streak at the start |
| Throttle.RecoveryAfterRateLimit | src/throttle.rs:253-306 | After a 429 at level L, n successes leave max(0, L - n div T) |
| Throttle.DefaultRecovery | src/throttle.rs:56-60 | By default five successes take off the level of one 429, and four do not |
| Throttle.DelaysClosedForm | src/throttle.rs:205-228 | Queries at t1..tk leave max(0, L - sum of (ti - last) div D) |
| Throttle.OneLevelPerIntervalExactly | src/throttle.rs:39-47 | When the level after a query is the old one minus the whole intervals since the 429, not cut to 32 bits: below 2^32 intervals if and only if the last query empties the level or the earlier ones took nothing off; from 2^32 on if and only if the cut quotients suffice to empty it; after a 429 stamped 0 only if there is nothing to take off |
| Throttle.DocumentedDecayCounterexample | src/throttle.rs:216-228 | By default, after three 429s, one query one interval later leaves level 2 and a second one at the same instant level 1 |
| Throttle.FullDecay | src/throttle.rs:218-226 | One query after max_level intervals returns to level 0 if the quotient fits 32 bits |
| Throttle.FullDecayExactly | src/throttle.rs:218-226 | One query empties the level if and only if the time since the 429, modulo 2^32 intervals, is at least level intervals |
| Throttle.FullDecayAlwaysExactly | src/throttle.rs:218-226 | Every query after level intervals empties the level if and only if 2^32 intervals after the 429 lie beyond the range of the clock |
| Throttle.TruncatedDecayCounterexample | src/throttle.rs:219 | By default, after five 429s and exactly 2^32 intervals a query takes nothing off |
| ThrottleInterleaving.UninterruptedIsSequential | src/throttle.rs:205-306 | The atomic steps of an operation, run alone, have the effect of the sequential method |
| ThrottleInterleaving.RecoveryInvariantHolds | src/throttle.rs:289-306 | The accounting of counted successes, triggers and armed threads survives every interleaving of atomic operations |
| ThrottleInterleaving.RecoveryBound | src/throttle.rs:289-306 | With at most k threads inside record_success and anything else interleaved, levels taken off <= triggers and triggers * (T + k - 1) <= k * counted successes, and the streak stays below T + k |
| ThrottleInterleaving.RecoveryBoundAttained | src/throttle.rs:296-305 | For every T and k, from level k or more, some schedule takes off k levels with T + k - 1 successes |
| ThrottleInterleaving.LevelsCostThresholdExactly | src/throttle.rs:275 | In all runs with at most k threads inside record_success each level taken off costs the threshold, if and only if k = 1, or the threshold is 1, or there are no levels |
| ThrottleInterleaving.LevelBounds | src/throttle.rs:253-306 | Under every interleaving the level stays below its cap and what escalations explain, and without decrements it is min(start + escalations, cap) |
| ThrottleInterleaving.LevelBoundsFromStart | src/throttle.rs:205-306 | The same from any domain state under the cap |
| ThrottleInterleaving.FromTableExactly | src/throttle.rs:205-236 | With a full-size table all delays handed out are table entries if and only if zero is one |
| ThrottleRegistry.RegistryAgreement | src/throttle.rs:141-186 | From the empty registry, under every interleaving of read phases, write phases and changes of the default: each domain is created at most once, by an event after which its state has the last default set before that event, and all lookups of a domain hold the same state |
| ThrottleRegistry.RegistrationsStay | src/throttle.rs:161-186 | From any point of a run on, what is registered or found never changes |
| ThrottleRegistry.DefaultsTakeEffect | src/throttle.rs:141-145 | Some run creates one domain, changes the default and creates another: the first keeps the old default, the second has the new one |
| ThrottleRegistry.SharedRegistry.StateOf | src/throttle.rs:161-186 | Returns the registered state, or registers a fresh one with the current default |
| ThrottleRegistry.SharedRegistry.SetDefaultThrottleConfig | src/throttle.rs:141-145 | Changes the default and nothing else |
| ThrottleRegistry.SharedRegistry.ReadSample | src/throttle.rs:390-391 | Reads successes and delay of one domain and lets only that domain decay |
| ThrottleRegistry.SharedRegistry.WeightedDomainBackoff | src/throttle.rs:384-401 | In whatever order the map is visited, the result is the weighted average of the readings with sums taken modulo 2^64, and every domain decays as if queried once; it panics if and only if reading some domain divides by a decay interval of zero |
| ThrottleRegistry.NoOverflowNoWrap | src/throttle.rs:395-396 | Without overflow of the two sums the result is floor(sum of delay * weight / sum of weights) |
| ThrottleRegistry.AverageBetween | src/throttle.rs:384-401 | The average lies between the smallest and the largest delay |
| ThrottleRegistry.NoDomainsNoBackoff | src/throttle.rs:398-400 | Without domains the result is zero |
| ThrottleRegistry.SuccessesAdd | src/throttle.rs:390-396 | A domain counts exactly like two equally delayed domains that share its successes |
| ThrottleRegistry.NoSuccessCountsOnce | src/throttle.rs:392-394 | A domain without successes counts exactly like one with a single success |
| ThrottleRegistry.AverageOfTwo | src/throttle.rs:384-401 | With one undelayed and one delayed domain the average is the delay times the share of successes, rounded down |
| ThrottleRegistry.TrafficDilutes | src/throttle.rs:367-370 | 99 successes without delay and one with a second average 10 ms |
| ThrottleRegistry.AverageIsMaximumExactly | src/throttle.rs:372-373 | Without overflow of the two sums, the result as a duration is the maximum delay if and only if all delays are equal and whole milliseconds |
| ThrottleRegistry.FallbackCounterexample | src/throttle.rs:392-394 | Two untouched domains, one delayed by 400 ms, average 200 ms |
| ThrottleRegistry.SubMillisecondCounterexample | src/throttle.rs:391-400 | One domain delayed by 1.5 ms after a 429 averages 1 ms |

## Left out

- HTTP sending, `reqwest`, TLS, serde and URL parsing: a send is an arbitrary result and the size of a request is a given number.
- `src/client_pool.rs`: the same get-or-create pattern as the throttle registry.
- Real time and the tokio scheduler: clocks are arbitrary, step order is arbitrary, sleeps are recorded as durations. The flush task may drain at any time, since every call notifies at once (`src/batching.rs:187`, `src/batching.rs:207`); `flush_interval` and the extra notification of a full queue therefore have no counterpart.
- Panics or hangs of the inner transport and mutex poisoning.
- Weak-memory effects between different atomics: interleavings are sequentially consistent, and each bound concerns the history of one cell.
- Overflow panics of a debug build: arithmetic wraps as in a release build.
- Closing of a per-endpoint semaphore: nothing in the crate closes one, so the `backend_gone` of a failed acquisition does not occur.
- Messages of custom errors: `is_retryable` and `is_rate_limit` see three flags instead of substrings.
- `extract_rate_limit_domain`: domains are given strings.
- Logging, `Debug` output, snapshots, `max_domain_backoff`, examples, benches and charts.
- The text of the error for a failed batch: it carries its cause instead of a message.
- Permits.PermitSafety: the retry loop is a position in a bounded list of attempts that asks for arbitrary endpoints; which endpoint follows which is proved in RetryRotation, not combined with it.
- WeightedSelection.Build: assertions of the builder become an error result, and the lookup of client and throttle per domain is not part of it.
- BatchRetry.SendBatchWithRetry: the map of the retry loop is a value that the loop reassigns, the replies are a function of the batch number, and the part of the loop body from the batch call on is the method SendOneBatch.
- ThrottleRegistry.AverageIsMaximumExactly: when one of the two 64-bit sums overflows, the average is that of the wrapped sums, and nothing is said about the maximum.
- RetryRotation.Call: readings, replies and ticks are functions of their running number, and the throttle state is seen only through readings and recorded updates.
