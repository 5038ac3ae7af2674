# DeepTalk, verified

A Dafny model of the hand-written algorithms and protocols in the DeepTalk backend, with proofs of what they promise.
`dafny verify dfyconfig.toml` checks everything.

The model follows the program's components. Each is modelled in the program's own form: objects that change are classes
with the same fields, loops are methods with loops. A method is proved against a function or predicate on values, and the
properties are proved about those. Where goroutines race, a second module interleaves the critical sections and channel
operations of the first as a state machine, and the properties hold in every reachable state or along every run.

| files | what they model |
|---|---|
| `PriorityQueue.dfy`, `Pool.dfy`, `PoolProtocol.dfy`, `Scheduler.dfy` | the inference pool: bounded slots, a three-level waiting line, direct hand-over racing with timeout, cancellation and shutdown; and the calls and streams that use it |
| `Balancer.dfy` | smooth weighted round robin |
| `Lru.dfy`, `ExactCache.dfy`, `NegativeCache.dfy`, `SemanticCache.dfy`, `Coordinator.dfy`, `SingleFlight.dfy` | the answer cache: an LRU with expiry, remembered refusals, similarity lookup, their order, and merged regeneration |
| `Compressor.dfy` | the memory compressor: token estimates, cutting, merging of summaries |
| `LocalAgent.dfy`, `AgentProtocol.dfy` | calls to local agents, late replies, disconnection, take-over |
| `RateLimit.dfy` | the local token bucket and the Redis script |
| `Chunk.dfy`, `Fusion.dfy` | the recursive document splitter and reciprocal rank fusion |
| `Text.dfy`, `Wrappers.dfy` | string operations of the Go library, options and results |

Go's `int` is `int` and its `float64` is `real`; strings are sequences of runes; the time is an argument, in nanoseconds.
A clock, a timer, a context, an embedding, what a model or an agent answers and which goroutine runs next are
arguments or non-deterministic steps.

## What does not hold

Some promises in the program's comments are not kept by its code. The model follows the code, and says exactly when the
promise is kept.

- `namespace` (`internal/cache/coordinator.go:101-103`) is said to keep ("a", "b|c") and ("a|b", "c") apart. It does not:
  `NamespacesCanMeet`. `NamespacesMeetExactlyWhen` says which users can share a namespace; `SeparateWithoutBar` that names
  without the separator do only when they differ at most in surrounding blanks.
- `trimLongMessages` (`internal/agent/memory/compressor.go:122-125`) breaks "to avoid an endless loop", but the break is
  not reached when cutting stops making messages shorter: a message of eight tokens, cut to four, has eight tokens again.
  `TrimmingCanRunForever` and `CompressCanRunForever` give an input, `TrimmingEndsExactlyWhen` and
  `CompressEndsExactlyWhen` the exact condition. `TrimLongMessages`, `KeepRecent` and `Compress` require it, since a
  method that never returns has no result to speak of. `SixtyFourSuffices` shows that a limit of 64 always meets it.
- `truncateToTokens` (`internal/agent/memory/compressor.go:134-137`) is meant not to exceed its target. It exceeds it by
  four tokens whenever it cuts: `TruncatedTokens`, `TruncationFitsExactlyWhen`.
- The Redis script (`middleware/ratelimit.go:150-158`) forgets a bucket after five minutes, which hands out tokens too
  early when a bucket takes longer to fill: `RedisForgetsTooSoon`, `RedisAgreesExactlyWhen`.
- `pump` (`internal/inference/scheduler.go:249-250`) is said not to report a receiver that left to the breaker. It reports
  it as a success, since the deferred function always reports: `LeavingIsReported`, `SuccessIsReportedExactlyWhen`.
- `InvalidateAll` (`internal/cache/coordinator.go:261-264`) is said to rule out that an outdated answer is ever used. A
  call that begins afterwards can still join a flight that is about to return one: `OldAnswerCanBeUsed`,
  `OldAnswerIsUsedExactlyWhen`. And an answer that is being generated is stored afterwards:
  `OldAnswerIsStoredExactlyWhen`.

## Model

| member | source | states |
|---|---|---|
| PriorityQueue.NextIndex | internal/inference/queue.go:75-86 | whoever is served next has the best level present and is the earliest arrival of that level |
| PriorityQueue.NextIsUnique | internal/inference/queue.go:75-86 | there is only one such waiter, so "the head of the first non-empty level" leaves nothing open |
| PriorityQueue.Queue.constructor | internal/inference/queue.go:65-68 | an empty queue: three empty levels are the levels of the empty line |
| PriorityQueue.Queue.Push | internal/inference/queue.go:70-73 | the newcomer joins the end of the one arrival-ordered line of which the three slices and the counter are a view |
| PriorityQueue.Queue.Pop | internal/inference/queue.go:76-86 | takes out exactly the next waiter of the line; nothing happens to an empty queue |
| PriorityQueue.Queue.Remove | internal/inference/queue.go:92-103 | succeeds exactly when the waiter is still queued, and takes out only that waiter |
| PriorityQueue.Queue.Len | internal/inference/queue.go:105 | the counter is the number of waiters on all levels together |
| PriorityQueue.Queue.Drain | internal/inference/queue.go:108-116 | hands out everyone in service order and leaves an empty queue |
| PriorityQueue.ArriveInServiceOrder | internal/inference/queue.go:70-73 | a newcomer is placed behind everyone of its own level and above and before everyone below; nobody else changes places |
| PriorityQueue.ServeInServiceOrder | internal/inference/queue.go:75-86 | popping takes the head of the service order and leaves the rest as it was |
| PriorityQueue.LeaveInServiceOrder | internal/inference/queue.go:88-103 | removing a waiter deletes its place from the service order and keeps everyone else's turn |
| PriorityQueue.ServeAllIsServiceOrder | internal/inference/queue.go:76-116 | popping until the queue is empty visits the waiters in exactly the order in which drain returns them |
| PriorityQueue.ServiceOrderIsPermutation | internal/inference/queue.go:108-116 | the service order loses nobody and invents nobody |
| Pool.Pool.constructor | internal/inference/pool.go:32-49 | a new pool is idle and open; a limit that is not positive becomes ten slots |
| Pool.Pool.Arrive | internal/inference/pool.go:52-77 | the critical section of Acquire: closed, then a free slot with nobody waiting, then a full queue, then queueing; for all states of the pool |
| Pool.Pool.DropWaiter | internal/inference/pool.go:112-123 | giving up takes the caller out of the line exactly if it is still in it |
| Pool.Pool.Await | internal/inference/pool.go:85-109 | what Acquire returns for each way its select can go, including the late timeout that must take the message already decided |
| Pool.Pool.Release | internal/inference/pool.go:125-142 | the slot goes to the next waiter, which alone gets one message without error; only with nobody waiting does the number in flight fall |
| Pool.Pool.Close | internal/inference/pool.go:144-158 | the pool refuses from then on, the line is empty, and each waiter has one message saying so |
| Pool.Pool.TurnAway | internal/inference/pool.go:153-157 | the loop of Close: one message for each waiter drained, none for anyone else |
| Pool.Pool.Drain | internal/inference/pool.go:160-175 | Drain returns true exactly if a poll finds the pool idle before any poll finds it busy after the deadline, false exactly if it is the other way round |
| PoolProtocol.StepKeepsInv | internal/inference/pool.go:52-158 | every critical section and every channel operation keeps the invariant that ties slots, line, messages and callers together |
| PoolProtocol.RunKeepsInv | internal/inference/pool.go:52-158 | so does every run |
| PoolProtocol.EveryRunCountsSlots | internal/inference/pool.go:60-80 | in every reachable state the number in flight is the number of slots held or handed over, never above the limit; a waiting line means that all slots are taken and is never longer than its bound; whoever holds a slot finds the counter positive at Release |
| PoolProtocol.SlotInUse | internal/inference/pool.go:136-138 | the guard in Release never stops a decrement for a caller that holds a slot |
| PoolProtocol.EveryRunNotifiesOnce | internal/inference/queue.go:50-59 | in every reachable state a waiter has left the line in at most one way, its channel has had at most one message so no sender blocks, and one that came too late to remove itself has a message sent or about to be sent |
| PoolProtocol.EveryRunExplainsOutcome | internal/inference/pool.go:85-109 | nil from Acquire means a slot taken at once or handed over by Release; timeout and cancellation mean that the waiter removed itself; an error about shutting down, received or on its way, means that the pool is closed; a refused or finished caller owns no slot |
| PoolProtocol.GivingUpHasItsReason | internal/inference/pool.go:94-109 | a caller that comes back with a timeout had its timer go off and one that comes back cancelled had its context done, never the other way round |
| PoolProtocol.EveryArrivalIsJustified | internal/inference/pool.go:52-80 | in every reachable state a newcomer is sent away exactly if the pool is closed, admitted at once exactly if a slot is free, refused exactly if none is free and the line is at its bound, and queued otherwise |
| PoolProtocol.EveryRunReleasesOnce | internal/inference/pool.go:51-142 | along every run a caller releases at most once, exactly once if it is finished with its slot, and never after a refusal |
| PoolProtocol.AfterClose | internal/inference/pool.go:144-175 | once Close has run its critical section the line stays empty, the number in flight never rises, and after Drain has seen zero it stays zero |
| PoolProtocol.DrainedForGood | internal/inference/pool.go:160-175 | once the pool has been seen idle after Close, nobody holds a slot or is handed one in any continuation of the run |
| PoolProtocol.NoLostWakeup | internal/inference/pool.go:125-135 | as long as a caller is unfinished somebody can move without new arrivals, timeouts or Close: no wake-up is lost |
| PoolProtocol.BoundedSteps | internal/inference/pool.go:52-142 | no run makes a caller take more than six steps |
| PoolProtocol.EveryRunEnds | internal/inference/pool.go:52-142 | every call comes to an end: a run takes at most six steps for each request, and where nobody inside the pool can move, every request has been refused or has released its slot |
| PoolProtocol.NoOvertaking | internal/inference/pool.go:60-61 | while a caller waits, no later arrival of the same or a lower level is handed a slot |
| PoolProtocol.OutForGood | internal/inference/queue.go:88-103 | a waiter that has left the line never stands in it again |
| Scheduler.EveryRunIsAPoolRun | internal/inference/scheduler.go:112-141 | what Generate, Stream and Close do to a pool is a run of the pool, so everything above holds for it |
| Scheduler.StepKeepsInv | internal/inference/scheduler.go:112-257 | call by call, the stage of the call agrees with the state of its slot and with what was reported to the breaker |
| Scheduler.UpstreamIsProtected | internal/inference/scheduler.go:184-190 | the upstream never has more than the configured number of calls at once, an open stream counting until it ends |
| Scheduler.AdmittedMeansReleasedOnce | internal/inference/scheduler.go:169-257 | along every run a call has released its slot exactly once if it is finished with an answer, reported to the breaker exactly once if it is finished or about to release, and holds its slot in between; a refused call does neither and no finished call owns a slot; `StreamKeepsItsSlot` and `NothingIsReportedEarly` say when the report and the release can come |
| Scheduler.StreamKeepsItsSlot | internal/inference/scheduler.go:184-211 | in every run, once the upstream has opened a stream and until the stream ends, the call holds its slot and has neither reported nor released |
| Scheduler.GenerateNeverStreams | internal/inference/scheduler.go:169-182 | a call to Generate never forwards a message and never ends a stream |
| Scheduler.NothingIsReportedEarly | internal/inference/scheduler.go:169-257 | the breaker hears of a call, and its slot is given back, only after the upstream failed or answered or, for a stream that was opened, the stream ended; the release comes after the report; a call is refused for an open breaker exactly if the breaker denied it |
| Scheduler.UpstreamIsNeverOverrun | internal/inference/scheduler.go:184-190 | the number of calls the upstream works on, told from the steps of the run alone, an open stream included, is never above the configured number |
| Scheduler.NoCallIsStuck | internal/inference/scheduler.go:169-257 | as long as a call is unfinished, it or its upstream, or the pool, has a step to take |
| Scheduler.EveryCallEnds | internal/inference/scheduler.go:169-257 | every admitted call releases: a call takes at most seven steps besides forwarding, and where nothing can move any more every call is finished and owns no slot |
| Scheduler.EndOf | internal/inference/scheduler.go:231-253 | the turn of the loop in which forwarding stops: the first at which the context is done, the source ends or breaks, or the receiver has gone |
| Scheduler.Pump.Forward | internal/inference/scheduler.go:214-257 | forwards every message before that turn in order, passes an error on, then reports once, releases once and closes both ends; a receiver that left is not reported as a failure |
| Scheduler.SuccessIsReportedExactlyWhen | internal/inference/scheduler.go:231-253 | the breaker is told of a success exactly if the stream came to its end or the receiver left |
| Scheduler.LeavingIsReported | internal/inference/scheduler.go:249-251 | a receiver that leaves at the first message makes the breaker record a success |
| Balancer.NewWeighted | internal/inference/balancer.go:40-54 | missing instances are left out in order, weights that are not positive count as one, and all current values start at zero |
| Balancer.SmoothWRR.constructor | internal/inference/balancer.go:51 | a balancer over the given instances starts from the state that has seen no pick |
| Balancer.SmoothWRR.Raise | internal/inference/balancer.go:106-110 | the first loop adds every weight to its current value and totals the weights |
| Balancer.SmoothWRR.Largest | internal/inference/balancer.go:112-117 | the second loop finds the first of the largest current values |
| Balancer.SmoothWRR.Pick | internal/inference/balancer.go:99-122 | the instance picked is the first of those whose current value, with the weights added, is the largest; it alone pays the total weight and it alone takes a place; None only without instances; the values move from state k to state k+1 of the specification |
| Balancer.SmoothWRR.Release | internal/inference/balancer.go:124-128 | gives back one place, and ignores a missing instance |
| Wrappers.FirstLargestIs | internal/inference/balancer.go:112-117 | the specified choice is the first of the largest |
| Balancer.PickKeepsBalance | internal/inference/balancer.go:106-118 | a pick keeps the current values summing to zero and each above minus the total weight |
| Balancer.AlwaysBalanced | internal/inference/balancer.go:99-122 | so it is after any number of picks |
| Balancer.DebtAsProduct | internal/inference/balancer.go:106-118 | after k picks the current value of an instance is k times its weight less the total for every time it was picked |
| Balancer.ShareOfPicks | internal/inference/balancer.go:90-92 | after k picks an instance has been chosen less than once more than its share k·w/W, and by less than n-1 picks too few |
| Balancer.CycleReturns | internal/inference/balancer.go:99-122 | after W picks every current value is back at zero |
| Balancer.Periodic | internal/inference/balancer.go:99-122 | the sequence of states repeats every W picks from any point on |
| Balancer.AnyWindowIsExact | internal/inference/balancer.go:90-92 | any W consecutive picks, wherever they start, choose each instance exactly as often as its weight says |
| Balancer.EveryPickIsTheLargest | internal/inference/balancer.go:112-118 | every pick of a run, from any state reached, takes the first of the largest and counts for that instance alone |
| Balancer.NeverFarBelow | internal/inference/balancer.go:103-122 | no current value ever falls further below zero than (n - 1) / n of the total weight |
| Balancer.NeverFarAhead | internal/inference/balancer.go:90-122 | picks are not bunched: after any number of them no instance is ahead of its share by more than (n - 1) / n of a pick |
| Lru.StepKeepsSound | internal/cache/exact.go:64-132 | every operation keeps the keys distinct and the size within the limit |
| Lru.AlwaysLatest | internal/cache/exact.go:64-132 | after any run, an entry held is the one last written under its key, and its key has not been deleted, purged or found expired since |
| Lru.HitIsLatestAndUnexpired | internal/cache/exact.go:64-82 | after any run, a hit is the latest answer written under that key, has not been deleted, purged or found expired since, has not expired and is now the most recent entry; a miss leaves no entry behind |
| Lru.WriteThenHit | internal/cache/exact.go:64-115 | an answer just written is returned, as it was written, by a lookup in time |
| Lru.WriteKeepsOthers | internal/cache/exact.go:88-115 | a write brings in no entry under another key and takes none away while there is room |
| Lru.HeldMeansHit | internal/cache/exact.go:64-82 | an entry held is a hit exactly if it has not expired |
| Lru.InvalidatedIsGone | internal/cache/exact.go:117-132 | what has been deleted or purged is never returned again unless it is written again |
| Lru.AlwaysByRecency | internal/cache/exact.go:39-41 | after any run the entries are in the order in which their keys were last written or hit |
| Lru.EvictsLeastRecentlyUsed | internal/cache/exact.go:110-114 | a write that needs room removes exactly the entry whose key was used longest ago |
| Lru.RecentlyUsedSurvives | internal/cache/exact.go:110-114 | an entry just used is still found after operations on fewer than `max` different other keys, and is the same entry |
| ExactCache.ExactCache.constructor | internal/cache/exact.go:44-49 | an empty cache; a limit that is not positive becomes 10000 |
| ExactCache.ExactCache.IndexFinds | internal/cache/exact.go:37-42 | list and index agree: the index leads to the element that carries the key's entry, and knows no other key |
| ExactCache.ExactCache.RemoveElement | internal/cache/exact.go:141-145 | one element leaves the list and the index together |
| ExactCache.ExactCache.MoveToFront | internal/cache/exact.go:80 | one entry moves to the front and the others keep their order |
| ExactCache.ExactCache.Get | internal/cache/exact.go:64-82 | does to list, index and elements what the recency-ordered map does: a hit moves to the front, an expired entry is deleted and missed |
| ExactCache.ExactCache.Set | internal/cache/exact.go:88-115 | an existing key is overwritten and moved to the front, a new one is put in front and the last one evicted when there is one too many; an empty answer is not written |
| ExactCache.ExactCache.Insert | internal/cache/exact.go:109-114 | the branch for a new key |
| ExactCache.ExactCache.Replace | internal/cache/exact.go:104-108 | the branch for a key that is there: its element keeps its place in the index and gets the new value |
| ExactCache.ExactCache.Delete | internal/cache/exact.go:118-124 | removes the entry of one key and nothing else |
| ExactCache.ExactCache.Purge | internal/cache/exact.go:127-132 | list and index are both empty |
| ExactCache.ExactCache.Len | internal/cache/exact.go:135-139 | the length of the list is the number of entries and within the limit |
| NegativeCache.Refuses | internal/cache/penetration.go:117-132 | a refusal is a blank answer, or one of at most 120 runes with one of the fixed wordings somewhere in it |
| NegativeCache.NegativeCache.Get | internal/cache/penetration.go:45-60 | a hit exactly if a refusal is held that has not expired at that moment, and then its answer and nothing changes; otherwise nothing is held under that key afterwards |
| NegativeCache.NegativeCache.Store | internal/cache/penetration.go:63-84 | the new refusal is held; of the others exactly those that have not expired, as they were |
| NegativeCache.NegativeCache.Clear | internal/cache/penetration.go:87-91 | forgets one key and no other |
| NegativeCache.NegativeCache.Purge | internal/cache/penetration.go:94-98 | forgets everything |
| SemanticCache.CauchySchwarz | internal/cache/semantic.go:125-130 | the square of the inner product is at most the product of the squared lengths, in any dimension |
| SemanticCache.CosineInRange | internal/cache/semantic.go:121-135 | the similarity of any two vectors, comparable or not, is between minus one and one |
| SemanticCache.CosineOfSelf | internal/cache/semantic.go:121-135 | a non-zero vector has similarity one with itself |
| SemanticCache.ComputeCosine | internal/cache/semantic.go:121-135 | the loop computes inner product over lengths, and minus one for vectors of different or zero length |
| SemanticCache.DotLinear | internal/cache/semantic.go:125-130 | the inner product is linear in its first argument, and with `DotSymmetric` in both |
| SemanticCache.DotSymmetric | internal/cache/semantic.go:125-130 | the similarity does not depend on the order of the two vectors |
| SemanticCache.DotUnit | internal/cache/semantic.go:125-130 | against the i-th basis vector it is the i-th coordinate: no coordinate is left out or weighted |
| SemanticCache.SemanticCache.Lookup | internal/cache/semantic.go:138-174 | a hit is of the namespace asked for, no older than the lifetime and at or above the threshold, no such entry is more similar, and it is the first of the most similar; a miss means that no such entry reaches the threshold |
| SemanticCache.SameQuestionHits | internal/cache/semantic.go:157-173 | an unexpired entry with the very vector that is asked for always produces a hit, in the same namespace and of similarity one |
| SemanticCache.SemanticCache.constructor | internal/cache/semantic.go:35-44 | starts empty |
| SemanticCache.SemanticCache.Compact | internal/cache/semantic.go:190-199 | compacting the slice over itself leaves exactly the unexpired entries in their order |
| SemanticCache.SemanticCache.Append | internal/cache/semantic.go:206-214 | append adds one entry behind the others, in place or in a new buffer |
| SemanticCache.SemanticCache.Store | internal/cache/semantic.go:177-215 | drops what has expired, then the oldest if there is no room, then appends; does nothing when disabled, without an embedding or for an empty answer |
| SemanticCache.SemanticCache.Purge | internal/cache/semantic.go:229-233 | leaves nothing |
| SemanticCache.StoredSize | internal/cache/semantic.go:201-214 | storing keeps to the limit whenever the entries alive do, and otherwise, when the limit has been lowered, does not let the cache grow |
| SemanticCache.SurvivorsAre | internal/cache/semantic.go:190-199 | an entry survives the compaction exactly if it was there and is no older than the lifetime |
| SemanticCache.StoredHolds | internal/cache/semantic.go:177-214 | after a store the new entry is the last, every other was there before and is alive, and where there was room every one alive is still there |
| SemanticCache.SurvivorPlace | internal/cache/semantic.go:190-199 | an entry that is alive survives the cleaning with no more entries behind it than before |
| SemanticCache.StaysUntilMaxMore | internal/cache/semantic.go:201-214 | an entry stays until it expires or as many more as the limit have been stored |
| Coordinator.NamespacesCanMeet | internal/cache/coordinator.go:101-103 | the two keys that the comment says are kept apart have the same namespace |
| Coordinator.NamespacesMeetExactlyWhen | internal/cache/coordinator.go:94-104 | two identified users can share a namespace exactly when their names are the same but for surrounding blanks, or the trimmed name of one, followed by the separator, begins the trimmed name of the other |
| Coordinator.SeparateWithoutBar | internal/cache/coordinator.go:94-104 | for names without the separator, one namespace means one model and names that are the same but for surrounding blanks |
| Coordinator.CacheKeysMeetExactlyWhen | internal/cache/exact.go:55-61 | two callers and questions share a cache key exactly if they share the namespace and the question |
| Coordinator.Coordinator.constructor | internal/cache/coordinator.go:55-78 | all three caches start empty |
| Coordinator.Coordinator.Lookup | internal/cache/coordinator.go:107-139 | for a caller with a name and an enabled cache, the exact answer held under the trimmed name, the model and the question is returned if it is in time; otherwise the refusal held under them if it is; otherwise what the semantic cache finds in the namespace; a caller without a name, or a disabled cache, is a miss that touches nothing |
| Coordinator.Coordinator.AnswersStayInNamespace | internal/cache/coordinator.go:107-139 | whatever a lookup answers was stored under the caller's own namespace, exact answers and refusals under the very question |
| Coordinator.Coordinator.Store | internal/cache/coordinator.go:145-168 | a refusal goes to the refusals only; an answer goes to both answer caches and ends the refusal; nothing is stored for an empty answer or an anonymous caller; the four methods below ask again |
| Coordinator.Coordinator.StoreThenAsk | internal/cache/coordinator.go:107-168 | an answer that was stored is returned to the same question in time, as an exact hit with its tokens and its cost |
| Coordinator.Coordinator.StoreThenAskRefused | internal/cache/coordinator.go:107-168 | a refusal that was stored is returned to the same question in time, at the level of refusals |
| Coordinator.Coordinator.StoreThenAskElse | internal/cache/coordinator.go:107-168 | an exact hit for another question or another namespace after a store is one that was there before it |
| Coordinator.Coordinator.StoreThenAskSimilar | internal/cache/coordinator.go:107-168 | an answer that was stored is found, while it lives, under any other question with the same embedding |
| Coordinator.Coordinator.LookTwice | internal/cache/coordinator.go:187-214 | the second look sees what the first has left behind |
| Coordinator.Coordinator.Do | internal/cache/coordinator.go:181-237 | one undisturbed call: gen runs exactly if both looks miss or nothing may be cached, its error is returned and stores nothing, and the caches end up as the two looks and one store leave them |
| Coordinator.Coordinator.DoTwice | internal/cache/coordinator.go:181-237 | what gen has made is not made again: as long as the answer lives, the next call for the question does not call gen and returns it as an exact hit with its tokens and its cost |
| Coordinator.Coordinator.Invalidate | internal/cache/coordinator.go:246-259 | one question of one user and model is forgotten as an answer and as a refusal, and nothing else is; an anonymous caller changes nothing |
| Coordinator.Coordinator.InvalidateAll | internal/cache/coordinator.go:261-271 | all three caches are empty afterwards |
| SingleFlight.StepKeepsInv | internal/cache/coordinator.go:181-237 | every cache access, flight and gen of concurrent calls keeps the invariant |
| SingleFlight.RunKeepsInv | internal/cache/coordinator.go:181-237 | so does every run |
| SingleFlight.OneGenPerKey | internal/cache/coordinator.go:176-180 | in every reachable state at most one gen runs for a key |
| SingleFlight.MergedCallersShareResult | internal/cache/coordinator.go:209-236 | callers merged into one flight asked the same key and get the same result |
| SingleFlight.AnswersBelongToTheirKey | internal/cache/coordinator.go:181-237 | an answer that did not come from the semantic cache was generated for the very key that was asked |
| SingleFlight.WritingStores | internal/cache/coordinator.go:156-165 | after the write of an answer or a refusal every caller that has still to look will find it, also one that missed its first look before |
| SingleFlight.StoredMeansNoGen | internal/cache/coordinator.go:209-223 | from then on no run starts gen for the key until the entry is lost by expiry, eviction or invalidation |
| SingleFlight.NoGenAfterStore | internal/cache/coordinator.go:209-223 | from the start of the program: between a store and a later gen for the same key lies a loss |
| SingleFlight.NoGenAfterAnswer | internal/cache/coordinator.go:209-223 | from the moment gen has produced an answer or a refusal, before it is stored, gen is not started again for that key without a loss |
| SingleFlight.OldAnswerIsUsedExactlyWhen | internal/cache/coordinator.go:261-271 | once both caches hold nothing for a key, a call that begins only then can be given an answer although neither gen is started nor a similar question found for the key any more, exactly if some caller of the key is at that moment between the start of gen and its landing, or about to land with an answer |
| SingleFlight.OldAnswerCanBeUsed | internal/cache/coordinator.go:261-271 | a run in which it happens: one of two callers is in gen at the purge, the other begins only then and is given what that gen makes |
| SingleFlight.OldAnswerIsStoredExactlyWhen | internal/cache/coordinator.go:261-271 | from any moment on, an answer whose gen was started before can be written for a key exactly if some caller of the key is at that moment between the start of gen and the last write of its answer |
| SingleFlight.EveryCallReturns | internal/cache/coordinator.go:181-237 | every call comes back: it takes at most twelve steps of its own, and as long as it has not returned something other than a loss can happen, the leader's step if it waits for another's flight |
| SingleFlight.HeldAnswersAtOnce | internal/cache/coordinator.go:187-207 | as long as the exact cache keeps an entry for its key, a caller that has not begun is answered from it by its first step and enters no flight |
| Compressor.CountTokens | internal/agent/memory/compressor.go:184-194 | the estimate rounds ASCII and other runes up separately, by four and by two |
| Compressor.EstimateTokens | internal/agent/memory/compressor.go:92-98 | the total of the messages |
| Compressor.WhatTokensCount | internal/agent/memory/compressor.go:184-194 | four ASCII runes make a token, two others do, a rest counts as one, and the two kinds are counted apart |
| Compressor.MarkerCountsFive | internal/agent/memory/compressor.go:138-154 | appending the marker adds exactly five tokens to any text |
| Compressor.TruncateToTokens | internal/agent/memory/compressor.go:138-154 | a text of fewer than m tokens comes back as it is; of any other the longest beginning of fewer than m tokens does, with the marker behind it; without a target nothing does |
| Compressor.TruncatedTokens | internal/agent/memory/compressor.go:134-154 | a text that reaches m tokens has exactly m + 4 after being cut to m |
| Compressor.TruncationFitsExactlyWhen | internal/agent/memory/compressor.go:134-154 | a text fits the m tokens it was cut to exactly if it had fewer, so that nothing was cut, or m is zero |
| Compressor.FindLongest | internal/agent/memory/compressor.go:116-125 | the inner loop finds the first of the longest messages, or that no message has a token |
| Compressor.TrimmingEndsExactlyWhen | internal/agent/memory/compressor.go:111-132 | the trimming loop ends if and only if the messages, each counted with at most eight tokens, fit the budget or none has more than one token; otherwise it never ends |
| Compressor.TrimmingSucceedsExactlyWhen | internal/agent/memory/compressor.go:111-132 | it ends within the budget if and only if the messages, each counted with at most eight tokens, fit it |
| Compressor.EightPerMessageSuffices | internal/agent/memory/compressor.go:111-132 | eight tokens for every message are always enough |
| Compressor.TrimmingCanRunForever | internal/agent/memory/compressor.go:111-132 | two messages of eight tokens that have been cut before are trimmed to fifteen tokens for ever |
| Compressor.TrimLongMessages | internal/agent/memory/compressor.go:111-132 | where it ends, it ends as the loop specified round by round: every message is untouched or one prefix of the original with one marker, and the total fits whenever it can |
| Compressor.Compressor.constructor | internal/agent/memory/compressor.go:22-27 | a limit that is not positive becomes 4000 |
| Compressor.Compressor.DropWhileOver | internal/agent/memory/compressor.go:70-72 | the loop keeps dropping the oldest message while there are more than two and they do not fit |
| Compressor.WhatIsKept | internal/agent/memory/compressor.go:54-72 | what is kept is the longest end of the last six messages that fits the budget, or the last two |
| Compressor.Compressor.KeepRecent | internal/agent/memory/compressor.go:54-78 | at most six messages are kept, position by position the last ones; one message more would not have fitted; three or more are kept only whole and within the budget; two are cut only if they do not fit, and then by the trimming loop |
| Compressor.Compressor.Compress | internal/agent/memory/compressor.go:43-89 | a history that fits the limit or has no more than four messages is returned as it is; of any other, unless the summary fails, the last two to six messages are kept, three or more only uncut and never fewer than six where one more would have fitted the budget, something was summarised, what was summarised and the uncut messages make up the history, and the summary merges the old with the new; with a limit of at least 64 the kept tokens are within the limit, and within max(limit - old summary, limit/4) where the history was too long; a failure changes nothing |
| Compressor.Compressor.SixtyFourSuffices | internal/agent/memory/compressor.go:62-68 | with a limit of at least 64 tokens, two messages of any length can be trimmed to the budget, so that compressing ends |
| Compressor.Compressor.CompressEndsExactlyWhen | internal/agent/memory/compressor.go:54-78 | compressing a long history ends exactly if its last two messages, each counted with at most eight tokens, fit the budget or have at most one token each |
| Compressor.Compressor.CompressCanRunForever | internal/agent/memory/compressor.go:43-89 | a history of five messages of eight tokens is compressed to a limit of fifteen for ever |
| Compressor.MergeSummary | internal/agent/memory/compressor.go:161-181 | without an old or a new summary the other one, and both with a blank line between where they fit; otherwise the loop drops paragraphs from the oldest on until the rest fits |
| Compressor.MergedIsLongestFittingEnd | internal/agent/memory/compressor.go:161-181 | the result is a suffix of the old summary, a blank line and the new one, starts at a paragraph and is the longest such that fits, or the last paragraph alone |
| Compressor.NewestSummarySurvives | internal/agent/memory/compressor.go:156-181 | a new summary of one paragraph always survives whole, however small the limit |
| LocalAgent.Session.constructor | internal/agent/local/registry.go:69-79 | a session starts open with nobody waiting |
| LocalAgent.Session.Begin | internal/agent/local/registry.go:113-124 | a call gets a channel of its own on the desk, unless the session is closed |
| LocalAgent.Session.Deliver | internal/agent/local/registry.go:93-106 | a frame reaches the call with its identifier and nobody else, at most once; false when nobody waits for it |
| LocalAgent.Session.End | internal/agent/local/registry.go:126-130 | a call that returns leaves the desk |
| LocalAgent.Session.Receive | internal/agent/local/registry.go:136-147 | a call returns the frame it received exactly if it is of the wanted type, that the agent is gone exactly if it was told so, and an unexpected type otherwise |
| LocalAgent.Session.Close | internal/agent/local/registry.go:197-216 | everyone on the desk finds the news in its channel, the desk is empty and the session closed; closing again does nothing |
| LocalAgent.Session.TellAll | internal/agent/local/registry.go:206-212 | the loop of Close tells each waiting call |
| LocalAgent.Session.Confirm | internal/agent/local/registry.go:172-191 | the recorded workspace changes only when the agent has confirmed it |
| LocalAgent.Registry.TakeOver | internal/agent/local/registry.go:260-270 | a new open session takes the place of the old one, which is returned to be closed and is no longer registered for anybody |
| LocalAgent.Registry.Detach | internal/agent/local/registry.go:276-281 | a session that ends removes itself only if it is still the current one, and never anybody else; it is not registered when it is closed |
| LocalAgent.Registry.Current | internal/agent/local/registry.go:292-297 | whoever is looked up is the user's own session and open; nothing is found only if nobody is registered |
| AgentProtocol.StepKeepsInv | internal/agent/local/registry.go:93-289 | every critical section and channel operation of callers, read loops, take-overs and disconnections keeps the invariant |
| AgentProtocol.RunKeepsInv | internal/agent/local/registry.go:93-289 | so does every run |
| AgentProtocol.LateReplyIsDropped | internal/agent/local/registry.go:91-106 | a frame for a call that is not waiting on that connection changes nothing |
| AgentProtocol.FrameReachesItsCall | internal/agent/local/registry.go:93-148 | a frame for a call that waits on that connection reaches it whatever happens in between: the call returns with it, or with an error that names its type if it wants another, unless it gives up or fails to write first; until then one of the steps left to it can be taken |
| AgentProtocol.NothingIsMadeUp | internal/agent/local/registry.go:113-148 | in every run a call that returned a frame, or an unexpected type, was sent it by the agent of its own session under its own identifier; one that reports a failed write or a context that is done had it |
| AgentProtocol.EveryReplyOnceAndToItsCall | internal/agent/local/registry.go:93-148 | in every reachable state a reply channel has had at most one send, so no delivery blocks; what a call finds in it carries its own identifier, or says that its session is gone, and then the session is closed; it returns only a frame with its identifier and of the type it wants |
| AgentProtocol.ClosedSessionWakesEveryone | internal/agent/local/registry.go:197-216 | once a session is closed nobody is pending on it, and each call that waits on it has a message or one about to be sent |
| AgentProtocol.WhoeverIsGoneIsClosed | internal/agent/local/registry.go:260-286 | in every reachable state a session that has ended is closed, and one that is no longer registered is closed, about to close itself, or about to be closed by its successor |
| AgentProtocol.NoCallWaitsInVain | internal/agent/local/registry.go:193-216 | as long as a call on a session that was replaced, lost its connection or is closed has not returned, the call, the session or its successor has a step to take |
| AgentProtocol.EveryCallReturnsOnceGone | internal/agent/local/registry.go:275-286 | where no such step is left, every call on such a session has returned |
| AgentProtocol.StepsAreBounded | internal/agent/local/registry.go:113-148 | along every run a call takes at most three steps and a session at most four turns |
| AgentProtocol.ClosedForGood | internal/agent/local/registry.go:113-124 | a closed session stays closed, nothing becomes pending on it again and it is never registered again |
| AgentProtocol.RegistryHoldsOpenSessions | internal/agent/local/registry.go:260-297 | in every reachable state the session found for a user is that user's own and not closed |
| AgentProtocol.OnlyItselfOrSuccessor | internal/agent/local/registry.go:276-281 | a registration ends only by that session's own end or by a take-over for the same user |
| AgentProtocol.StaysRegistered | internal/agent/local/registry.go:276-281 | so a successor stays registered whatever its predecessors' cleanups do |
| RateLimit.TokenBucket.constructor | middleware/ratelimit.go:97-104 | an empty store |
| RateLimit.TokenBucket.LocalTokenBucket | middleware/ratelimit.go:171-207 | the call finds a full bucket for a new client, otherwise what is left and the refill of the seconds since, up to the capacity, and nothing more when the clock went back; it is allowed exactly if that is a token or more and then takes one; the time is kept, no other bucket changes, and a map of more than 100000 is emptied first |
| RateLimit.TokensInRange | middleware/ratelimit.go:181-206 | over every run of non-decreasing times the tokens stay between zero and the capacity |
| RateLimit.FoundWithinRoom | middleware/ratelimit.go:181-206 | a bucket never holds more than any window leaves open |
| RateLimit.FoundIsSomeRoom | middleware/ratelimit.go:181-206 | and always exactly what one window leaves open |
| RateLimit.AllowedExactlyWithinEveryWindow | middleware/ratelimit.go:171-207 | a call is allowed if and only if with it no window ending now has more calls than capacity plus refill |
| RateLimit.WindowBound | middleware/ratelimit.go:171-207 | in any window of d nanoseconds of any run at most capacity plus refill for d calls are allowed |
| RateLimit.PatientClientNeverRefused | middleware/ratelimit.go:171-207 | with a capacity of at least one, a client that leaves time for one token between calls is never refused |
| RateLimit.RedisAgrees | middleware/ratelimit.go:128-160 | when a bucket fills within 300 seconds, the script with its expiry holds the same tokens as the local bucket after every run |
| RateLimit.RedisForgetsTooSoon | middleware/ratelimit.go:150-158 | if what a bucket emptied of its whole tokens refills within 300 seconds is less than the whole tokens it can hold, two bursts 300 seconds apart get more from the script than from the local bucket |
| RateLimit.SlowBucketsDiffer | middleware/ratelimit.go:150-158 | whenever a bucket takes at least two nanoseconds longer than 300 seconds to fill, there is a run on which script and local bucket decide differently |
| RateLimit.RedisAgreesExactlyWhen | middleware/ratelimit.go:128-160 | script and local bucket decide alike on every run if and only if capacity is at most 300 times refill or less than one; for all capacities but those with a fraction that are reached within two nanoseconds after the expiry and, as far as whole tokens go, at the expiry |
| RateLimit.TinyBucketRefuses | middleware/ratelimit.go:128-206 | a bucket that cannot hold one token refuses every call, locally and in the script |
| RateLimit.RedisAgreesForWholeCapacities | middleware/ratelimit.go:128-160 | for a whole number of tokens, script and local bucket decide alike on every run if and only if capacity is at most 300 times refill |
| RateLimit.ClientsAreIndependent | middleware/ratelimit.go:181-206 | what is stored for a client depends on its own calls only, whatever the others do |
| Chunk.Divide | internal/rag/chunk.go:82-109 | the loop over the separators, the recursion and the overlap compute the specified chunks, and end for every text; what those are, `NothingIsLost` and `FittingPartsStayWhole` say |
| Chunk.DivideAll | internal/rag/chunk.go:99-103 | the loop over the parts appends the chunks of each in turn |
| Chunk.CutBySize | internal/rag/chunk.go:112-129 | the cutting loop, with its step that falls back to the full length, computes the specified cuts |
| Chunk.JoinNeighbours | internal/rag/chunk.go:132-150 | the overlap loop takes from the chunk before, as it was before it got its own overlap |
| Chunk.EveryChunkFits | internal/rag/chunk.go:82-150 | every chunk is non-empty and has at most maxLen + overlap - 1 runes (maxLen without overlap) |
| Chunk.PartHasFewerLevels | internal/rag/chunk.go:92-102 | a part has only finer separators left to be split at than the text it comes from |
| Chunk.CutsFit | internal/rag/chunk.go:112-129 | cuts alone never exceed maxLen |
| Chunk.NothingIsLost | internal/rag/chunk.go:82-150 | the runes that the chunks carry alone are exactly the pieces left when the text is divided at paragraph breaks, line breaks, ideographic full stops, fullwidth commas and blanks, in this order, each only within pieces that are too long, and by size at last; the pieces stand in the text one behind the other with only separator runes between them; what each chunk repeats is nothing but copies of the last `overlap` runes of the chunk before, at most six, and the first repeats nothing |
| Chunk.FittingPartsStayWhole | internal/rag/chunk.go:92-106 | of a text that is too long every non-empty part between occurrences of the first separator that occurs in it, provided that it fits, is a chunk: whole, and with nothing before it but the last `overlap` runes of the chunk before |
| Chunk.PartLacks | internal/rag/chunk.go:97-103 | the parts hold neither the separator nor any separator that the text does not hold |
| Text.JoinSplit | internal/rag/chunk.go:97 | joined with the separator, the parts are the text |
| Chunk.NeighboursShareOverlap | internal/rag/chunk.go:104-105 | a chunk starts with the last `overlap` runes of the one before, unless it has maxLen runes or more, or the one before has at most twice the overlap |
| Chunk.NestedSplitsRepeatOverlap | internal/rag/chunk.go:99-105 | more than one copy does occur: for a whole family of two-line texts the last chunk starts with two |
| Fusion.Rrf | internal/rag/retrieve.go:240-275 | returns min(5, number of different documents) different documents in order of descending score, the copy of the second input wherever that holds it; none left out scores above one returned |
| Fusion.Tally | internal/rag/retrieve.go:244-251 | the loop over one ranking adds 1/(k+rank) for each occurrence and keeps the last copy |
| Fusion.Pairs | internal/rag/retrieve.go:257-260 | the loop over the map lists every entry once |
| Fusion.SortByScore | internal/rag/retrieve.go:261-263 | the list is rearranged by descending score and loses nothing |
| Fusion.AboveInBothComesFirst | internal/rag/retrieve.go:238-275 | a document ranked above another in both inputs comes before it whenever the other is returned |
| Fusion.AgreementComesFirst | internal/rag/retrieve.go:238-275 | a document that both inputs rank no further down than k comes before every document found by only one of them |
| Fusion.ScoreWrittenOut | internal/rag/retrieve.go:245-254 | a document at place p of one input and q of the other scores 1/(k+p+1) + 1/(k+q+1), one held by only one of them that one summand |
| Fusion.LargerSumComesFirst | internal/rag/retrieve.go:238-275 | of two documents in both inputs the one with the larger sum comes first; with k = 60, second and third place come before first and fifth |

## Left out

- Waiting, sleeping and wall-clock time: timers, contexts and deadlines fire at arbitrary moments; the time to live with its random jitter (`ttlWithJitter`) is the arbitrary expiry given to `ExactCache.Set` and `NegativeCache.Store`.
- Scheduler shutdown across pools: the guarantees of Close and Drain are per pool; pools built lazily while `Scheduler.Close` runs, the disabled scheduler, which admits everybody and wraps nothing, and `poolFor` are not modelled.
- The circuit breaker's automaton: its verdict is a non-deterministic step, and only that each admitted call reports once is proved.
- `leastConn`: a minimum search with a tie-break, which would add an easy member.
- Pool.Pool.Await: one call of it stands for the select once a case has been chosen; that the choice races with Release and Close is in `PoolProtocol`.
- Pool.Pool.Drain: what each poll finds is a parameter; that an idle pool stays idle is in `PoolProtocol.DrainedForGood`.
- Pool.Pool.Release: sends in the same step in which it takes the waiter out; the program sends after unlocking, which is a step of its own in `PoolProtocol`. The same holds for Pool.Pool.Close.
- Coordinator.Coordinator.Do: states one call undisturbed by others; concurrent calls are in `SingleFlight`, where keys are numbers, the semantic cache may answer anything, so that `OldAnswerIsUsedExactlyWhen` speaks of runs in which it finds nothing for the key, as after a purge, and losing an entry stands for expiry, eviction and invalidation alike.
- The streaming path of the chat service (`service/chat/generation.go`), which looks up and stores outside the singleflight group and is not covered by `SingleFlight`.
- `exactKey`: the 64-bit hash of namespace and question is taken as the pair itself, so hash collisions are not modelled.
- Coordinator.Coordinator.AnswersStayInNamespace: speaks of namespaces, which are users exactly under the condition of `NamespacesMeetExactlyWhen`.
- SemanticCache.ComputeCosine: takes the square root as a given function and computes over reals; rounding is not modelled here or in the rate limit and the fusion.
- Computing embeddings, calling models, prompts, and the text sent to the model for a summary: a summary, an embedding or its failure is an argument.
- Compressor.NewestSummarySurvives: for a new summary of several paragraphs only the last one is certain to survive, which `MergedIsLongestFittingEnd` states.
- Invalid UTF-8: texts are sequences of runes, so a rune is never cut and decoding never fails.
- RateLimit.ClientsAreIndependent: for runs in which the store never exceeds 100000 buckets; the reset beyond that is in `LocalTokenBucket`.
- RateLimit.TokensInRange: times do not decrease in the order in which the lock is taken, as for every lemma on runs; the program reads the clock before it takes the lock, and `LocalTokenBucket` covers that case for one call.
- RateLimit.RedisAgreesExactlyWhen: leaves open the capacities named by `Marginal`: above 300 times refill, but by less than what arrives in two nanoseconds, with a fraction that makes up the whole tokens at the expiry; whether the two ever differ there depends on which fractions of a token calls at whole nanoseconds can leave behind.
- The fallback from Redis to the local bucket when Redis fails, and the HTTP handlers around both.
- LocalAgent.Session.Close: tells everyone and then clears the desk, where the program does both in one loop over a map; nobody sees the state in between, since the lock is held.
- AgentProtocol.StepKeepsInv: frames of every kind are delivered, a superset of the two kinds that the read loop delivers; identifiers are never used twice, as with random UUIDs; the WebSocket connection, pings and `Online` are not modelled.
- Fusion.SortByScore: an insertion sort stands for the library's sort; only the contract, descending and a permutation, is used, so nothing is promised about equal scores.
- Chunk.Divide: requires a positive length and an overlap that is not negative, as the callers pass; the code slices out of range for a negative overlap and does not end for a length of zero. Splitting at Markdown headers is not modelled.
- Metrics, logs, statistics, configuration defaults other than those named above, HTTP controllers, storage, queues, e-mail and the front end.
