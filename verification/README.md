# conjure-runtime: models and proofs

A Dafny project that models the parts of `conjure-runtime` (an asynchronous HTTP client) in which
state, concurrency and arithmetic meet, and proves what those parts are for. `dafny verify
dfyconfig.toml` checks all of it.

## What is modelled

* **The concurrency limiter stack.** `SemaphoreSpec` gives each operation of the deficit semaphore as a
  function on values. `DeficitSemaphore` is the semaphore as the program builds it, an intrusive doubly
  linked queue, and every one of its methods refines a function of the specification. `SemaphoreRuns`
  reasons about every run of polls, dropped futures, dropped permits and adjustments, and `SemaphoreTasks`
  carries every such run out on the objects, many futures sharing one linked queue. `CiadSpec`,
  `CiadRuns`, `CiadOverflow` and `CiadUnderflow` do the same for the limiter that drives the
  semaphore's total from a compare-and-exchanged limit, `Ciad` holds its objects, and `LimiterRuns`
  stacks an endpoint limiter in front of the host limiter.
* **The client-state cache.** `WeakCache` is the least-recently-used cache of weak references,
  `WeakCacheRuns` its runs with values that die and evictors that run late, `ClientFactory` the factories,
  clones, setters and clients that share such caches.
* **The retry protocol.** `HttpError` turns answers into errors, `Retry` is the retry loop with its
  body-reset discipline and its pauses.
* **Body streaming.** `Pipe`, `RequestBody` and `RequestPath` carry request bytes from the writer to the
  connection; `Gzip` and `ResponseBody` carry response bytes through the decoder to the caller.
* **Node selection.** `Reservoir` (decaying failure memory), `Balanced` (scores, filter, choice) and
  `PinUntilError` (pin rotation and reshuffling).

`Options`, `Config` and `Tallies` are shared vocabulary.

## How to read the models

* **Concurrency.** Every atomic access is sequentially consistent and is one step; a region under a mutex
  is one step; between two steps of one thread any other thread may take any number of its own. A run is
  a sequence of enabled steps, and the main theorems quantify over every run. The `Enabled` predicates
  hold what Rust's ownership and the contract of futures guarantee (a finished future is not polled again,
  a permit is dropped once). Side conditions there that keep counters above zero are not assumptions:
  `SemaphoreRuns.LivePermitIsOutstanding` and `CiadRuns.CountersCover` prove that they hold when needed.
* **Helpers.** Lemmas that only split the cases of one or two definitions (`CiadSpec.BlameIsNotShared`,
  `Retry.NonIdempotentRetriesOnlyRefusals`, `Retry.PropagatedQosEndsTheCall`) serve the results below and are
  not among them.
* **Panics** are outcomes: `None`, `ok == false`, `Panicked`, or a count of permits whose adjustment was
  lost (`lostRemovals`, `lostAdditions`). A panic in an adjustment leaves the semaphore as it was, and the
  semaphore permit is still released while the stack unwinds. If dropping one `Permit` panics at the
  endpoint level and again at the host level, the second panic comes while the first unwinds and the real
  process aborts; the model goes on, with both adjustments lost, which only adds runs.
* **Numbers.** f64 values are reals; counters are naturals. Where the width of an integer matters it is
  written out: the overflow and underflow checks of the semaphore, saturating scores, the 32-bit shift of the
  backoff (modelled as a release build has it, the distance wrapping modulo 32) and the largest `Duration`.
* **The outside world** (clocks, random choices, what servers answer, what a gzip decoder puts out, when the
  other side polls or hangs up) comes in as parameters or as the run itself. A decoder is any triple of
  functions obeying `Gzip.Lawful`.

## Where the code falls short of the obvious property

* Lowering the limit can panic: `CiadUnderflow.RemovalCanPanic` gives a run from the initial state in which
  `remove_permits` underflows, because two increases and two decreases exchanged the limit before any of
  the four adjusted the semaphore. `CiadRuns.RemovalPanicsIff` says exactly when it happens; it cannot
  while no addition is pending.
* After a decoding error, `DecodedBody` is left in its final state, and further polls hand out the still coded
  frames: `Gzip.CodedBytesComeOut` is an instance, `Gzip.AfterFailureCodedBytes` and
  `ResponseBody.ReadingOnGetsCodedBytes` say what a reader that goes on receives, and `Gzip.FailsIffFaulty` and
  `ResponseBody.CallerFailsIffFaulty` say exactly when there is a failure. The theorems about decoded
  content speak of readers that have seen none.
* A backoff can overflow and panic: `Retry.PanickingCall` is an instance, `Retry.CompletedPanicsIff` the exact
  condition.

## Model

| member | source | states |
|---|---|---|
| `SemaphoreSpec.PollKeepsInv` | conjure-runtime/src/service/node/limiter/deficit_semaphore.rs:188-243 | a poll keeps "no lost wake-up": a free permit means the head was woken since it last returned Pending, all behind it are armed, and no future is queued twice |
| `SemaphoreSpec.CancelKeepsInv` | conjure-runtime/src/service/node/limiter/deficit_semaphore.rs:166-182 | dropping a future anywhere in the queue keeps that invariant: a dropped head passes its wake-up on |
| `SemaphoreSpec.AdjustKeepsInv` | conjure-runtime/src/service/node/limiter/deficit_semaphore.rs:45-60 | adding, removing and returning permits keep it |
| `SemaphoreSpec.PollHead` | conjure-runtime/src/service/node/limiter/deficit_semaphore.rs:219-243 | polling the head is granted exactly when a permit is free, and otherwise leaves it with exactly the waker of this poll; the others keep their order |
| `SemaphoreSpec.DrainGrantsMinInOrder` | conjure-runtime/src/service/node/limiter/deficit_semaphore.rs:219-256 | from any state with k free permits and m waiters, polling woken waiters only grants exactly min(k, m) permits, to the front of the queue in order, and stops with nobody left woken |
| `SemaphoreRuns.PollIds` | conjure-runtime/src/service/node/limiter/deficit_semaphore.rs:188-243 | a poll joins at the back and is granted at the front only; nobody else moves |
| `SemaphoreRuns.CancelIds` | conjure-runtime/src/service/node/limiter/deficit_semaphore.rs:168-181 | a dropped future leaves its place and the others keep their order |
| `SemaphoreRuns.NextKeepsWorld` | conjure-runtime/src/service/node/limiter/deficit_semaphore.rs:45-256 | every event keeps the whole invariant: order of arrival, live permits counted, woken waiters known, no lost wake-up |
| `SemaphoreRuns.AbsolutelyFair` | conjure-runtime/src/service/node/limiter/deficit_semaphore.rs:23-24 | over every run, the futures not dropped before their grant, in the order of their first polls, are the granted ones in order of grant followed by the queue; outstanding permits are the live ones |
| `SemaphoreRuns.NoOvertaking` | conjure-runtime/src/service/node/limiter/deficit_semaphore.rs:23-24 | over every run, when a future has its permit, every future that came before it and was not dropped had its own earlier |
| `SemaphoreRuns.NoLostWakeup` | conjure-runtime/src/service/node/limiter/deficit_semaphore.rs:83-93 | over every run, if a permit is free while futures wait, the task of the first of them was woken and has not polled it since; every other waiter holds exactly the waker it was last polled with, also after a future moved to another task |
| `SemaphoreRuns.WakesTheHead` | conjure-runtime/src/service/node/limiter/deficit_semaphore.rs:83-93 | over every run, whatever event calls a waker calls that of the latest poll of the future that is then first in line |
| `SemaphoreRuns.LivePermitIsOutstanding` | conjure-runtime/src/service/node/limiter/deficit_semaphore.rs:250-256 | a live permit can always be dropped: the counter does not underflow |
| `SemaphoreRuns.DeficitGrowsOnlyByRemoval` | conjure-runtime/src/service/node/limiter/deficit_semaphore.rs:26-29 | over any stretch of a run without removals, the permits alive beyond the total do not grow in number |
| `DeficitSemaphore.Semaphore.MaybeWake` | conjure-runtime/src/service/node/limiter/deficit_semaphore.rs:83-93 | the pointer version wakes whom the specification wakes, at most once, and keeps the links |
| `DeficitSemaphore.Semaphore.AddPermits` | conjure-runtime/src/service/node/limiter/deficit_semaphore.rs:45-52 | refines the specification, overflow included |
| `DeficitSemaphore.Semaphore.RemovePermits` | conjure-runtime/src/service/node/limiter/deficit_semaphore.rs:54-60 | refines the specification, underflow included |
| `DeficitSemaphore.Semaphore.Dequeue` | conjure-runtime/src/service/node/limiter/deficit_semaphore.rs:104-131 | unlinking a node at the head, in the middle or at the tail leaves head, tail, next and prev describing exactly the queue without it, in order |
| `DeficitSemaphore.Semaphore.PushBack` | conjure-runtime/src/service/node/limiter/deficit_semaphore.rs:135-150 | the pointers then describe exactly the queue with the node behind it |
| `DeficitSemaphore.Acquire.Poll` | conjure-runtime/src/service/node/limiter/deficit_semaphore.rs:188-243 | refines the specification's poll: same state, same answer, same waker called; the future keeps a node exactly while it waits; its node is its own or is new, and nothing else enters the queue |
| `DeficitSemaphore.Acquire.Drop` | conjure-runtime/src/service/node/limiter/deficit_semaphore.rs:168-181 | refines the specification's cancellation; nothing enters the queue |
| `DeficitSemaphore.Permit.Drop` | conjure-runtime/src/service/node/limiter/deficit_semaphore.rs:250-256 | refines the specification's release |
| `SemaphoreTasks.QueueIsWaiters` | conjure-runtime/src/service/node/limiter/deficit_semaphore.rs:96-163 | with any number of futures on one semaphore, the linked queue is the run's queue: it holds the node of every waiting future, in order, each once and no other, and no two futures share a node |
| `SemaphoreTasks.PollTask` | conjure-runtime/src/service/node/limiter/deficit_semaphore.rs:188-243 | polling one of many futures keeps that, gives the run's answer and calls the run's waker |
| `SemaphoreTasks.DropTask` | conjure-runtime/src/service/node/limiter/deficit_semaphore.rs:167-182 | so does dropping one of them |
| `SemaphoreTasks.ReleaseTask` | conjure-runtime/src/service/node/limiter/deficit_semaphore.rs:250-256 | so does dropping a permit |
| `SemaphoreTasks.AddTo` | conjure-runtime/src/service/node/limiter/deficit_semaphore.rs:45-52 | so does adding permits, overflow included |
| `SemaphoreTasks.RemoveFrom` | conjure-runtime/src/service/node/limiter/deficit_semaphore.rs:54-60 | so does removing permits, underflow included |
| `SemaphoreTasks.Step` | conjure-runtime/src/service/node/limiter/deficit_semaphore.rs:35-256 | carrying out any event of a run on the objects takes them from one state of the run to the next and calls exactly the waker the run calls |
| `SemaphoreTasks.Run` | conjure-runtime/src/service/node/limiter/deficit_semaphore.rs:35-256 | carrying out any feasible run on objects, from a new semaphore, ends with pointers that describe exactly the queue of the run, made of the nodes of the futures that wait, a live permit object for every permit held, and exactly the run's wakers called, in order |
| `CiadSpec.ProposalInRange` | conjure-runtime/src/service/node/limiter/ciad.rs:164-179 | from a limit in [1, 1000000] every proposed limit is in it again |
| `CiadSpec.CautiousIncrease` | conjure-runtime/src/service/node/limiter/ciad.rs:166-173 | k eligible successes from L leave min(MAX^2, L^2 + 2k) <= limit^2 <= L^2 + 3k |
| `CiadSpec.AggressiveDecrease` | conjure-runtime/src/service/node/limiter/ciad.rs:174-179 | j drops leave limit <= max(1, 0.9^j L) |
| `CiadSpec.LimitFollowsLoad` | conjure-runtime/src/service/node/limiter/ciad.rs:166-173 | if no update saw more than m requests in flight, the limit is at most max(20, 10(m + 1)/9 + 1) |
| `CiadSpec.OnlyDropsLower` | conjure-runtime/src/service/node/limiter/ciad.rs:166-173 | no sequence of updates without a drop lowers the limit |
| `CiadRuns.NextKeepsInv` | conjure-runtime/src/service/node/limiter/ciad.rs:56-101 | every atomic step of any request keeps the ledger, the counters, the queue, the range and history of the limit, and the semaphore's invariant |
| `CiadRuns.CountersCover` | conjure-runtime/src/service/node/limiter/ciad.rs:160-162 | no counter of a running request underflows and no exchange divides by zero |
| `CiadRuns.EveryRunBalances` | conjure-runtime/src/service/node/limiter/ciad.rs:67-101 | in every state of every interleaving: total + pending additions - pending removals = floor(limit), corrected by panics; outstanding permits and in-flight requests are counted exactly; the limit is the sequential fold of the exchanges; at rest the total is floor(limit) |
| `CiadRuns.RemovalPanicsIff` | conjure-runtime/src/service/node/limiter/ciad.rs:90-95 | a pending removal underflows if and only if the pending additions exceed floor(limit), corrected by panics, plus the other pending removals; never while none is pending and none was lost |
| `CiadRuns.LoadBoundsLimit` | conjure-runtime/src/service/node/limiter/ciad.rs:160-181 | over every interleaving the limit is at most max(20, 10(M + 1)/9 + 1), M being the most requests ever in flight at once |
| `CiadRuns.StretchMovesLimit` | conjure-runtime/src/service/node/limiter/ciad.rs:160-181 | over any stretch of any interleaving the limit moves by that stretch's exchanges alone: k eligible successes from L leave min(MAX^2, L^2 + 2k) <= limit^2 <= L^2 + 3k, j drops leave limit <= max(1, 0.9^j L), and without a drop the limit is not lowered |
| `CiadRuns.ExchangeIs` | conjure-runtime/src/service/node/limiter/ciad.rs:67-101 | one attempt at the exchange: a success with fewer than floor(0.9 limit) in flight leaves limit, total and history alone; a limit changed meanwhile is tried again; else the limit becomes min(1000000, L + 1/L) or max(1, floor(0.9 L)) and the difference of the whole parts is left to adjust |
| `CiadRuns.EveryExchangeCounts` | conjure-runtime/src/service/node/limiter/ciad.rs:160-181 | over every run, the limit is the outcome of a history from 20 in which every exchange was a drop or a success with at least floor(0.9 L) in flight, and moved the limit by exactly that much |
| `CiadRuns.SnapshotCountsInFlight` | conjure-runtime/src/service/node/limiter/ciad.rs:59-60 | a request sees exactly the number of requests in flight, itself included |
| `CiadUnderflow.RemovalCanPanic` | conjure-runtime/src/service/node/limiter/ciad.rs:90-95 | a run from the initial state with eighteen requests reaches a removal that underflows |
| `CiadOverflow.AdditionFits` | conjure-runtime/src/service/node/limiter/ciad.rs:90-93 | with few enough requests, 1000000 times their number fitting a 64-bit word, an addition never overflows |
| `Ciad.CiadLimiter.UpdateLimit` | conjure-runtime/src/service/node/limiter/ciad.rs:67-101 | the loop, against any rivals that store limits and adjust permits in between, goes on only while its exchange fails, acts on the limit that stands after the rivals it met, stores exactly that limit's proposal, and moves the semaphore as the rivals left it by the difference of the whole parts, or leaves it alone |
| `Ciad.UpdatedIs` | conjure-runtime/src/service/node/limiter/ciad.rs:67-101 | what UpdateLimit and Drop promise, in numbers: when nothing moves, by how much the limit moves, that the total moves by the difference of the whole parts, and that a panic is a total out of range |
| `Ciad.CiadLimiter.Acquired` | conjure-runtime/src/service/node/limiter/ciad.rs:56-65 | the permit's snapshot counts itself, and its mode is Ignore until a response comes |
| `Ciad.CiadPermit.Drop` | conjure-runtime/src/service/node/limiter/ciad.rs:160-182 | against the same rivals: one request fewer in flight, the limit moved by the permit's mode and snapshot, the total following, the waiters' queue unchanged, and the semaphore permit returned even if following panicked |
| `Ciad.NodeLimiter.EndpointLimiter` | conjure-runtime/src/service/node/limiter/mod.rs:48-57 | an endpoint's limiter is made on first use and stays the same; the others are untouched |
| `Ciad.NodePermit.OnResponse` | conjure-runtime/src/service/node/limiter/mod.rs:73-78 | both levels get their own mode; never both Dropped, and Success at both or at neither |
| `LimiterRuns.EndpointWaitersLeaveHostAlone` | conjure-runtime/src/service/node/limiter/mod.rs:58-62 | over every run, a request waiting for its endpoint holds no host permit and is not in line for one |
| `LimiterRuns.LevelsAreRuns` | conjure-runtime/src/service/node/limiter/mod.rs:48-66 | over every run, the host and every endpoint are where the steps taken at them lead a single limiter |
| `LimiterRuns.UnheldLimiterServes` | conjure-runtime/src/service/node/limiter/ciad.rs:56-101 | a limiter with waiters of which nobody holds a permit has woken its first waiter, whose next poll is granted |
| `LimiterRuns.FewNeverOverflow` | conjure-runtime/src/service/node/limiter/ciad.rs:90-93 | over every run with few enough requests, no addition of permits at either level overflows |
| `LimiterRuns.NeverStuck` | conjure-runtime/src/service/node/limiter/mod.rs:48-66 | over every run, when all requests are suspended and any waits for its endpoint or the host, some waiter at some level was woken and its next poll is granted |
| `WeakCache.Store.GetOrMake` | conjure-runtime/src/weak_cache.rs:134-170 | the lookup with its trimming loop computes the specification's lookup |
| `WeakCache.Store.DropEvictor` | conjure-runtime/src/weak_cache.rs:70-82 | the evictor computes the specification's eviction |
| `WeakCacheRuns.NextKeepsInv` | conjure-runtime/src/weak_cache.rs:66-170 | every lookup, death and eviction keeps the invariant: size, unique keys and numbers, owners, order of recency, and the fate of every living value |
| `WeakCacheRuns.EvictorRemovesOnlyItsOwn` | conjure-runtime/src/weak_cache.rs:70-82 | however late it runs, an evictor removes its own value's entry if it is there, and no other |
| `WeakCacheRuns.EveryRunIsSound` | conjure-runtime/src/weak_cache.rs:120-170 | over every run: at most capacity entries, keys and numbers unique, and every entry's value is alive or has its evictor still to run |
| `WeakCacheRuns.RecentlyUsedIsHit` | conjure-runtime/src/weak_cache.rs:143-147 | over every run, a living value since whose last use fewer other keys than the capacity were looked up is returned by the next lookup of its key, and nothing is built |
| `WeakCacheRuns.LiveSlotLostOnlyToLru` | conjure-runtime/src/weak_cache.rs:163-168 | a living value loses its slot only as the least recently used of a full cache, to a value just built |
| `WeakCacheRuns.LookupReturns` | conjure-runtime/src/weak_cache.rs:134-170 | a hit returns a living value built for that key and builds nothing; a miss builds under a number never used; a failed construction changes no value |
| `WeakCacheRuns.LookupThenHit` | conjure-runtime/src/weak_cache.rs:134-170 | what a lookup returned, the next lookup of the key returns again |
| `ClientFactory.NextKeepsInv` | conjure-runtime/src/client_factory.rs:54-69 | every clone, setter, creation, build, death and eviction keeps: managers that share a cache agree on all that its key leaves out |
| `ClientFactory.CacheIsTransparent` | conjure-runtime/src/client_factory.rs:540-573 | after any run, what a client builds is the state that its own configuration would have given without a cache, and building succeeds when making one does |
| `ClientFactory.SharingIsInvisible` | conjure-runtime/src/client_factory.rs:540-573 | run the same events with factories and clients that share nothing: every state a client gets has its service, settings, metrics registries and runtime there, and the configuration and host index asked for |
| `ClientFactory.SharersGetTheSame` | conjure-runtime/src/client_factory.rs:570-572 | clients of one cache that ask for the same state one after the other get the same one, built once |
| `ClientFactory.CacheManager.Clone` | conjure-runtime/src/client_factory.rs:54-58 | a clone shares the cache and the configuration outside its key |
| `ClientFactory.CacheManager.SetUncached` | conjure-runtime/src/client_factory.rs:65-68 | changing that configuration takes a new, empty cache |
| `HttpError.ReadErrorBody` | conjure-runtime/src/service/http_error.rs:124-146 | the error body is all data before the place where reading stopped, and it stops only at the end, at a read error or just past 500 KiB |
| `Retry.DeconflictErrors` | conjure-runtime/src/service/retry.rs:254-265 | the walk along the chain of sources returns the body's error if and only if a request-body error is anywhere in the chain |
| `Retry.SendAttempt` | conjure-runtime/src/service/retry.rs:227-250 | from a pristine body, the body is written at most once and only if the connection asked for it; the outcome is the classified answer, with body and connection errors reconciled |
| `Retry.Backoff` | conjure-runtime/src/service/retry.rs:287-299 | the pause is the server's, or lies below the slot doubled for every earlier retry, any such pause being possible up to the 32nd retry; there is none, and a panic, if and only if the server named no time and the scaled slot exceeds the longest duration |
| `Retry.PrepareForRetry` | conjure-runtime/src/service/retry.rs:267-308 | gives up exactly with no retry left or after a failed reset, panics exactly when the backoff then overflows, and otherwise goes on with a pristine body after exactly one fit pause |
| `Retry.Call` | conjure-runtime/src/service/retry.rs:125-152 | every call, whatever it meets: body sent and written only pristine and reset only dirty; attempts up to exactly the first that the decision ends, at most max_num_retries + 1, with one fit pause between any two; the last outcome returned, or the panic of an overflowing backoff; configured as never idempotent, or by a method that is not, only refusals are repeated, and otherwise a failed connection or a 500 is repeated while a retry is left and the body can be reset |
| `Retry.CompletedPanicsIff` | conjure-runtime/src/service/retry.rs:267-300 | a call panics if and only if its last failure is to be retried without a time named by the server, a retry is left, the body could be reset, and that retry's backoff overflows; never unless the slot doubled 31 times exceeds the longest duration |
| `Retry.PanickingCall` | conjure-runtime/src/service/retry.rs:290-291 | such a call: with the longest slot, a service that is unavailable twice |
| `Retry.BudgetIs` | conjure-runtime/src/service/retry.rs:290-291 | pauses that double add up to slot * (2^r - 1) |
| `Retry.CompletedPauses` | conjure-runtime/src/service/retry.rs:287-299 | r retries pause by the layer's own choice for at most slot * (2^r - 1) |
| `Retry.CompletedHonoursRetryAfter` | conjure-runtime/src/service/retry.rs:195-199 | a retried 429 that names a time is followed by a pause of exactly that time |
| `Retry.CompletedNonIdempotent` | conjure-runtime/src/service/retry.rs:174-224 | in a call that is not idempotent (Call says which those are), every attempt but the last was refused: throttled or unavailable |
| `Retry.WhichAnswersAreRetried` | conjure-runtime/src/service/retry.rs:186-222 | through classification, error reconciliation and the retry decision: an answer is retried if and only if it is a 429 or 503 that is not propagated, or a 500 of an idempotent request; a failed connection, whatever its sources, if and only if the request is idempotent, unless it failed because of the body and the writer reports an error, which then decides; exactly the 2xx answers succeed |
| `Retry.CompletedPropagation` | conjure-runtime/src/service/retry.rs:187-191 | when propagated, no attempt follows a 429 or a 503 |
| `Retry.CallerIsTold` | conjure-runtime/src/service/http_error.rs:87-123 | the caller gets the status of a success; a 429 or 503 with its cause, of its own kind when propagated; the remote status of any other response |
| `Pipe.NextKeepsInv` | conjure-runtime/src/body.rs:48-101 | every step of writer or reader keeps: delivered, queued and buffered bytes are the accepted ones in order, and the writer's last word is the last thing queued |
| `Pipe.NeverTruncated` | conjure-runtime/src/service/raw/body.rs:101-130 | over every run the reader has a prefix of what was accepted; it is told of a complete end only by a writer that finished, and then has every byte; a writer that stopped early yields an error |
| `Pipe.LastWordArrives` | conjure-runtime/src/service/raw/body.rs:116-122 | once the writer is through, a reader who polls on is told of a complete body, with every byte, if the writer finished, and of an error if it did not |
| `RequestBody.BodyWriter.PollFlush` | conjure-runtime/src/body.rs:87-101 | sends the whole buffer as one frame, or changes nothing: broken exactly if there is something to send and the reader is gone, pending exactly if the channel is full |
| `RequestBody.BodyWriter.PollWrite` | conjure-runtime/src/body.rs:74-85 | takes all of the bytes or none; over 4096 buffered bytes it first sends them, and is pending or broken exactly as that is; the buffer never exceeds 4096 bytes plus the latest write |
| `RequestBody.BodyWriter.PollSend` | conjure-runtime/src/body.rs:48-70 | a frame of its own, or the word that the body is complete, goes out behind everything buffered, exactly if the reader is there and the channel has room for both; broken exactly if the reader is gone |
| `RequestBody.RawRequestBody.PollFrame` | conjure-runtime/src/service/raw/body.rs:101-130 | refines the reader of the pipe: same bytes, the end exactly on Done, an error exactly when the writer is gone without it; a single frame comes once; afterwards the body is empty |
| `RequestBody.RawRequestBody.Drop` | conjure-runtime/src/service/raw/body.rs:57-59 | refines the reader's hang-up |
| `RequestBody.HangUpBreaksWriter` | conjure-runtime/src/body.rs:87-101 | after an early hang-up a writer with something buffered is told so at its next flush, and keeps its buffer |
| `RequestPath.NextKeepsInv` | conjure-runtime/src/blocking/body.rs:46-104 | every step of the blocking writer, the shim, the asynchronous writer or the connection keeps the bytes conserved |
| `RequestPath.EndToEnd` | conjure-runtime/src/blocking/body.rs:46-163 | over every run, connection, second channel, shim, first channel and blocking buffer hold the accepted bytes in order; the connection sees a complete body only if the blocking writer finished, and then has every byte |
| `RequestPath.FinishedBodyArrives` | conjure-runtime/src/blocking/body.rs:46-104 | from any state in which the blocking writer has finished and nobody gave up, the shim, the writer behind it and the connection can go on, and the connection then sees a complete body with every byte |
| `Gzip.DecodedBody.PollFrame` | conjure-runtime/src/service/gzip/hyper.rs:104-164 | the loop computes the specification's poll |
| `Gzip.PollKeepsInv` | conjure-runtime/src/service/gzip/hyper.rs:104-164 | every poll keeps: input fed and input to come are the whole input, output handed on is the decoder's, trailers are neither early nor lost nor repeated |
| `Gzip.DecodesWhole` | conjure-runtime/src/service/gzip/hyper.rs:104-164 | for any chunking and number of polls without a failure, the reader has a prefix of the decoder's output; told of the end or of trailers it has all of it, and trailers come at most once |
| `Gzip.ReadingEnds` | conjure-runtime/src/service/gzip/hyper.rs:110-163 | whatever decoder and body do, polling on reaches the end |
| `Gzip.WholeBodyArrives` | conjure-runtime/src/service/gzip/hyper.rs:104-164 | a body that is not at fault is read to its end without a failure, exactly as decoded, with its trailers once |
| `Gzip.PendingIsTheBodys` | conjure-runtime/src/service/gzip/hyper.rs:104-164 | a poll is pending exactly when the coded body was, and a frame of decoded data is never empty |
| `Gzip.FailsIffFaulty` | conjure-runtime/src/service/gzip/hyper.rs:104-164 | read to its end, a body fails if and only if the coded one meets an error, cannot be finished, or has a data frame before the trailers that completes an input the decoder rejects |
| `Gzip.AfterFailureCodedBytes` | conjure-runtime/src/service/gzip/hyper.rs:111-161 | a reader that polls on after any failure gets exactly the rest of the coded body, not decoded |
| `Gzip.CodedBytesComeOut` | conjure-runtime/src/service/gzip/hyper.rs:111-161 | an instance: a decoder that rejects the first of two frames, and the second one read as it is |
| `ResponseBody.Reader.PollNextChunk` | conjure-runtime/src/body.rs:137-157 | the loop computes the specification's next chunk |
| `ResponseBody.Reader.PollFillBuf` | conjure-runtime/src/body.rs:176-192 | the loop computes the specification's filled buffer |
| `ResponseBody.Reader.PollRead` | conjure-runtime/src/body.rs:161-172 | the caller gets the front of the buffer, never more than its room and less only if the buffer is then empty, and the rest stays |
| `ResponseBody.DoKeepsInv` | conjure-runtime/src/body.rs:134-197 | each way of reading keeps: what came out of the decoded body is what the caller took and what is buffered; the end is announced only at the end |
| `ResponseBody.CallerGetsDecodedBody` | conjure-runtime/src/body.rs:134-197 | for any chunking and any mixture of reads without a failure, taken and buffered bytes are a prefix of the decoded body, and all of it once the body is done |
| `ResponseBody.EndMeansWhole` | conjure-runtime/src/body.rs:134-197 | told by any way of reading that there is no more, the caller has taken exactly the decoded body |
| `ResponseBody.CallerFailsIffFaulty` | conjure-runtime/src/body.rs:134-197 | whatever mixture of reads took the caller to the end, it met a failure on the way if and only if the coded body is at fault |
| `ResponseBody.CallerGetsWholeBody` | conjure-runtime/src/body.rs:134-158 | enough reads of chunks of a body that is not at fault reach the end without a failure, with exactly the decoded body |
| `ResponseBody.ReadFits` | conjure-runtime/src/body.rs:161-172 | a read gives as much of what a fill would show as fits, and leaves the rest |
| `ResponseBody.AnyWayGetsWholeBody` | conjure-runtime/src/body.rs:134-197 | enough reads in any mixture of chunks, reads into any room and fills with any use, of a body that is not at fault, reach the end without a failure, with exactly the decoded body |
| `ResponseBody.CallerWaitsWithBody` | conjure-runtime/src/body.rs:134-197 | no way of reading is pending unless the coded body was |
| `ResponseBody.ReadingOnGetsCodedBytes` | conjure-runtime/src/body.rs:134-197 | a caller that reads on after a failure, in whatever mixture, gets the rest of the coded body: taken, buffered and still to come |
| `Reservoir.DecayedLater` | conjure-runtime/src/service/node/selector/balanced/reservoir.rs:78-84 | decaying every update on its own for n more intervals is decaying their sum n times |
| `Reservoir.FadedPower` | conjure-runtime/src/service/node/selector/balanced/reservoir.rs:78-84 | n single decays are one multiplication by the n-th power |
| `Reservoir.HalfLife` | conjure-runtime/src/service/node/selector/balanced/reservoir.rs:19-23 | with a factor whose tenth power is one half, ten intervals halve the value exactly |
| `Reservoir.DecayCount` | conjure-runtime/src/service/node/selector/balanced/reservoir.rs:53-56 | whole intervals since the last boundary are the intervals begun since the last reading |
| `Reservoir.CoarseExponentialDecayReservoir.DecayIfNecessary` | conjure-runtime/src/service/node/selector/balanced/reservoir.rs:52-76 | keeps: the last decay is at the latest interval boundary and the value is the sum of the updates, each decayed from its own interval to the current one |
| `Reservoir.CoarseExponentialDecayReservoir.Update` | conjure-runtime/src/service/node/selector/balanced/reservoir.rs:42-45 | adds one update in the current interval and keeps that |
| `Reservoir.CoarseExponentialDecayReservoir.Get` | conjure-runtime/src/service/node/selector/balanced/reservoir.rs:47-50 | returns the eagerly decayed sum, whenever and however often the value was looked at before |
| `Balanced.Score` | conjure-runtime/src/service/node/selector/balanced/mod.rs:64-72 | load plus failures rounded half up, within one half unless that exceeds the word, and then the largest value; never below the load |
| `Balanced.SortSorts` | conjure-runtime/src/service/node/selector/balanced/mod.rs:167 | the sort by score sorts |
| `Balanced.SortIsStable` | conjure-runtime/src/service/node/selector/balanced/mod.rs:167 | and keeps nodes of equal score in order |
| `Balanced.KeepHealthy` | conjure-runtime/src/service/node/selector/balanced/mod.rs:169-193 | the kept nodes are a non-empty prefix of the sorted ones: each scores at most twice the last busy one before it, and the first dropped one scores more |
| `Balanced.Filter` | conjure-runtime/src/service/node/selector/balanced/mod.rs:152-193 | the same for any snapshots, sorted first |
| `Balanced.KeptIsUnique` | conjure-runtime/src/service/node/selector/balanced/mod.rs:169-193 | no other prefix fits that description |
| `Balanced.KeptInNumbers` | conjure-runtime/src/service/node/selector/balanced/mod.rs:171-193 | each kept node scores at most twice as much as the last one before it with more than five requests in flight |
| `Balanced.DroppedInNumbers` | conjure-runtime/src/service/node/selector/balanced/mod.rs:171-193 | the first node that is not kept scores more than twice as much as the last one before it with more than five requests in flight, and there is one |
| `Balanced.PollNodes` | conjure-runtime/src/service/node/selector/balanced/mod.rs:212-232 | the answer is a ready node of least score among the ready ones, and Pending means that none is ready |
| `PinUntilError.NextKeepsInv` | conjure-runtime/src/service/node/selector/pin_until_error.rs:127-169 | every atomic step keeps the pin in bounds, the order a permutation and the claims within the clock |
| `PinUntilError.EveryRunIsSound` | conjure-runtime/src/service/node/selector/pin_until_error.rs:110-231 | under every interleaving every request goes to an existing node, and the reshuffles claimed by time t, times the interval, are at most t |
| `PinUntilError.VisitsPinned` | conjure-runtime/src/service/node/selector/pin_until_error.rs:212-214 | a request that reads the clock before a reshuffle is due, however long its steps take, goes to the node under the pin |
| `PinUntilError.FailureRotates` | conjure-runtime/src/service/node/selector/pin_until_error.rs:218-228 | failing there, after any time, it moves the pin on by one, round the order |
| `PinUntilError.FailuresGoRound` | conjure-runtime/src/service/node/selector/pin_until_error.rs:212-231 | failures one after another, of any requests and of any duration, as long as none reads the clock after a reshuffle is due, visit the nodes of the order in turn, from the pin on |
| `PinUntilError.FailuresVisitEveryNode` | conjure-runtime/src/service/node/selector/pin_until_error.rs:212-231 | as many such failures as there are nodes visit every node exactly once |
| `PinUntilError.SuccessStays` | conjure-runtime/src/service/node/selector/pin_until_error.rs:218-228 | a success leaves the pin where it is |
| `PinUntilError.FailuresAtOnePin` | conjure-runtime/src/service/node/selector/pin_until_error.rs:223-228 | any number of requests that failed at one pin move it on once between them, and not at all if it has moved |
| `PinUntilError.ReshufflesWhenDue` | conjure-runtime/src/service/node/selector/pin_until_error.rs:127-153 | a request that finds the reshuffle due claims it, stores a new order, puts off the next one by the interval and goes by the new order |
| `PinUntilError.ReshufflingNodes.ReshuffleIfNecessary` | conjure-runtime/src/service/node/selector/pin_until_error.rs:127-153 | the order changes, and the next due time is set, exactly when the time has come and no rival claimed it; the order stays a permutation of the nodes |
| `PinUntilError.ReshufflingNodes.Get` | conjure-runtime/src/service/node/selector/pin_until_error.rs:164-168 | an index in bounds leads to an existing node, by the order that stands after the reshuffle and what rivals store |
| `PinUntilError.PinService.Call` | conjure-runtime/src/service/node/selector/pin_until_error.rs:212-231 | against rivals that claim the reshuffle, store an order or move the pin: the request goes to the node under the pin it read; the pin moves on by one exactly if that node fails and nobody else moved it |

## Left out

- Semaphore memory safety below the level of object references: pinning, `unsafe` aliasing rules and weaker memory orders; the models use references and sequential consistency.
- Ciad.CiadPermit.Drop: its rivals store limits and adjust permits; their own grants and in-flight counts, which interleave with it too, are the subject of CiadRuns.
- The acquire of the two-level limiter as one object method: an `await` suspends it between levels, so the order is modelled by the steps of LimiterRuns.
- Reservoir calls that race between the clock reading and the load of the last decay, and the narrowing of the number of decays to 32 bits: the reservoir is modelled sequentially; f64 rounding is not modelled anywhere.
- The interleavings of the pin selector and of the limiters on objects: they are step machines, so that every interleaving of their atomic accesses is a run; the objects beside them state one call each, given what rivals store in between.
- FixedNodes, the selector without reshuffling: its order is fixed, which is a run of PinUntilError with no claim.
- The per-host client collection and its loop over hosts, the deserialization and merging of service configurations, `refreshable` subscriptions: ClientFactory takes each build with its configuration as an event. The security, proxy, timeout and retry part of a configuration is one opaque value there.
- Client states are told apart by what they were built from; what a state does with it is not part of ClientFactory.
- Channels are queues of at most two parts for the one sender of a channel of capacity one; the exact moment at which a full channel parks its sender is not modelled.
- The length test of the blocking writer's flush, which looks at the argument and not at the buffer (conjure-runtime/src/blocking/body.rs:148): the model lets it flush at any time, which covers what the code does, and states conservation but no bound of that buffer.
- The blocking response body, which only forwards to the asynchronous one, and the size hints of bodies.
- Responses without the gzip coding, which pass through unchanged, and the request headers the gzip layer adds.
- The decoding of service errors from error bodies and their propagation: every other failing status is a remote error with its status.
- The inside of gzip, hashing, random sources, the linked hash map and the executor: parameters with stated laws, or steps of a run.
- TLS, certificate pinning, connectors, proxies, timeouts, tracing spans, metrics, header layers, URI joining, user agents and the WebAssembly variants: input and output, foreign libraries, or single-branch code.
