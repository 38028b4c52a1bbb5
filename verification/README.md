# Redline: verified models of its state machines

Redline is a self-hosted inference gateway. Its hard logic sits in a few small state
machines: Lua scripts run by Redis, conditional SQL statements, mutex-guarded structures and
one printer/parser pair across the network. This project models each of them in Dafny and proves
what they keep over every run, every interleaving and every input.

A component that changes state is modelled twice and the two are tied together. A value-level
specification gives the effect of each atomic step, and lemmas about sequences of such steps state the
properties. Beside it stands an imperative model (a class whose methods update its fields, or a method
with loops) whose postconditions state its new state in the terms of that specification. For token
rotation and for migrations, where one operation is several steps, lemmas show that the steps
taken without interference do what the method does. Sizing is plain arithmetic and is modelled once.

Verify everything with `dafny verify dfyconfig.toml`.

| file | component |
|---|---|
| `DurableQueue.dfy` | the durable job queue and its worker pool |
| `LocalCache.dfy` | the reference-counted LRU disk cache |
| `AdapterPool.dfy` | the LoRA adapter pool, router and engine |
| `RateLimiter.dfy` | the sliding-window rate limiter |
| `GpuBinding.dfy` | exclusive GPU tenancy with a zeroing hold |
| `ChunkedUpload.dfy` | concurrent, resumable multipart upload |
| `Telemetry.dfy` | hourly downsampling and pruning of telemetry |
| `ChatStream.dfy` | the server-sent-event writer and the dashboard's incremental reader |
| `RefreshTokens.dfy` | refresh-token rotation and logout |
| `Migrator.dfy` | schema migrations by concurrent replicas |
| `Backoff.dfy` | saturating retry backoff on wrapping 64-bit integers |
| `Sizing.dfy` | KV-cache, batch and tensor-parallel sizing |
| `Common.dfy` | sequences: removal, splicing, sorting |

## Where the code keeps less than one might expect

Each of these is proved: a lemma gives a run or an input that fails, and another says exactly when
the property holds.

- Queue: a Nack from a stale Reap puts a finished job back in pending without its payload
  (`StaleNackRevivesJob`) or leaves a second copy behind (`StaleNackLeavesCopy`). An id has one home while
  live and none once finished if and only if every Push found it nowhere, every Nack found it in
  processing and every Ack found it there or nowhere (`OneHomeExactly`). A finished id is back in the
  lists if and only if its Ack left a copy outside processing or a Nack came after it
  (`FinishedReturnsExactly`).
- Queue: an Ack of an id's previous life that falls between the two writes of Enqueue deletes the new
  payload (`AckBetweenWritesLosesPayload`). A delivery carries a payload if and only if the id was
  stored after its last Ack (`DeliveryPayloadExact`).
- Cache: a Put that fails has already dropped the key's own entry, even when it was referenced, which
  its documentation does not say (`FailedPutDropsOwnEntry`; `PutExact` says when Put fails and what is left).
- Binding: a zero pass open while its device is bound can end in a tenancy on dirty memory
  (`EarlyPassLeaks`). Reuse of memory is safe throughout a run if and only if no pass is ever open on
  a bound device (`SafeExactly`).
- Binding: a holder named "zeroing" is reported as a zeroing hold (`ZeroingTenantMisreported`), and refusals
  are reported truthfully if and only if the holder has another name (`ReportIsTrueExactly`).
- Upload: a source that fails with an unexpected-end error (`CutSourceLooksComplete`), or whose failure comes
  with the bytes that fill a part and is not repeated (`DroppedFailureLooksComplete`), is taken as
  complete. Which failures end the upload is exact (`FailureSeenExactly`).
- Retention: the comment on the job promises that nothing is pruned without having been aggregated. When
  each statement sees rows committed before it, a row committed between the two is pruned and counted
  nowhere (`LateRowVanishes`), and two overlapping runs count a row twice (`OverlapDoublesRow`); `SuchARow` is
  a concrete row for both. `LateRowsExact` and `OverlapExact` say exactly when nothing is lost or doubled.
- Backoff: NextDelay panics on the largest delays (`PanicReachable`), and exactly when its bound is
  the largest 64-bit value (`PanicExactly`).
- Sizing: a context of 17 tokens (`SeventeenTokens`) shows both that a sequence is admitted that does not
  fit the blocks, which happens exactly when not even one fits (`SequencesFitBudget`), and that the cache
  a footprint reserves for one full-length sequence does not hold it once cut into blocks, which it does
  if and only if the block size divides the context (`ReservedCacheHoldsContext`).

## Model

| member | source | states |
|---|---|---|
| `DurableQueue.HashIsHistory` | internal/queue/ops.go:28-51 | in every interleaving a job's hash is exactly what the history implies: payload of the last store since the last Ack, attempts equal to the Nacks since |
| `DurableQueue.VisibilityIsProcessing` | internal/queue/ops.go:16-51 | in every interleaving an id is in processing exactly when the visibility set names it, with the deadline of its last delivery |
| `DurableQueue.OwedIsHeld` | internal/queue/ops.go:16-51 | in every interleaving an id pushed or requeued and not Acked since is in pending, processing or dead-letter |
| `DurableQueue.NothingLost` | internal/queue/queue.go:85-93 | whatever runs before, between and after the two writes of Enqueue, an id neither Acked nor stored again is in one of the lists with its payload |
| `DurableQueue.DeliveryPayloadExact` | internal/queue/ops.go:23-25 | an id has a payload if and only if some store of it has no later Ack |
| `DurableQueue.StaleNackRevivesJob` | internal/queue/ops.go:156-174 | exactly-once fails: a Nack after the Ack leaves the finished id pending with no payload |
| `DurableQueue.StaleNackLeavesCopy` | internal/queue/ops.go:156-174 | a stale Nack of a pending job leaves a second copy after the first is Acked |
| `DurableQueue.OneHomeExactly` | internal/queue/ops.go:28-51 | over any run, ids reused or not: an id is once in the lists while live and nowhere when finished, at every point, if and only if every Push found it nowhere, every Nack in processing, every Ack there or nowhere |
| `DurableQueue.FinishedReturnsExactly` | internal/queue/ops.go:28-51 | until it is enqueued or Acked again, an Acked id is in the lists if and only if the Ack left a copy outside processing or a Nack of it came later |
| `DurableQueue.DisciplineIsProper` | internal/queue/ops.go:28-51 | the calling discipline meets that condition for every id |
| `DurableQueue.AckBetweenWritesLosesPayload` | internal/queue/queue.go:85-93 | an Ack between the two writes leaves the id pending without a hash |
| `DurableQueue.DeliveryIsFifo` | internal/queue/ops.go:16-26 | in every interleaving the deliveries followed by the pending list are exactly the pushes, first enqueues and requeues together |
| `DurableQueue.DeadLetterIsHistory` | internal/queue/ops.go:43-46 | in every interleaving the dead-letter list is exactly the ids whose Nacks reached MaxAttempts, in order |
| `DurableQueue.OneHome` | internal/queue/ops.go:16-51 | under the calling discipline each enqueued, un-Acked id occurs exactly once across the three lists, every other id never |
| `DurableQueue.Partition` | internal/queue/ops.go:16-51 | under the discipline the lists are duplicate-free and disjoint and hold exactly the enqueued ids not Acked |
| `DurableQueue.BoundedDelivery` | internal/queue/queue.go:37-42 | under the discipline live jobs have fewer than max attempts, dead ones exactly max, all keep their payload, and none is delivered more than max times |
| `DurableQueue.WorkEnds` | internal/queue/ops.go:36-51 | without new jobs the steps that do anything number at most twice the attempts left plus the ids pending |
| `DurableQueue.MeasureDrops` | internal/queue/ops.go:36-51 | each effective Dequeue, Ack or Nack lowers that measure |
| `DurableQueue.WorkersAreDisciplined` | internal/queue/workerpool.go:54-90 | any number of workers in any schedule, lost replies included, only Ack or Nack ids in processing and never hold the same job twice |
| `DurableQueue.TakeIsDequeue` | internal/queue/workerpool.go:54-69 | a worker's take is a Dequeue, and it holds the job delivered |
| `DurableQueue.FinishIsProcess` | internal/queue/workerpool.go:71-90 | its finish is the Ack of a handled job or the Nack of a failed one, as Process settles it |
| `DurableQueue.ReapAloneIsDisciplined` | internal/queue/ops.go:156-174 | a Reap whose Nacks nothing overtakes keeps the discipline |
| `DurableQueue.Normalize` | internal/queue/queue.go:50-61 | positive options stay; the others become 5 attempts, 30 seconds and 200 milliseconds |
| `DurableQueue.Queue.constructor` | internal/queue/queue.go:71-73 | an empty queue with normalized attempts |
| `DurableQueue.Queue.Enqueue` | internal/queue/queue.go:85-93 | stores the hash with zero attempts, then appends the id to pending |
| `DurableQueue.Queue.TryDequeue` | internal/queue/ops.go:84-111 | moves the oldest pending id to processing with its deadline; reports nothing, the job, or an id whose hash is gone |
| `DurableQueue.Queue.Ack` | internal/queue/ops.go:28-34 | removes every trace of the id from processing, visibility and hashes |
| `DurableQueue.Queue.Nack` | internal/queue/ops.go:134-151 | one more attempt, then dead-letter at max and pending below it, reported accordingly |
| `DurableQueue.Queue.Reap` | internal/queue/ops.go:156-174 | Nacks the expired ids in order up to the first failing call; when none fails, exactly the unexpired ids stay in flight |
| `DurableQueue.ReapHides` | internal/queue/ops.go:156-174 | Nacking a whole scan leaves exactly the unexpired entries, with their deadlines |
| `DurableQueue.Process` | internal/queue/workerpool.go:71-90 | a handled job is Acked, a failed one Nacked, and a reported dead-letter is one |
| `LocalCache.EvictionIsMinimal` | internal/localcache/lru.go:77-94 | eviction removes the shortest run of cold unreferenced entries that makes room, or fails when none does, keeping exactly the referenced ones |
| `LocalCache.PutExact` | internal/localcache/lru.go:58-94 | Put fails if and only if size plus the referenced bytes of other keys exceeds the limit; exact contents on success and on failure |
| `LocalCache.FailedPutDropsOwnEntry` | internal/localcache/lru.go:58-68 | a concrete failed Put after which the key's referenced entry is gone |
| `LocalCache.UnboundedPut` | internal/localcache/lru.go:79-82 | with a limit of 0 or less Put always succeeds and evicts nothing |
| `LocalCache.OrderedByRecency` | internal/localcache/lru.go:70-71 | after any run the list is strictly sorted by last Put or Get |
| `LocalCache.NoKeyTwice` | internal/localcache/lru.go:62-64 | after any run no key occurs twice |
| `LocalCache.VictimIsColdest` | internal/localcache/lru.go:96-103 | after any run the victim is the least recently touched of all unreferenced entries |
| `LocalCache.EntryKept` | internal/localcache/lru.go:118-163 | an entry seen after an operation that is not its own Put was there before with the same path and size, and only its own Acquire or Release moved its count |
| `LocalCache.EntryStays` | internal/localcache/lru.go:118-190 | only a Put or its own Remove takes an entry away; after anything else it is there, its count moved by its own Acquire or Release alone |
| `LocalCache.RefsAreBalance` | internal/localcache/lru.go:131-163 | after any run a reference count is the Acquires minus the Releases since the key's last Put |
| `LocalCache.PinnedSurvives` | internal/localcache/lru.go:34-36 | a referenced entry survives every operation but a Put or Remove of its own key |
| `LocalCache.WithinLimit` | internal/localcache/lru.go:77-94 | with sizes not negative a bounded cache never holds more than its limit, after any run |
| `LocalCache.FilesBackEntries` | internal/localcache/lru.go:105-116 | as long as no two keys share a path, after any run every cached entry still has its file |
| `LocalCache.DeletedExactly` | internal/localcache/lru.go:105-116 | an operation deletes exactly the files of the entries it takes away, except the one a Put replaces |
| `LocalCache.LRUCache.constructor` | internal/localcache/lru.go:46-52 | an empty cache whose list, map and counter agree |
| `LocalCache.LRUCache.RemoveElement` | internal/localcache/lru.go:107-116 | list, map and counter drop the entry together, and its file goes exactly when asked to |
| `LocalCache.LRUCache.LeastRecentlyUsedUnreferenced` | internal/localcache/lru.go:96-103 | the backward scan finds the specified victim, and nothing exactly when every entry is referenced |
| `LocalCache.LRUCache.EvictToFit` | internal/localcache/lru.go:79-94 | the eviction loop ends in the specified contents and error, with exactly the victims' files deleted |
| `LocalCache.LRUCache.Put` | internal/localcache/lru.go:58-75 | new contents, error and deleted files are those of the specification; list, map and counter still agree |
| `LocalCache.LRUCache.Get` | internal/localcache/lru.go:119-129 | the path under the key, moved to the front; nothing changes for a missing key |
| `LocalCache.LRUCache.Acquire` | internal/localcache/lru.go:134-144 | one more reference on exactly that entry, or not found |
| `LocalCache.LRUCache.Release` | internal/localcache/lru.go:149-163 | one less reference, or not found, or not referenced |
| `LocalCache.LRUCache.Remove` | internal/localcache/lru.go:180-190 | the entry and its file go whatever its count, or not found |
| `AdapterPool.ViewsAgree` | internal/lora/pool.go:46-75 | whatever load or unload fails, order, resident set and engine agree after every run, duplicate-free and within the slots |
| `AdapterPool.OutcomeIsTruth` | internal/lora/pool.go:42-75 | Acquire succeeds exactly when the adapter ends up loaded, then most recently used; a failed eviction changes nothing |
| `AdapterPool.EachAcquireIsRight` | internal/lora/pool.go:46-75 | after any run: which outcome, at most the least recently used adapter gone and only from a full pool, the rest in their places; a failed load with a free slot changes nothing |
| `AdapterPool.StackIsByLastUse` | internal/lora/pool.go:20-24 | the reference stack is the names acquired, each once, sorted by last use |
| `AdapterPool.PoolIsTopOfStack` | internal/lora/pool.go:54-73 | a k-slot pool holds exactly the k most recently acquired distinct names, oldest first |
| `AdapterPool.SmallerIsSuffix` | internal/lora/pool.go:54-73 | inclusion: a smaller pool's order is a suffix of a larger one's at every point |
| `AdapterPool.MoreSlotsNeverHurt` | internal/lora/pool.go:54-73 | more slots never cost more loads |
| `AdapterPool.Router.Resolve` | internal/lora/router.go:37-48 | the base model or a resident adapter resolves to itself, anything else does not |
| `AdapterPool.Router.MarkLoaded` | internal/lora/router.go:51-55 | the resident set gains exactly that name |
| `AdapterPool.Router.MarkUnloaded` | internal/lora/router.go:59-63 | the resident set loses exactly that name |
| `AdapterPool.IndexOf` | internal/lora/pool.go:85-92 | the first index of the name, or -1 exactly when it is absent |
| `AdapterPool.Pool.Acquire` | internal/lora/pool.go:46-75 | pool, router and engine end in the specified state with the specified outcome and stay consistent; outcome, eviction and order are right on every branch, failed loads included |
| `RateLimiter.DecisionIsHistory` | internal/ratelimit/limiter.go:17-39 | the pruned, expiring sorted set decides exactly as a limiter that remembers every admission: admitted if and only if fewer than limit admissions lie in the trailing window |
| `RateLimiter.ExpiryUnobservable` | internal/ratelimit/limiter.go:36-38 | once expiry is due, answering from the key or from no key is the same |
| `RateLimiter.KeyIsWindow` | internal/ratelimit/limiter.go:24-37 | the key holds exactly the admissions still inside the window and expires one window after the last |
| `RateLimiter.AtMostLimitPerWindow` | internal/ratelimit/limiter.go:62-64 | over a whole run every interval of one window's length holds at most limit admissions |
| `RateLimiter.ToldMeansFull` | internal/ratelimit/limiter.go:27-34 | on rejection the window holds exactly limit admissions and the retry time is when the oldest leaves |
| `RateLimiter.NoneBeforeRetryAt` | internal/ratelimit/limiter.go:24-38 | after a rejection nothing is admitted before now plus RetryAfter, however many requests come |
| `RateLimiter.AdmittedFromRetryAt` | internal/ratelimit/limiter.go:24-38 | the next request is admitted if and only if it is not before that time |
| `RateLimiter.KeyIsSorted` | internal/ratelimit/limiter.go:28-36 | even when clocks disagree the key stays sorted, so the oldest member is the one the script reads |
| `RateLimiter.OtherWaits` | internal/ratelimit/limiter.go:27-38 | an admission reports no wait; with a limit below one every request is refused with the window |
| `RateLimiter.Limiter.Allow` | internal/ratelimit/limiter.go:64-96 | one call has the specified effect and answer on its own key and none on other keys |
| `GpuBinding.HashIsPhase` | internal/scheduler/gpubinding.go:28-77 | on every run the hash shows exactly one of free, held by a tenant's allocation, zeroing, as the history implies |
| `GpuBinding.TenanciesAreSeparated` | internal/scheduler/gpubinding.go:28-77 | two successful Binds of a device by different tenants have between them a Release by the allocation recorded then and, later, a hold clear |
| `GpuBinding.StaleReleaseIsInert` | internal/scheduler/gpubinding.go:55-66 | a Release by any other allocation changes nothing on any device |
| `GpuBinding.CleanAlways` | internal/scheduler/gpubinding.go:149-158 | if passes start under the hold they clear, free devices are clean and no cell a current pass cleared is dirty, always |
| `GpuBinding.TenancyStartsClean` | internal/scheduler/gpubinding.go:143-158 | then each new tenancy finds every cell cleared since the last one |
| `GpuBinding.EarlyPassLeaks` | internal/scheduler/gpubinding.go:153-158 | from any state with a pass open on a bound device, succeeding calls lead to a claimable device with dirty memory |
| `GpuBinding.OutsideHoldMeansExposed` | internal/scheduler/gpubinding.go:153-158 | a pass whose device is held by another hold than the one it started under was open while the device was bound |
| `GpuBinding.CarefulIsDisciplined` | internal/scheduler/gpubinding.go:153-158 | if no pass is ever open on a bound device, every pass clears the hold it started under |
| `GpuBinding.SafeExactly` | internal/scheduler/gpubinding.go:143-158 | at every point of a run whatever is under way can only free clean devices, if and only if at no point a pass is open on a bound device |
| `GpuBinding.ReportIsTrueExactly` | internal/scheduler/gpubinding.go:115-131 | on every run a refused Bind is reported truthfully if and only if the holder is not named "zeroing" |
| `GpuBinding.ZeroingTenantMisreported` | internal/scheduler/gpubinding.go:124-127 | one Bind by such a tenant makes the next refusal report a hold |
| `GpuBinding.Bindings.Bind` | internal/scheduler/gpubinding.go:109-131 | succeeds exactly when the device is neither held nor another tenant's, and then records tenant and allocation; a refusal changes nothing; the refusal reported is the one the reply yields |
| `GpuBinding.Bindings.Release` | internal/scheduler/gpubinding.go:136-141 | holds the device exactly for the recorded allocation |
| `GpuBinding.Bindings.CompleteZero` | internal/scheduler/gpubinding.go:164-169 | frees the device exactly when it is held |
| `GpuBinding.Bindings.ZeroDevice` | internal/scheduler/gpubinding.go:153-158 | clears the hold only after a successful pass |
| `ChunkedUpload.ChunksJoin` | internal/cache/upload.go:134-140 | the chunks joined are the source; all but the last are full, the last not empty |
| `ChunkedUpload.ChunksCount` | internal/cache/upload.go:134-140 | there are as many parts as the length over the part size, rounded up |
| `ChunkedUpload.SortedIsInOrder` | internal/cache/upload.go:178 | any completion order of one part per number sorts to parts 1..n |
| `ChunkedUpload.LaunchKeeps` | internal/cache/upload.go:137-161 | handing over a chunk keeps every read part accounted for exactly once and stored faithfully |
| `ChunkedUpload.FinishKeeps` | internal/cache/upload.go:149-159 | so does any upload in flight ending, well or badly |
| `ChunkedUpload.FinalParts` | internal/cache/upload.go:174-180 | with everything read and nothing failed the sorted parts are 1..n and carry their chunks |
| `ChunkedUpload.Transfer` | internal/cache/upload.go:134-176 | for every schedule of reader and workers, each state reached by a hand-over or the end of an upload and never more in flight than the limit, the loop ends with everything read, nothing in flight, the true total and the read failure reported |
| `ChunkedUpload.Resume` | internal/cache/upload.go:114-187 | for any completed-parts map, completes exactly when no seen read failure, no failed part and the final call succeeds, with the source's length and ascending parts; when the map is keyed by own numbers, parts 1..n, as many as the length over the requested size rounded up, each storing its chunk, all but the last of exactly the requested size, joined equal to the source; aborted otherwise; never more uploads at once than requested |
| `ChunkedUpload.FailureSeenExactly` | internal/cache/upload.go:163-172 | the loop ends as failed if and only if the report that counts, with unfilling last bytes or else after them, is a failure other than an unexpected end |
| `ChunkedUpload.CutSourceLooksComplete` | internal/cache/upload.go:166-167 | a source cut short ends the loop as a complete one does |
| `ChunkedUpload.DroppedFailureLooksComplete` | internal/cache/upload.go:136-167 | so does a source whose failure comes with the bytes that fill a buffer |
| `ChunkedUpload.CompletedParts` | internal/cache/upload.go:67-84 | paging collects each listed part under its number and nothing else, and fails exactly when one of the pages does |
| `ChunkedUpload.PartSizeFor` | internal/cache/upload.go:43-46 | a positive request is the part size, any other means 64 MiB |
| `ChunkedUpload.ConcurrencyFor` | internal/cache/upload.go:47-49 | a positive request is the concurrency, any other means 4 |
| `Telemetry.RetainKeepsTotal` | internal/db/telemetry_retention.go:78-111 | one retention run leaves, per model and hour, what both tables together say |
| `Telemetry.RunDownsamples` | internal/db/telemetry_retention.go:78-115 | after any history a committed run leaves exactly the rows from the cutoff on, as often and in order, and each bucket grows by exactly the rows before it; an aborted one changes nothing |
| `Telemetry.RawIsHistory` | internal/db/telemetry_retention.go:105-108 | a sample is still raw exactly as often as it was inserted since the last committed run with a later cutoff |
| `Telemetry.BucketBounds` | internal/db/telemetry_retention.go:83 | a bucket holds its model's samples of 3,600,000,000 microseconds |
| `Telemetry.RetentionConserves` | internal/db/telemetry_retention.go:63-118 | after any inserts and any committed or aborted runs with any cutoffs, aggregates merged with raw rows equal the fold of all samples ever inserted |
| `Telemetry.ScheduleIndependent` | internal/db/telemetry_retention.go:63-70 | two schedules over the same samples are indistinguishable |
| `Telemetry.FoldMeans` | internal/db/telemetry_retention.go:81-91 | sums, counts and maximum are over the non-null values of the bucket's samples |
| `Telemetry.StoredMeanIsTrueMean` | internal/db/telemetry_retention.go:24-48 | when everything is pruned the stored means are the means of all samples, null for none |
| `Telemetry.InCut` | internal/db/telemetry_retention.go:105-108 | cutting puts exactly the rows older than the cutoff on one side and the rest on the other |
| `Telemetry.LateRowsLost` | internal/db/telemetry_retention.go:63-70 | what is lost to rows committed between the statements is exactly their aggregate below the cutoff |
| `Telemetry.LateRowsExact` | internal/db/telemetry_retention.go:63-70 | nothing is lost if and only if every such row is recent, joinless or blank |
| `Telemetry.LateRowVanishes` | internal/db/telemetry_retention.go:78-111 | any row below the cutoff committed between the statements is pruned and adds to no count |
| `Telemetry.OverlapCountsTwice` | internal/db/telemetry_retention.go:78-111 | two overlapping runs, in either order and with any cutoffs, add the rows below both cutoffs once more |
| `Telemetry.OverlapExact` | internal/db/telemetry_retention.go:78-111 | they conserve if and only if those rows carry nothing |
| `Telemetry.OverlapDoublesRow` | internal/db/telemetry_retention.go:78-111 | any row below both cutoffs is counted twice |
| `Telemetry.SuchARow` | internal/db/telemetry_retention.go:78-111 | a concrete row of that kind |
| `Telemetry.Tables.Create` | internal/db/telemetry_samples.go:37-49 | one more raw row |
| `Telemetry.Tables.RunJob` | internal/db/telemetry_retention.go:71-118 | all or nothing; takes the rows before the cutoff into the aggregates and leaves the rest, reports how many it took, and keeps every bucket's total |
| `ChatStream.Stream` | internal/api/handler.go:188-250 | the loop writes the body that BodyDecodes and RoundTrip are about |
| `ChatStream.BodyDecodes` | internal/api/handler.go:194-250 | the body decodes to one chunk per event before a failure: content, role on the first token only, finish reason and usage (prompt, completion, sum) at the end only; then data: [DONE] if and only if nothing failed, and nowhere else |
| `ChatStream.SplitIncremental` | web/src/lib/useChatStream.ts:56-59 | for any text and any cut, incremental framing gives the frames of the whole |
| `ChatStream.SplitExact` | web/src/lib/useChatStream.ts:58-59 | frames and rest put together are the text, each frame ends at the earliest break, the rest has none |
| `ChatStream.TrimExact` | web/src/lib/useChatStream.ts:61-63 | trimming takes off white space at both ends, all of it and nothing else |
| `ChatStream.ForeignFrameIgnored` | web/src/lib/useChatStream.ts:62 | a frame that is not data makes no difference wherever it stands |
| `ChatStream.BadFrameStops` | web/src/lib/useChatStream.ts:66 | a data frame whose payload, even an empty one, does not parse ends the reading with the text so far |
| `ChatStream.Receive` | web/src/lib/useChatStream.ts:48-78 | for any text in any pieces, the read loop ends as reading all frames of the whole text does, parse failures included |
| `ChatStream.RoundTrip` | web/src/lib/useChatStream.ts:53-78 | for every event list and every cutting of the written text the reader's text is the content of the events, up to a failure |
| `ChatStream.RoundTripFrom` | internal/api/handler.go:194-250 | the written text leaves nothing over in the reader's buffer |
| `ChatStream.CodecExists` | internal/api/handler.go:243-250 | the assumptions made of the JSON codec, whole chunks included, can be met |
| `ChatStream.Converse` | internal/api/handler.go:194-250 | writer and reader run against each other |
| `RefreshTokens.AtMostOneSuccessor` | internal/auth/session.go:118-137 | in every interleaving of rotations and logouts a presented token has at most one successor |
| `RefreshTokens.AtMostOneLive` | internal/auth/session.go:118-149 | in every interleaving each login has at most one unrevoked token |
| `RefreshTokens.InvAlways` | internal/auth/session.go:118-149 | an unrevoked token and a rotation about to issue exclude each other, per login, always |
| `RefreshTokens.ChainKeepsUser` | internal/auth/session.go:136 | every token of a login is its user's |
| `RefreshTokens.RevokedForGood` | internal/db/refresh_tokens.go:56-70 | whatever anyone does afterwards, a revoked token stays as it is |
| `RefreshTokens.NoneFromExpired` | internal/auth/session.go:125-130 | over every run each successor was issued by a rotation that looked its token up unrevoked and no later than it expires |
| `RefreshTokens.RevokeIsStatement` | internal/db/refresh_tokens.go:58-70 | the revoke step of the interleaving is the conditional update, and a rotation goes on exactly when it touched a row |
| `RefreshTokens.CreateIsStatement` | internal/db/refresh_tokens.go:29-40 | login and issue steps are the insert, the successor for the stored user |
| `RefreshTokens.StepsRotate` | internal/auth/session.go:120-137 | the lookup, revoke and issue steps taken without interference do to the table what Rotate does |
| `RefreshTokens.Repository.Create` | internal/db/refresh_tokens.go:29-40 | one more unrevoked row |
| `RefreshTokens.Repository.GetByHash` | internal/db/refresh_tokens.go:43-54 | a row with that hash, or none exactly when there is none |
| `RefreshTokens.Repository.Revoke` | internal/db/refresh_tokens.go:58-70 | revokes an active row and says whether it did |
| `RefreshTokens.Repository.Rotate` | internal/auth/session.go:120-137 | succeeds exactly for a known token, not revoked and not past its expiry, when issuing succeeds; revokes that token only, leaves every other row, expired ones too, and adds its user's successor |
| `RefreshTokens.Repository.Logout` | internal/auth/session.go:140-149 | revokes exactly the token presented, expired or not, and fails for one unknown or already revoked |
| `Migrator.LoadMigrations` | internal/db/migrate.go:52-60 | succeeds exactly when all versions differ, with the same migrations strictly ascending; otherwise names a repeated version |
| `Migrator.AppliedIsPrefix` | internal/db/migrate.go:78-134 | any number of replicas, runs, failures and crashes, and lists of older and newer releases: the versions applied are a prefix of the longest list |
| `Migrator.OnceAndInOrder` | internal/db/migrate.go:93-134 | so they are applied in strictly ascending order, and a replica at the end of its own list leaves all of it applied |
| `Migrator.AtMostOnce` | internal/db/migrate.go:93-134 | whatever lists the replicas have, no version is ever applied twice |
| `Migrator.OneReplicaAtATime` | internal/db/migrate.go:100-105 | at most one replica is past the lock |
| `Migrator.LockPassesOn` | internal/db/migrate.go:100-105 | a replica that ends frees the lock and the next one gets it; before that nobody does |
| `Migrator.MissingCompletes` | internal/db/migrate.go:115-133 | over a prefix the missing versions are exactly the rest of the list |
| `Migrator.AloneMigrates` | internal/db/migrate.go:93-134 | one replica's lock, read and advance steps without interference add exactly the missing versions up to the first stop |
| `Migrator.Database.Migrate` | internal/db/migrate.go:93-134 | for any list and database it applies the missing versions in list order up to the first failing or repeated one, as one replica's uninterrupted steps do |
| `Backoff.OverflowIsCaught` | internal/scheduler/retry.go:102-106 | a wrapped doubling is always negative |
| `Backoff.JitterBound` | internal/scheduler/retry.go:88-110 | the loop on wrapping integers gives min(MaxDelay, BaseDelay * 2^(attempt-1)) for every attempt |
| `Backoff.BoundGrows` | internal/scheduler/retry.go:82-87 | the bound never shrinks with attempts, and is positive and at most MaxDelay |
| `Backoff.NextDelay` | internal/scheduler/retry.go:88-116 | a delay in [0, bound], and a panic exactly when the bound is the largest value |
| `Backoff.PanicExactly` | internal/scheduler/retry.go:115 | which policies and attempts reach that |
| `Backoff.PanicReachable` | internal/scheduler/retry.go:115 | a policy that reaches it on the first attempt |
| `Backoff.Normalize` | internal/scheduler/retry.go:31-42 | positive fields stay; the others become 2 seconds, 5 minutes and 8 attempts |
| `Backoff.Decide` | internal/scheduler/retry.go:65-80 | retries exactly placement failures with attempts left, with a delay in the bound |
| `Sizing.BytesPerTokenIsSum` | internal/ingest/vram.go:77-89 | bytes per token is the sum over layers, heads, keys and values |
| `Sizing.BlocksAreLargest` | internal/inference/vllm_kvcache.go:39-56 | the block count is the largest that fits; the budget is too small exactly when one block does not fit |
| `Sizing.InvalidGeometryExactly` | internal/inference/vllm_kvcache.go:40-43 | a geometry is refused exactly without layers or heads, or with a hidden size below the head count |
| `Sizing.BatchingFloor` | internal/inference/vllm_batching.go:38-61 | at least one sequence and one token, at most 8192 tokens, one sequence without a length |
| `Sizing.SequencesFitBudget` | internal/inference/vllm_batching.go:38-61 | the admitted sequences fit the budget at full length exactly when one does, and one more would not fit |
| `Sizing.FewerHeadsNeverFewerBlocks` | internal/inference/vllm_kvcache.go:39-56 | fewer key-value heads never yield fewer blocks |
| `Sizing.ReservedCacheHoldsContext` | internal/ingest/vram.go:64-69 | the reserved cache cut into blocks holds the context if and only if the block size divides it |
| `Sizing.SeventeenTokens` | internal/inference/vllm_batching.go:38-61 | a context of 17: the admitted sequence does not fit, nor does the reserved cache hold it |
| `Sizing.DegreeIsLeast` | internal/inference/vllm_args.go:98-106 | a degree covers the footprint exactly when it is at least max(1, ceil(footprint / VRAM)) |
| `Sizing.RenderEngineArgs` | internal/inference/vllm_args.go:107-136 | the search returns that degree and fails if and only if it exceeds the node |
| `Sizing.QuantizingNeverNeedsMore` | internal/ingest/vram.go:44-62 | lower precision never needs more GPUs; INT4 wastes at most half a byte |
| `Sizing.FootprintAddsUp` | internal/ingest/vram.go:44-69 | two bytes, one byte, half a byte rounded up per parameter, plus the same cache of one full context |

## Assumptions

- Queue: the discipline named in the rows is that ids are never reused, an id is pushed once and after it
  is stored, and Ack and Nack are called only for ids in processing. `WorkersAreDisciplined` shows that
  workers meet it. The rows that do not name it hold without it.
- Rate limiter: clocks do not go back and the key's expiry runs on the same clock, in milliseconds.
- Engine and store calls: a failed load or unload leaves the engine as it was.
- Cache files: each artifact is on disk when it is Put.
- GPU memory: a workload writes only while its tenancy is recorded; a pass clears the cells it says it clears.
- Telemetry: sums are exact; a sample is joined to a run that does not change its model.
- Refresh tokens: issued tokens are fresh and their hashes distinct.
- Chat stream: the JSON codec gives one line without surrounding white space and reads its content back, or for
  `BodyDecodes` the whole chunk.

## Left out

- Rotate: rows have distinct hashes and the new row's id is unused, as the table provides.
- Polling, timers and cancellation of Dequeue: Dequeue is the loop around the modelled attempt.
- A file deletion that fails, which the cache ignores, and the cache's read-only accessors.
- Random members of the rate limiter's sorted set: two requests never draw the same one here.
- A rate window given in less than a millisecond: times are whole milliseconds.
- HTTP handlers other than the stream loop, middleware, routing, metrics and time-to-first-token figures.
- The UTF-8 decoder of the reader: pieces are pieces of text, not of bytes.
- A chunk that cannot be encoded as JSON: the gateway skips it, and its chunk type always encodes.
- Cancellation of sibling part uploads after the first failure: it is one of the causes for which a part may fail.
- The directory scan and file-name parsing of LoadMigrations: it starts from the parsed files.
- The primary key of schema_migrations in runs of several replicas: the lock alone gives the result there.
- Floating-point rounding in telemetry: sums and means are over real numbers.
- 64-bit overflow in cache sizes, upload totals and sizing products: these are unbounded integers.
- Engine data type, quantization flag and clamped memory utilization: one-branch mappings.
- The last guard of NextDelay against a bound that is not positive: after normalization it cannot fire.
- Cryptography, JWTs and password hashing: opaque, with freshness and distinct hashes assumed.
- Deployment states, failure classification, placement, quotas, prefix routing, watchdog and idle reaper: finite or single-branch.
- The rest of the web front end, WebSocket telemetry, sandbox and firewall text generation.
