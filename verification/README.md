# A verified model of the threading library's core

This project models the stateful core of a C threading library and proves what its components promise each
other. Components whose code updates fields in place are classes or methods over arrays, proved against
functions on values; protocols between threads are step systems over any number of threads, in which a run
is any sequence of events whatsoever (an event that cannot happen in a state changes nothing), wakeups may be
spurious, and waits may time out.

| files | what they model |
|---|---|
| `Bits`, `HashIndex` | fixed-width arithmetic, hash functions, the sizes of a table and the bucket index |
| `Chains`, `HashTable` | the chained hash table: find, create, delete, the in-place rebuild, the walk |
| `ValueBags`, `Iterations`, `Ledgers`, `HashMap` | the map over the table: status codes, value ownership, iteration with callbacks |
| `Rings`, `CBuffer`, `BufferMonitor`, `BufferCalls`, `BufferWrap` | the circular buffer as a value, as a class over an array, as a monitor for any number of threads and their calls, and after 2^63 puts |
| `PauseProtocol`, `PauseRuns`, `PauseAndWait`, `PipelineStage`, `WorkerHistory` | pausing, resuming and shutting down a pipeline stage, and how its workers follow their loops meanwhile |
| `ShutdownLevels`, `StageLifecycle`, `StageThreads` | starting the workers of a stage and waiting for them |
| `WorkerLoop` | the four worker loops |
| `QMuxer` | polling many buffers with one muxer |
| `GState` | the global state of the process |
| `CStrings`, `Tokenizer`, `Numbers`, `NumberParser` | text in buffers: the tokenizer and the number parser |

Where the code and its documentation disagree, the model follows the code:

- Re-basing the buffer's indices after 2^63 puts, which the comment at src/lib/cbuffer.c:46-55 calls
  prepared for, loses values unless the number of slots divides 2^63 (`Rings.WrapExactly`,
  `BufferWrap.FifoExactly`).
- A pause issued right after a resume can keep all workers behind the barrier for good
  (`PauseRuns.ResumeThenPause`); `PauseRuns.CanPauseExactly` says when a requested pause can still be reached,
  and `PauseAndWait.WaitCanEndExactly` when a wait still can end; after a pause that timed out it may not
  (`PauseAndWait.WaitForeverReached`).
- A stage whose start failed can be started again, but its workers then leave at once, unless a shutdown with
  the level UNKNOWN, which is not refused, reopens the stage (`StageLifecycle.AfterFailedStartExactly`).
- Waiting for a global state never reports NOT_OPERATIONAL (src/include/mccp/mccp_gstate.h says it does once
  the shutdown has begun), and a worker that wakes up late aborts the process (`GlobalStates.GateExactly`).
- Clearing a buffer notifies a muxer that waits to read instead of one that waits to write
  (`QMuxers.HonestExactly`).
- Digits of bases from 17 on that look like an SI suffix are misread (`Numbers.DigitsExactly`), and so is zero
  exa written without a space (`Numbers.DecimalExactly`).
- A number with two signs is accepted (`Numbers.TwoSigns`).
- Iterating over an empty map reports a halted iteration (`HashMaps.HashMap.IterateMap`).

Two devices recur. A predicate that is costly to unfold is stated as "for all topics t that are open, t is this
topic implies the facts", so that its facts are available only where `Open` is mentioned. And the chained
table's shape is a value of type `View`, which the class keeps as a ghost field tied to its real fields.

## Model

| member | source | states |
|---|---|---|
| HashIndex.HashString | src/lib/hash.c:426-450 | the 32-bit shift-and-add loop, sign-extending each character, computes the base-9 value of the string modulo 2^32 |
| HashIndex.HashArray | src/lib/hash.c:716-732 | summing the key's words from its left-over bytes computes the word sum modulo 2^32 |
| HashIndex.GeometryExact | src/lib/hash.c:958-968 | after k rebuilds the sizing fields are 4^(k+1), 12*4^k, 28-2k and 4^(k+1)-1 as long as k <= 14; from the 15th rebuild on the sizes are 0, the shift has wrapped and the mask is full |
| HashIndex.GrowIdeal | src/lib/hash.c:958-968 | one rebuild quadruples the sizes without overflow or underflow below level 14 |
| HashIndex.RandomIndexBits | src/lib/hash.c:67-77 | the index of a word or array key is bits downShift..29 of the product, at every level |
| HashIndex.IndexInRange | src/lib/hash.c:67-77 | every computed index is below the bucket count |
| HashIndex.SplitOnGrow | src/lib/hash.c:966-992 | growing sends a word or array key from bucket b to one of 4b..4b+3 and a string key to a bucket congruent to b modulo the old count |
| Chains.Pushed | src/lib/hash.c:558-575 | linking a new entry at the head of its chain keeps chains, back-pointers and key lookup consistent and adds one key to the map |
| Chains.Removed | src/lib/hash.c:178-198 | unlinking an entry keeps all of that and takes exactly its key out of the map; nothing but its predecessor or the bucket head changes |
| Chains.Locate | src/lib/hash.c:178-198 | every entry stands in the chain of the bucket its back-pointer names, which is the bucket of its key |
| Chains.Moved | src/lib/hash.c:971-990 | moving the first entry of an old chain to its new bucket keeps both tables consistent and their union unchanged |
| Chains.WalkMeetsAll | src/lib/hash.c:274-327 | walking bucket by bucket and chain by chain meets every entry exactly once |
| Chains.WalkEnumerates | src/lib/hash.c:274-327 | that walk lists every key of the map exactly once |
| HashTables.RebuildSplits | src/lib/hash.c:966-992 | after a rebuild that keeps the entries, each entry's new chain is one of the four its old chain splits into |
| HashTables.HashTable.constructor | src/lib/hash.c:122-157 | a new table is consistent and stands for the empty map |
| HashTables.HashTable.Init | src/lib/hash.c:122-157 | initialization makes the table empty, on its static buckets, whatever it was before |
| HashTables.HashTable.CountIsSize | src/lib/hash.c:178-198 | the entry counter is the size of the map |
| HashTables.HashTable.ComputeIndex | src/lib/hash.c:470-482 | the index computed for a key is the one the placement of the table assigns to it, and in range |
| HashTables.HashTable.SearchChain | src/lib/hash.c:483-492 | searching one chain finds the entry of a key if and only if the whole table has it |
| HashTables.HashTable.Find | src/lib/hash.c:470-493 | finds the entry of a key, if and only if the map has the key, with the value last stored |
| HashTables.HashTable.Create | src/lib/hash.c:516-576 | finds or adds an entry; the map gains at most that key, nothing else changes, and the table is rebuilt exactly if the new entry fills it |
| HashTables.HashTable.AddEntry | src/lib/hash.c:555-575 | adds one entry with an empty value |
| HashTables.HashTable.MoveEntry | src/lib/hash.c:972-990 | one iteration of the inner rebuild loop moves one entry; old and new tables together still stand for the same map |
| HashTables.HashTable.MoveChain | src/lib/hash.c:971-991 | the inner rebuild loop terminates and empties one old chain |
| HashTables.HashTable.RebuildTable | src/lib/hash.c:943-1002 | a rebuild terminates, keeps the same entries and values, empties every old chain, leaves every entry where its key hashes to now, and restores numEntries < rebuildSize |
| HashTables.HashTable.SetValue | src/lib/hashmap.c:146-151 | assigning a value changes the map at that key only |
| HashTables.HashTable.DeleteEntry | src/lib/hash.c:178-198 | deletes exactly one entry |
| HashTables.HashTable.FindPrevious | src/lib/hash.c:184-193 | the search for the predecessor ends at it; the malformed-chain abort is never reached |
| HashTables.HashTable.FreeChain | src/lib/hash.c:226-233 | the entries of a chain are freed once each and the rest is untouched |
| HashTables.HashTable.DeleteTable | src/lib/hash.c:217-250 | every entry is freed exactly once and nothing is left |
| HashTables.HashSearch.First | src/lib/hash.c:274-285 | a walk starts with the first of all entries, or NULL for an empty table |
| HashTables.HashSearch.Next | src/lib/hash.c:306-327 | each call yields the next pending entry, and NULL exactly when none is left |
| ValueBags.BagSplit | src/lib/hashmap.c:99-140 | the values a map holds are a bag from which any key's value can be taken |
| Ledgers.StepBalanced | src/lib/hashmap.c:188-437 | each operation, an assignment or an iteration included, moves values between stored, handed back, freed and released without losing or duplicating one |
| Ledgers.Conservation | src/lib/hashmap.c:188-437 | over every run each non-NULL value stored is, exactly once, still stored, handed back, freed or released; with a free procedure and all free flags set none is released |
| Ledgers.NothingFreed | src/lib/hashmap.c:188-437 | over every run without a free procedure, or in which no call asks for it, nothing is freed |
| Iterations.IterateOutcome | src/lib/hashmap.c:51-71 | the callback sees a duplicate-free part of the entries, up to its first refusal; the iteration succeeds exactly if there are entries and none was refused |
| Iterations.IterateKeeps | src/lib/hashmap.c:51-71 | a callback that assigns nothing leaves the map alone |
| Iterations.IterateAll | src/lib/hashmap.c:99-122 | a callback that refuses nothing sees every value exactly once |
| Iterations.BooksBalance | src/lib/hashmap.c:51-71 | an iteration replaces stored values one for one with those the callback assigns |
| HashMaps.HashMap.constructor | src/lib/hashmap.c:154-185 | a new map is operational and empty |
| HashMaps.HashMap.DoIterate | src/lib/hashmap.c:51-71 | the loop over the walk does what the iteration over the enumerated keys says, values assigned by the callback included |
| HashMaps.HashMap.Find | src/lib/hashmap.c:258-278 | status and value are those of a finite map |
| HashMaps.HashMap.Add | src/lib/hashmap.c:325-358 | status, value handed out and new contents are those of a finite map, out-of-memory and refused overwriting included |
| HashMaps.HashMap.Delete | src/lib/hashmap.c:408-437 | likewise for delete; the free procedure gets the value handed out if and only if the map is operational, the flag is set, there is such a procedure and the value is not NULL |
| HashMaps.HashMap.FreeAllValues | src/lib/hashmap.c:99-122 | every stored non-NULL value goes to the free procedure exactly once |
| HashMaps.HashMap.Clean | src/lib/hashmap.c:125-133 | frees the values if asked to and leaves the table unusable and empty |
| HashMaps.HashMap.Clear | src/lib/hashmap.c:227-252 | drops all entries, freeing exactly their values if asked to; the map stays operational |
| HashMaps.HashMap.Shutdown | src/lib/hashmap.c:188-203 | drops all entries for good, freeing exactly their values if asked to; a second shutdown or the destruction frees nothing again |
| HashMaps.HashMap.SetEntryValue | src/lib/hashmap.c:146-151 | assigns a value to an entry of the map, which stays valid, and books the old and the new value |
| HashMaps.HashMap.IterateMap | src/lib/hashmap.c:485-502 | OK exactly if the map has entries and the callback refused none; an empty map reports a halted iteration; the map stays valid and the values the callback assigned and replaced are booked |
| Rings.AdjustKeeps | src/lib/cbuffer.c:42-60 | re-basing the indices of a buffer whose slot count divides 2^63 keeps the queue and the gap between the indices |
| Rings.RebaseGap | src/lib/cbuffer.c:42-60 | re-basing leaves the gap between the indices right if and only if the slot count divides 2^63 |
| Rings.WrapExactly | src/lib/cbuffer.c:42-60 | once the write index has wrapped, the next put appends its value, whatever it is, if and only if the slot count divides 2^63 |
| Rings.Misplaced | src/lib/cbuffer.c:42-60 | for any other slot count there is a value that such a put loses |
| Rings.PutAppends | src/lib/cbuffer.c:282-327 | a put appends its value exactly if the buffer is operational and not full; no write pointer error |
| Rings.GetTakesFirst | src/lib/cbuffer.c:353-398 | a get takes the first value exactly if the buffer is operational and not empty; no read pointer error |
| Rings.PeekShowsFirst | src/lib/cbuffer.c:424-460 | a peek shows the first value and takes nothing |
| Rings.FreesContents | src/lib/cbuffer.c:91-109 | the slots the free procedure is called on hold exactly the queue, in order |
| Rings.CleanEmpties | src/lib/cbuffer.c:112-124 | cleaning frees exactly the queue, if asked to, and leaves a sound empty buffer |
| CBuffers.CBuffer.constructor | src/lib/cbuffer.c:146-195 | a new buffer is empty |
| CBuffers.CBuffer.AdjustIndices | src/lib/cbuffer.c:42-60 | does what the re-basing function says, whatever the indices |
| CBuffers.CBuffer.SlotOf | src/lib/cbuffer.c:79-88 | the slot of an index, none for a negative one |
| CBuffers.CBuffer.FreeupAllValues | src/lib/cbuffer.c:91-109 | the loop frees each value of the queue once, in order, and keeps the queue |
| CBuffers.CBuffer.Clean | src/lib/cbuffer.c:112-124 | empties the buffer, freeing its queue if asked to |
| CBuffers.CBuffer.Put | src/lib/cbuffer.c:268-327 | one pass of a put: the queue grows by the value, or nothing changes and the pass is blocked or refused; a muxer that waits to read is notified exactly if the value was put |
| CBuffers.CBuffer.Get | src/lib/cbuffer.c:339-398 | one pass of a get |
| CBuffers.CBuffer.Peek | src/lib/cbuffer.c:410-460 | one pass of a peek |
| CBuffers.CBuffer.Clear | src/lib/cbuffer.c:236-262 | empties the buffer and notifies a muxer that waits to read, of all things |
| CBuffers.CBuffer.Shutdown | src/lib/cbuffer.c:127-140 | empties an operational buffer, once, and notifies any muxer |
| CBuffers.CBuffer.SetupForQmuxer | src/lib/cbuffer.c:639-700 | reports the sizes and what to wait for: READABLE when empty for a poll for READABLE or BOTH, WRITABLE when full for one for WRITABLE or BOTH; registers the muxer for just that before its wait and unregisters it otherwise |
| BufferMonitor.StepKeeps | src/lib/cbuffer.c:268-468 | every step of every thread keeps the log equation, the reasons to sleep and the soundness of the indices |
| BufferMonitor.FirstInFirstOut | src/lib/cbuffer.c:268-468 | for every interleaving of any number of threads the values put are the values that left, in order, followed by the queue, as long as never 2^63 values are put without the buffer being emptied in between, or if the slot count divides 2^63 |
| BufferMonitor.NoLostWakeup | src/lib/cbuffer.c:236-399 | an unnotified putter faces a full and operational buffer, an unnotified getter or peeker an empty and operational one, never both at once; no pass meets a pointer error |
| BufferWrap.WrapReached | src/lib/cbuffer.c:42-60 | for every size from 2 on some run leads to a buffer whose write index has just wrapped |
| BufferWrap.SomeRunFails | src/lib/cbuffer.c:42-60 | for every slot count that does not divide 2^63 some run loses its place in the queue |
| BufferWrap.FifoExactly | src/lib/cbuffer.c:268-468 | order is kept over all runs, however long, if and only if the slot count divides 2^63 |
| BufferMonitor.NothingDropped | src/lib/cbuffer.c:91-139 | with a free procedure and all free flags set a value leaves only by being got or freed |
| BufferMonitor.NothingFreed | src/lib/cbuffer.c:91-139 | without a free procedure, or with no free flag set, nothing is freed |
| BufferMonitor.Conservation | src/lib/cbuffer.c:91-139 | then every value put is got, still stored, or freed, exactly once, across shutdown and destruction |
| BufferCalls.OncePerCall | src/lib/cbuffer.c:268-468 | for any number of threads and any interleaving, no value is put more often than calls asked for, and no more values are got than asked for, pending calls included |
| BufferCalls.EveryCallServed | src/lib/cbuffer.c:268-399 | as long as nobody gives up and the buffer is not shut down, every put and every get that was called for was done exactly once or is pending |
| PauseProtocol.StepKeeps | src/lib/pipeline_stage.c:927-1042 | every step of the controlling thread and of the workers keeps the protocol invariant |
| PauseProtocol.RunKeeps | src/lib/pipeline_stage.c:787-1042 | so does every run; what the calls do is the subject of the rows on `PauseAndWait` |
| PauseRuns.PausedIsQuiet | src/lib/pipeline_worker.c:385-429 | in every run, for any number of workers, while the status is PAUSED and a pause requested, every worker is behind the barrier and none in fetch, main or throw |
| PauseRuns.NoLostWakeup | src/lib/pipeline_worker.c:396-422 | a worker asleep unnotified has a requested pause to wait for, a pauser asleep unnotified is owed no announcement, and PAUSED is set once per completed barrier round |
| PauseRuns.WorkersLeaveWhenTold | src/lib/pipeline_worker.c:41-71 | in every run a worker leaves its loop only for a failure, or after a graceful shutdown was requested and its last procedure returned nothing |
| PauseRuns.PauseReturns | src/lib/pipeline_stage.c:927-1004 | a pause that returns OK has stopped all workers |
| PauseRuns.StaysPaused | src/lib/pipeline_stage.c:927-1042 | a paused stage stays paused until a resume or a shutdown clears the request |
| PauseRuns.StuckForever | src/lib/pipeline_worker.c:411-416 | a worker that is absent when a pause is requested keeps the stage from ever being paused |
| PauseRuns.ResumeThenPause | src/lib/pipeline_worker.c:411-416 | a pause right after a resume, before any worker wakes up, keeps every worker behind the barrier for good |
| PauseRuns.CanPauseExactly | src/lib/pipeline_worker.c:385-429 | a requested pause can still be reached if and only if its barrier round is complete or no worker lingers behind the barrier, has left its loop or must leave it |
| PauseRuns.ShutDownForGood | src/lib/pipeline_stage.c:866-895 | a stage that is shut down stays so in every run, with no worker left and the loop flag cleared |
| PauseAndWait.PauseReached | src/lib/pipeline_stage.c:927-1004 | for any number of workers some run from the start reaches a successful pause |
| PauseAndWait.RaceReached | src/lib/pipeline_worker.c:411-416 | so some run from the start leaves all workers behind the barrier in every continuation |
| PauseAndWait.ShutdownOfPaused | src/lib/pipeline_stage.c:787-842 | a graceful shutdown of a paused stage, whatever the workers do meanwhile, has resumed them when it returns: no pause is requested, nobody is asleep, and a wait called then can end |
| PauseAndWait.ShutdownReturns | src/lib/pipeline_stage.c:787-842 | such a shutdown can return without any worker having to move |
| PauseAndWait.ResumeOfPaused | src/lib/pipeline_stage.c:1006-1042 | a resume of a paused stage has cleared the request, started the stage and left nobody asleep when it returns |
| PauseAndWait.ResumeReturns | src/lib/pipeline_stage.c:1006-1042 | such a resume can return without any worker having to move |
| PauseAndWait.ShutdownKeepsRequest | src/lib/pipeline_stage.c:787-842 | a shutdown of a stage that is not paused does not clear the request a timed-out pause left |
| PauseAndWait.WaitCanEndExactly | src/lib/pipeline_stage.c:845-911 | a wait, which holds the stage lock, can still end if and only if no pause is requested or every worker has left or can leave before it tests the request |
| PauseAndWait.WaitForeverReached | src/lib/pipeline_stage.c:972-986 | for any number of workers some run has a pause time out and a graceful shutdown and a wait follow that never ends, whatever happens after it |
| PipelineStages.PipelineStage.constructor | src/lib/pipeline_stage.c:514-524 | a new stage is in the initial state of the protocol |
| PipelineStages.PipelineStage.RequestPause | src/lib/pipeline_stage.c:938-980 | the section that sets the request flag, against the protocol step; if it does not sleep all workers are stopped |
| PipelineStages.PipelineStage.ContinuePause | src/lib/pipeline_stage.c:963-978 | the recheck of a pauser that was woken up |
| PipelineStages.PipelineStage.NotifyResume | src/lib/pipeline_stage.c:258-263 | broadcasting wakes exactly the workers that are asleep |
| PipelineStages.PipelineStage.ResumeStage | src/lib/pipeline_stage.c:283-291 | clears the request and leaves no worker asleep |
| PipelineStages.PipelineStage.FinishResume | src/lib/pipeline_stage.c:1017-1022 | sets the status after the request was cleared |
| PipelineStages.PipelineStage.PassBarrier | src/lib/pipeline_worker.c:404-422 | the serial thread announces the pause; every worker sleeps while it is requested |
| PipelineStages.PipelineStage.ContinueAfterBarrier | src/lib/pipeline_worker.c:411-416 | a worker that was woken up sleeps again if a pause is requested |
| PipelineStages.PipelineStage.TestLoop | src/lib/pipeline_worker.c:50-53 | the loop condition of a worker |
| WorkerHistories.WorkersRunTheLoop | src/lib/pipeline_worker.c:41-175 | in every run of the pause protocol, with any number of workers, each worker does what the worker loop does on the flags it has read and the answers its procedures gave: it has left exactly when the loop is finished, with the same state, and its calls are the loop's calls in order |
| WorkerHistories.SomeProcsAnswer | src/lib/pipeline_worker.c:86-175 | for every run there are procedures that answer as the worker's own did, so the row before speaks of every run |
| StageLifecycle.StepKeeps | src/lib/pipeline_stage.c:700-911 | every step of starting, canceling, waiting and ending keeps the counters equal to the number of threads that ended |
| StageLifecycle.AllCounted | src/lib/pipeline_stage.c:861-895 | when all waits have returned every worker was counted once |
| StageLifecycle.WaitVerdict | src/lib/pipeline_stage.c:861-895 | in every run the verdict of an untimed wait finds n_shutdown == N and n_canceled <= N, is not the fatal one, and is SHUTDOWN exactly if no worker was canceled |
| StageLifecycle.NoLostWakeup | src/lib/thread.c:478-660 | a starter asleep waits for a thread that has not entered yet, and a waiter asleep for one that is still active |
| StageLifecycle.FailedStartCleansUp | src/lib/pipeline_stage.c:729-738 | after a failed start no thread is left and the stage can be started again |
| StageLifecycle.CanceledOnRequest | src/lib/thread.c:562-616 | a worker counts as canceled only if it was asked to cancel, as all active ones are after a failed start |
| StageLifecycle.ImmediateCancels | src/lib/pipeline_stage.c:808-820 | when an immediate shutdown or a cancellation returns, whatever the workers did meanwhile, every worker still active was asked to cancel, the level is RIGHT_NOW and the loop flag cleared; a shutdown with another level returns at once and leaves flag and workers alone |
| StageLifecycle.CancelReturns | src/lib/pipeline_stage.c:294-331 | from any point of a cancellation some run leads to its return |
| StageLifecycle.NobodyCanceledUnasked | src/lib/pipeline_stage.c:700-754 | after a start, the first one or one after a start that failed, no worker is canceled and the stage does not end as canceled unless a new cancellation or immediate shutdown is called for |
| StageLifecycle.OpenExactly | src/lib/pipeline_stage.c:729-738 | after a failed start a worker's first test goes on exactly if an UNKNOWN shutdown was the last call to touch what the loops read |
| StageLifecycle.AfterFailedStartExactly | src/lib/pipeline_stage.c:729-738 | in every run that continues a failed start, a worker's first test makes it leave without calling anything if and only if no UNKNOWN shutdown was the last call to touch the flags |
| StageLifecycle.SecondStartIdles | src/lib/pipeline_stage.c:700-754 | for any number of workers some run has a failed start followed by one that succeeds; its workers leave at once, and would go on after an UNKNOWN shutdown |
| StageThreads.StageOfThreads.constructor | src/lib/thread.c:193-230 | no thread has been started |
| StageThreads.StageOfThreads.EntryPoint | src/lib/thread.c:386-399 | a spawned thread reports that it is active |
| StageThreads.StageOfThreads.FinalizeWorker | src/lib/pipeline_worker.c:254-286 | the final procedure counts the worker once, as canceled or not |
| StageThreads.StageOfThreads.LeaveThread | src/lib/thread.c:233-248 | the thread is given up only after its final procedure has run |
| StageThreads.StageOfThreads.TestFirst | src/lib/pipeline_worker.c:50-53 | the first test of the loop condition |
| StageThreads.StageOfThreads.ShutdownStage | src/lib/pipeline_stage.c:814-826 | any level is taken over; an immediate one goes on to cancel all threads, and any other returns |
| StageThreads.StageOfThreads.FinishCancel | src/lib/pipeline_stage.c:317-323 | the end of canceling leaves the level RIGHT_NOW and the loop flag cleared |
| StageThreads.StageOfThreads.CheckWait | src/lib/thread.c:630-644 | a waiter sleeps exactly while the thread is active |
| StageThreads.StageOfThreads.ConcludeWait | src/lib/pipeline_stage.c:861-895 | the verdict; its fatal branch is dead |
| WorkerLoop.FetchMainThrow | src/lib/pipeline_worker.c:86-113 | the loop of the full variant does what the loop function says, its exit code included |
| WorkerLoop.FetchMain | src/lib/pipeline_worker.c:116-136 | likewise without throw |
| WorkerLoop.MainThrow | src/lib/pipeline_worker.c:139-159 | likewise without fetch |
| WorkerLoop.MainOnly | src/lib/pipeline_worker.c:162-175 | likewise with main only |
| WorkerLoop.SameIteration | src/lib/pipeline_worker.c:86-175 | one iteration of a variant is one of the full variant with the missing calls erased |
| WorkerLoop.VariantsAgree | src/lib/pipeline_worker.c:86-175 | for all procedures and all schedules of flags each variant behaves step for step like the full one whose fetch returns the batch maximum and whose throw returns its count |
| WorkerLoop.BatchesStayWhole | src/lib/pipeline_worker.c:86-113 | every positive fetch is followed by main with that count and every positive main by throw with its result, however the worker is paused or shut down |
| WorkerLoop.ExitReasons | src/lib/pipeline_worker.c:50-58 | a worker leaves its loop only for a failure, for an immediate stop, or because a shutdown was requested and its last procedure returned nothing |
| WorkerLoop.OneReadingMore | src/lib/pipeline_worker.c:50-58 | what each further reading of the flags comes to: the loop stops on a cleared loop flag whatever its state, or on a shutdown at state 0, pauses on a request, and runs one iteration otherwise |
| WorkerLoop.FinishedExactly | src/lib/pipeline_worker.c:50-58 | a loop has finished if and only if at some reading the loop flag was cleared, or its state was 0 and a shutdown requested, or a procedure failed |
| WorkerLoop.StopsWhenTold | src/lib/pipeline_worker.c:50-58 | a loop told to stop at a reading is finished, and what it has done depends on the readings before only |
| WorkerLoop.PausedDoesNothing | src/lib/pipeline_worker.c:50-58 | while every reading finds a pause requested nothing is called and the state stays 0 |
| WorkerLoop.LogIsTruthful | src/lib/pipeline_worker.c:86-175 | whatever a variant logs it has called, with that argument, that result and in that order; fetch is always called with the batch maximum |
| WorkerLoop.ExitCodeExactly | src/lib/pipeline_worker.c:59-64 | a worker that left its loop reports the failure of its last procedure, or success; never a count |
| QMuxers.HonestExactly | src/lib/cbuffer.c:236-262 | every operation keeps a registration truthful except clearing a queue that is waited for to write |
| QMuxers.NotifiedExactly | src/lib/cbuffer.c:236-398 | a waiting muxer is notified exactly when a put or a get changes the queue, on a shutdown, and on a clear of a queue it waits to read |
| QMuxers.HonestWithoutClear | src/lib/cbuffer.c:301-375 | in runs without clear a queue registered READABLE (WRITABLE) and not notified since is still empty (full); it is never registered for both |
| QMuxers.ClearMisses | src/lib/cbuffer.c:236-262 | for every buffer some run has a muxer wait to write to a queue that a clear has emptied without notifying it |
| QMuxers.VisitPoll | src/lib/qmuxer.c:86-125 | sets up one poll |
| QMuxers.MidwayStep | src/lib/qmuxer.c:85-136 | each iteration of the pass keeps count, sizes and registrations right |
| QMuxers.SetupForPoll | src/lib/qmuxer.c:68-153 | a pre-wait pass stops at the first missing poll or dead queue, and otherwise returns exactly the number of ready polls, having registered every queue when there are none; a post-wait pass passes over errors and unregisters every live queue |
| GlobalStates.GlobalState.constructor | src/lib/gstate.c:11-12 | nothing has happened |
| GlobalStates.GlobalState.SetState | src/lib/gstate.c:106-129 | sets a valid state that is not behind the current one and notifies, and otherwise changes nothing and says why; the level is left alone |
| GlobalStates.GlobalState.WaitOnce | src/lib/gstate.c:154-196 | one pass of a wait sleeps exactly while the state is below the target and below ACCEPT_SHUTDOWN, and otherwise returns OK; its NOT_OPERATIONAL branch is dead |
| GlobalStates.GlobalState.RequestOnce | src/lib/gstate.c:207-236 | the first pass of a shutdown request: accepted exactly below REQUEST_SHUTDOWN, and then state and level are set, waiters notified and the caller asleep; refused otherwise, changing nothing |
| GlobalStates.StepKeeps | src/lib/gstate.c:94-245 | every step of any thread keeps the reasons to sleep, the truth of the answers and the grace level |
| GlobalStates.OnlyForward | src/lib/gstate.c:94-129 | over every run the state never decreases, and the grace level is written at most once |
| GlobalStates.GraceLevelExactly | src/lib/gstate.c:207-236 | in every run the grace level is that of the one shutdown request accepted so far, UNKNOWN if there was none |
| GlobalStates.Answers | src/lib/gstate.c:154-245 | a successful shutdown request returns at or after ACCEPT_SHUTDOWN; a valid wait returns OK, its state reached or the shutdown accepted |
| GlobalStates.AnsweredOnce | src/lib/gstate.c:154-245 | in every run each call that was begun and not given up has been answered once or is still under way |
| GlobalStates.NoLostWakeup | src/lib/gstate.c:154-245 | an unnotified waiter for s implies the state is below s and no shutdown state |
| GlobalStates.GateExactly | src/lib/pipeline_worker.c:214-238 | a worker whose wait for the start returns enters its loop if and only if the state still is STARTED, and aborts the process otherwise |
| GlobalStates.FatalReached | src/lib/pipeline_worker.c:214-238 | some run does abort the process: the worker is woken up by the start, and the state moves on before it gets the lock |
| Tokenizer.RunsExactly | src/lib/strutils.c:1083-1130 | the runs are exactly the maximal delimiter-free stretches of the text, in order |
| Tokenizer.CutHolds | src/lib/strutils.c:1106-1117 | a run whose delimiter was overwritten is a text of its own |
| Tokenizer.Advance | src/lib/strutils.c:1094-1109 | the inner loops stop at the next delimiter, or at the next other character, or at the end |
| Tokenizer.NextToken | src/lib/strutils.c:1094-1122 | one iteration finds the next run and overwrites the delimiter after it |
| Tokenizer.Tokenize | src/lib/strutils.c:1083-1130 | yields exactly the first max runs of the original text, overwriting only the delimiters after them; invalid for an empty text or delimiter list |
| Numbers.ByBaseExact | src/lib/strutils.c:363-411 | spaces, a sign, digits of the base and an SI suffix are read as sign * digits * 1000^k, or 1024^k with an i, where k is the position of the letter in KMGTPXZY, in either case |
| Numbers.DigitsExactly | src/lib/strutils.c:247-360 | digits without a suffix are read as the number they stand for if and only if the last one is not a suffix letter, which cannot be in bases up to 16 |
| Numbers.LetterExactly | src/lib/strutils.c:289-333 | the letters K, M, G, T, P, X, Z and Y stand for the powers 1 to 8 in either case, and no other character for any |
| Numbers.DigitsByPosition | src/lib/strutils.c:393-393 | digits are worth their position, letters of either case going on from 10 |
| Numbers.DigitsOnly | src/lib/strutils.c:393-393 | no other character is a digit |
| Numbers.SkipLeftExactly | src/lib/strutils.c:7-10 | skipping takes off exactly the longest stretch of spaces in front |
| Numbers.TrimRightExactly | src/lib/strutils.c:13-17 | trimming takes off exactly the longest stretch of spaces at the end |
| Numbers.TakeBaseExactly | src/lib/strutils.c:414-481 | every prefix announces its base and is taken off; a text without one is taken as decimal |
| Numbers.SuffixAloneFails | src/lib/strutils.c:247-360 | a suffix with nothing before it is refused |
| Numbers.SplitSuffixExact | src/lib/strutils.c:247-360 | the suffix and the spaces around it are taken off, and nothing else |
| Numbers.PrefixedExact | src/lib/strutils.c:414-481 | after a prefix the digits are read in the base it announces |
| Numbers.DecimalExactly | src/lib/strutils.c:414-481 | without a prefix a decimal number is read correctly if and only if it does not look like the prefix 0x |
| Numbers.TwoSigns | src/lib/strutils.c:414-481 | a decimal number with two signs is accepted and is negative if exactly one of them is a minus |
| Numbers.ToUint64Exact | src/lib/strutils.c:542-577 | the 32-bit conversion is congruent to the number modulo 2^64, and exact for signed 64-bit numbers |
| Numbers.NeverWraps | src/lib/strutils.c:498-638 | the value delivered is the value read, or the result is OUT_OF_RANGE, exactly for numbers out of range |
| NumberParser.BuildMultipliers | src/lib/strutils.c:82-93 | the table holds 1000^(i+1) and 1024^(i+1) |
| NumberParser.SkipSpaces | src/lib/strutils.c:7-10 | the pointer ends behind the leading spaces |
| NumberParser.TrimSpaces | src/lib/strutils.c:13-17 | the loop cuts exactly the trailing spaces off, in place |
| NumberParser.GetPrefixMultiplier | src/lib/strutils.c:247-360 | in place, takes an SI suffix off a buffer and looks up its multiplier |
| NumberParser.StrDup | src/lib/strutils.c:385-385 | a fresh copy of the text |
| NumberParser.ParseBigintByBase | src/lib/strutils.c:363-411 | the parser on buffers reads what the parsing function says |
| NumberParser.ParseBigint | src/lib/strutils.c:414-481 | likewise with a base prefix |
| NumberParser.StrParseInt64 | src/lib/strutils.c:581-608 | delivers the number read, or an error, on either word size |
| NumberParser.StrParseUint64 | src/lib/strutils.c:611-638 | likewise for unsigned numbers |

## Left out

- HashTables.HashTable.Create: requires that fewer than 12*4^14 entries are held, beyond which the sizing fields wrap (`HashIndex.GeometryExact`); the source has no guard.
- HashMaps.HashMap.Add: has the same requirement, for the same reason.
- HashTables.HashTable.DeleteEntry: entries are records in an explicit store from addresses to records, in which following a dangling address does not verify; the pointer from an entry to its table is not modelled.
- CBuffers.CBuffer.Put: says what it does to the queue only for indices that are in step, which every operation keeps unless the write index wraps in a buffer whose slot count does not divide 2^63; for other indices it says what becomes of the fields.
- HashMaps.HashMap.IterateMap: callbacks may assign values and stop the iteration, but not add or delete entries, which the walk does not survive in the source either.
- PauseRuns.PausedIsQuiet: assumes no cancellation, no immediate shutdown and no errors from the operating system; a pause that fails with such an error clears the request without the lock.
- PauseRuns.CanPauseExactly: a shutdown with the level UNKNOWN, which would let workers that must leave their loops go on, is not modelled.
- StageLifecycle.AfterFailedStartExactly: pausing is not part of the life cycle, so the shutdowns it speaks of are those of a started stage that is not paused.
- StageLifecycle.WaitVerdict: holds for the untimed wait only; the timed wait mistakes elapsed for remaining time and is not modelled.
- StageLifecycle.StepKeeps: a canceled thread ends by its cancellation or by returning; where its cancellation points lie, and the pause lock a canceled worker gives back, are not modelled.
- QMuxers.SetupForPoll: one pass is not interrupted by other threads; what happens to a single queue between passes is the subject of `QMuxers.HonestWithoutClear`, and the delivery of a notification to a muxer that is not yet asleep, which the source does not promise, is not modelled.
- Numbers.ByBaseExact: the bignum library's conversion is a parameter that reads plain digit strings of bases up to 36 as the numbers they stand for; what it makes of other texts is left open.
- NumberParser.GetPrefixMultiplier: the multiplier is taken from the table by its power, not through the hash map that names the entries.
- Invalid arguments: NULL pointers and wrong element sizes are refused before any lock is taken and are not modelled, except where a status depends on a value.
- Locks, condition variables and the barrier are primitive steps with the semantics of the System Interfaces volume of POSIX.1-2008; `lock.c` is not part of this model.
- Memory: an allocation that may fail takes the address malloc returned as a parameter; the bucket array of a rebuild, whose allocation the source does not check, is assumed to be there.
- Callbacks with effects of their own on the objects that call them, logging, signals, fork handlers, heap checking, `module.c`, `chrono.c`, `qpoll.c` and table statistics: input and output, or easy members.
- The tokenizer with quotes, and parsing of reals and Booleans, which would only repeat what the plain ones show.
