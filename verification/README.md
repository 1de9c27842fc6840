# Verified models of the thread pool, the index, the join operators and the blocking queue

Four components of the repository are modelled and their properties proved for all inputs
and all interleavings.

* **Thread pool** (`PoolSpec`, `PoolInvariant`, `PoolHistory`, `PoolSafety`, `PoolLiveness`,
  `ThreadPool`).
  A state machine whose steps are the critical sections of `poolMutex`, the two
  `notify_all` calls made after the unlock, the task bodies, the turns of the join loop and
  spurious wake-ups, with any number of workers, `pushTask` calls and shutdown calls.
  `notify_one` wakes an arbitrary sleeper. The class `Pool` has the source's fields and one
  method per step, each proved to take the machine through that step. Return guarantees are
  stated for the shutdown call that set a flag: later calls return early without joining.
* **Index** (`RecordCodec`, `IndexSpec`, `IndexInvariant`, `IndexSafety`, `IndexHistory`,
  `Index`). The file is a sequence of bytes. `pwrite` lands piece by piece and may fail after any part of the line;
  `pread` may return any non-empty part of a chunk, or fail. The steps of inserts, queries,
  iterator reads and Close interleave freely. `contents` is the abstract map from id to text,
  updated at the publish step. The parser includes `std::stoull` with its blanks, sign and
  range rules.
* **Joins** (`JoinSpec`, `MergeSortSpec`, `SortMergeJoin`, `HashJoins`, `NestedLoopJoins`).
  `NaiveJoin` is the simple relation; each operator is proved against it, as an exact
  sequence where the order is determined (nested loop, block nested loop, sort-merge) and as a
  multiset where an unordered table decides it. Orientation is explicit: `nestedLoopJoin`
  tests and writes the inner row first.
* **Blocking queue** (`QueueSpec`, `BoundedQueue`). A FIFO machine with an unbounded history,
  and the ring buffer over an array that refines it.

`Common` holds the vocabulary the machines share. Each machine has `Enabled`, `Apply`,
`CanRun` and `RunFrom`: a theorem about `RunFrom(s, steps)` under `CanRun(s, steps)` is one
about every run, and `Reachable` names the states that runs of a fresh object end in. The main
results speak of the calls themselves: `PoolHistory`, `IndexHistory` and `QueueSpec` prove that
the tasks, shutdown modes, ids, texts, query bounds and elements in the state are the arguments
of the calls of the run, and the theorems are stated over those arguments.

The class methods that take one step all carry the same contract: the new abstract state is
`Apply` of the old one, and `Valid()` is kept. The table lists those with a loop or several
branches of their own.

Where a promise of the design does not hold of the code, the exact condition is proved:

* a graceful shutdown of a pool with zero workers returns without running what was accepted
  (`GracefulReturnMeansDone`, `GracefulReturnStrandsTask`), and an open pool without a worker
  or without a slot leaves some call unserved (`OpenPoolFinishesItsWork`);
* `Next` advances the cursor before it reads, so an iterator skips a record for good exactly
  when a `pread` of it failed (`DrainedIteratorDelivers`);
* a text reads back as it was inserted exactly when it holds no newline (`RoundTrip`,
  `TextAfterNewlineIsLost`);
* a blocking queue of capacity zero leaves producers and consumers asleep together
  (`BothAsleepOnlyWithoutCapacity`, `StuckRunsAreComplete`).

## Model

| member | source | states |
|---|---|---|
| PoolLiveness.ShutdownFinishes | thread_pool_on_fixed_size_bounded_queue.cpp:124-245 | From any reachable state with a flag set, a run with k new calls has at most Measure + 2k steps, and a run that no productive step extends has ended: all workers exited, all calls over, the winning call returned. |
| PoolLiveness.GracefulShutdownCompletes | thread_pool_on_fixed_size_bounded_queue.cpp:209-224 | Let a call of gracefulShutdown be the first shutdown call to lock the mutex and let the run go on until no productive step extends it: every caller has returned, and every task accepted by then holds the id and processed name it was pushed with, or an exception exactly if its own body threw, if and only if the pool has a worker or nothing was accepted. |
| PoolLiveness.ImmediateShutdownCompletes | thread_pool_on_fixed_size_bounded_queue.cpp:226-245 | Let a call of immediateShutdown be the first to lock the mutex: such a run has completed exactly the tasks popped before, each with its own outcome, and dropped the others. |
| PoolLiveness.ImmediateDropsTheQueue | thread_pool_on_fixed_size_bounded_queue.cpp:228-237 | The locked part of the first shutdown call, when it is one of immediateShutdown, drops exactly the tasks queued at that moment, for good. |
| PoolLiveness.StepDecreases | thread_pool_on_fixed_size_bounded_queue.cpp:124-245 | Once a flag is set, every step other than a new call, spurious wake-ups included, strictly decreases the measure over queue length and thread stages. |
| PoolLiveness.ShutdownRunsAreBounded | thread_pool_on_fixed_size_bounded_queue.cpp:124-245 | The length of a run plus the measure left never exceeds the measure at its start plus two per new call. |
| PoolLiveness.ClosedProgress | thread_pool_on_fixed_size_bounded_queue.cpp:209-245 | After a flag is set a step that is neither a new call nor a spurious wake-up is enabled until everything is over. |
| PoolLiveness.ShutdownCanFinish | thread_pool_on_fixed_size_bounded_queue.cpp:209-245 | A scheduler that takes only such steps reaches the end within the measure. |
| PoolLiveness.OpenPoolNeverDeadlocks | thread_pool_on_fixed_size_bounded_queue.cpp:126-144 | With at least one worker and one slot, while a task is queued or running or a pushTask call is not over, a productive step is enabled. |
| PoolLiveness.OpenStepDecreases | thread_pool_on_fixed_size_bounded_queue.cpp:126-204 | While the pool stays open every productive step, a worker or submitter going back to sleep included, decreases a measure over queue, workers and submitters. |
| PoolLiveness.OpenRunsAreBounded | thread_pool_on_fixed_size_bounded_queue.cpp:126-204 | The length of a run that leaves the pool open is bounded by the measure at its start and a fixed cost per new call and per spurious wake-up. |
| PoolLiveness.OpenPoolFinishesItsWork | thread_pool_on_fixed_size_bounded_queue.cpp:126-204 | A run that leaves the pool open and that no productive step extends has accepted every pushTask call and set every promise to the outcome of the task pushed if and only if the pool has a worker and a slot, or there was no call. |
| PoolSafety.OpenPoolIsAwake | thread_pool_on_fixed_size_bounded_queue.cpp:133-143 | Before shutdown a sleeping worker implies queue length <= woken workers and a sleeping submitter implies free slots <= woken submitters, in every reachable state. |
| PoolSafety.ClosedPoolWakesSleepers | thread_pool_on_fixed_size_bounded_queue.cpp:211-240 | After a flag is set a sleeper implies that its condition variable's notify_all is still pending. |
| PoolInvariant.StepKeepsNoLostWakeup | thread_pool_on_fixed_size_bounded_queue.cpp:133-203 | notify_one on either condition variable, the two notify_all calls and spurious wake-ups keep the no-lost-wake-up guarantee. |
| PoolInvariant.StepKeepsInv | thread_pool_on_fixed_size_bounded_queue.cpp:124-245 | Every step of every thread keeps the whole invariant: conservation, ownership, promises, the single winner, final exits, wake-ups. |
| PoolInvariant.StepKeepsHolding | thread_pool_on_fixed_size_bounded_queue.cpp:140-150 | A popped task is held by one worker only, with its promise unset, and no step ends the process. |
| PoolInvariant.StepKeepsPromises | thread_pool_on_fixed_size_bounded_queue.cpp:146-153 | Every popped task is being run or has its own outcome; queued ones are unset, dropped ones broken. A step leaves an exception in a promise only by a throwing body of that promise's own task. |
| PoolInvariant.StepKeepsOneWinner | thread_pool_on_fixed_size_bounded_queue.cpp:211-245 | Exactly one shutdown call sets a flag; it alone goes on to notify and join, and has joined only exited workers. |
| PoolHistory.TasksArePushed | thread_pool_on_fixed_size_bounded_queue.cpp:174-202 | In every run the c-th pushTask call keeps the task it was called with. |
| PoolHistory.FlagsFollowFirstCall | thread_pool_on_fixed_size_bounded_queue.cpp:209-231 | In every run the shutdown call that locks the mutex first wins; isGracefulShutdown is set exactly when it is a call of gracefulShutdown, isImmediateShutdown exactly when it is one of immediateShutdown, and no flag is set before. |
| PoolHistory.SubmitDecides | thread_pool_on_fixed_size_bounded_queue.cpp:184-204 | A locked pass of pushTask pushes exactly when no shutdown has begun and there is room; it throws exactly when one has, as shutting down on the first pass and as closed during the wait on a later one; otherwise it sleeps. |
| PoolSafety.QueueIsFifo | thread_pool_on_fixed_size_bounded_queue.cpp:140-204 | accepted == taken ++ queued ++ dropped in order, never more queued than the capacity; each accepted call is in that order once and nobody else is. |
| PoolSafety.ClosedAcceptsNothing | thread_pool_on_fixed_size_bounded_queue.cpp:184-200 | Once a flag is set it stays set, no further task is accepted and the winner does not change. |
| PoolSafety.RefusalsMeanClosed | thread_pool_on_fixed_size_bounded_queue.cpp:184-200 | In every reachable state a pushTask call that threw means that a shutdown has begun; its task was not accepted and its promise is unset. |
| PoolSafety.PromisesSetOnce | thread_pool_on_fixed_size_bounded_queue.cpp:146-153 | Over any run a promise that was set keeps its value, and the process never dies of a second set_value. |
| PoolSafety.GracefulReturnMeansDone | thread_pool_on_fixed_size_bounded_queue.cpp:209-224 | In every run in which a call of gracefulShutdown has returned other than early, every accepted call's promise holds the id and processed name of the task it was called with, or an exception exactly if its own body threw in the run, if and only if the pool has a worker or nothing was accepted. |
| PoolSafety.ExceptionsWereThrown | thread_pool_on_fixed_size_bounded_queue.cpp:146-153 | Over every run a promise holds an exception if and only if the run holds a throwing task body run by a worker holding that call's entry. |
| PoolSafety.NormalBodiesGiveResults | thread_pool_on_fixed_size_bounded_queue.cpp:146-153 | In a run whose task bodies all return normally, the promise of a call with its own outcome is a value whose id is the task's id and whose field is "Processed: " followed by the task's name. |
| PoolSafety.GracefulReturnStrandsTask | thread_pool_on_fixed_size_bounded_queue.cpp:160-224 | The failing case: with zero workers a run whose one shutdown call, of gracefulShutdown, returns with the accepted task still queued and its promise unset. |
| PoolSafety.ImmediateReturnSplitsTasks | thread_pool_on_fixed_size_bounded_queue.cpp:226-245 | In every run in which a call of immediateShutdown has returned other than early, the accepted tasks are a completed prefix, each with its own outcome, followed by a dropped suffix with broken promises. |
| PoolSafety.NothingDroppedWithoutImmediate | thread_pool_on_fixed_size_bounded_queue.cpp:209-237 | A run without a call of immediateShutdown sets no immediate flag, drops nothing and breaks no promise. |
| ThreadPool.Pool.constructor | thread_pool_on_fixed_size_bounded_queue.cpp:160-166 | The fresh pool is the initial state of the machine. |
| ThreadPool.Pool.NotifyOneSubmitter | thread_pool_on_fixed_size_bounded_queue.cpp:143-143 | cvNotFull.notify_one wakes one sleeping submitter, any of them, if there is one. |
| ThreadPool.Pool.NotifyOneWorker | thread_pool_on_fixed_size_bounded_queue.cpp:203-203 | cvNotEmpty.notify_one wakes one sleeping worker, any of them, if there is one. |
| ThreadPool.Pool.WorkerSection | thread_pool_on_fixed_size_bounded_queue.cpp:130-144 | The locked part of workerLoop takes the machine's worker step, waking one sleeping submitter when it pops. |
| ThreadPool.Pool.RunTask | thread_pool_on_fixed_size_bounded_queue.cpp:146-153 | Running a task writes the task's id and processed name, or the exception its body threw, into its own promise and nothing else, and takes the machine's step. |
| ThreadPool.Pool.SubmitSection | thread_pool_on_fixed_size_bounded_queue.cpp:181-204 | The locked part of pushTask takes the machine's submit step: refuse, sleep, refuse after a wait, or push and wake one worker. |
| ThreadPool.Pool.ShutdownSection | thread_pool_on_fixed_size_bounded_queue.cpp:211-237 | The locked part of both shutdown calls: later calls change nothing and return early; the first sets the flag of its own mode only, and only an immediate one empties the queue. |
| ThreadPool.Pool.DropQueue | thread_pool_on_fixed_size_bounded_queue.cpp:233-236 | Popping in a loop empties the queue in order and breaks exactly the promises of the popped tasks. |
| ThreadPool.Pool.NotifyNotFull | thread_pool_on_fixed_size_bounded_queue.cpp:217-217 | cvNotFull.notify_all after the unlock wakes every sleeping submitter. |
| ThreadPool.Pool.NotifyNotEmpty | thread_pool_on_fixed_size_bounded_queue.cpp:218-218 | cvNotEmpty.notify_all after the unlock wakes every sleeping worker. |
| RecordCodec.RoundTrip | iterator_plus_index.cpp:102-139 | Whatever bytes surround it, a line written for a 64-bit id and any text reads back there as that id and the text up to its first newline: as it was written if and only if it has no newline. |
| RecordCodec.TextAfterNewlineIsLost | iterator_plus_index.cpp:139-139 | The failing family: of a text with a newline only what precedes its first newline reads back. |
| RecordCodec.LineFormat | iterator_plus_index.cpp:139-139 | A record is, byte by byte, the id's one decimal ASCII numeral without leading zeros, a space, the text and a newline. |
| RecordCodec.ParseOfPrinted | iterator_plus_index.cpp:119-139 | The printed line parses back to the id and the cut text if and only if the id is below 2^64. |
| RecordCodec.StoullOfDigits | iterator_plus_index.cpp:123-139 | stoull of to_string(id) is id if and only if id is below 2^64. |
| RecordCodec.StoullOfGrammar | iterator_plus_index.cpp:123-123 | stoull on blanks, an optional sign, digits and anything after them: it throws exactly without digits or past 64 bits, and a minus sign wraps the value around. |
| RecordCodec.ParseSplitsAtSpace | iterator_plus_index.cpp:119-124 | A line splits at its first space into what stoull makes of the front and the text behind it; without a space it is malformed. |
| RecordCodec.LineBeforeNewline | iterator_plus_index.cpp:113-119 | The first newline seen in a record is the text's first newline, or else the record's own end. |
| RecordCodec.BufferDecides | iterator_plus_index.cpp:108-119 | As soon as the bytes read so far hold a newline, they decide the result, however the reads were split. |
| IndexSafety.IteratorsAreSnapshots | iterator_plus_index.cpp:84-176 | Whatever happens after the snapshot, the k-th finished Next delivers the k-th of the first limit entries with id > minId of the contents at the snapshot, text cut at its first newline, unless a pread of that very Next failed; a drained iterator has tried them all. |
| IndexSafety.DrainedIteratorDelivers | iterator_plus_index.cpp:84-176 | Draining yields exactly those entries if and only if no pread of that iterator failed in the run, and their texts as inserted if and only if, besides, none holds a newline. |
| IndexHistory.RunsAreLinearizable | iterator_plus_index.cpp:84-176 | The whole promise over the calls of a run: the finished Next calls deliver, in order, the first limit ids above minId of what was published before the snapshot, minId and limit being the Query's arguments, each with the text last published for it, unless its own pread failed; an iterator that was not closed and with which no Next can go on has tried them all. |
| IndexHistory.HasNextIsRight | iterator_plus_index.cpp:84-87 | In every run an iterator between two Next calls has a next record, and Next can start, exactly when it was not closed and fewer Next calls have finished than the query has entries to deliver. |
| IndexHistory.StuckIteratorIsDrained | iterator_plus_index.cpp:84-117 | An iterator that was not closed and with which no Next can start or go on has been drained. |
| IndexHistory.ClosedByItsClose | iterator_plus_index.cpp:85-98 | An iterator is closed exactly from its own Close call on. |
| IndexHistory.ClosedIteratorIsSilent | iterator_plus_index.cpp:85-98 | A closed iterator delivers nothing more over any later run. |
| IndexHistory.StuckMeansOver | iterator_plus_index.cpp:84-210 | When the program owes no step any more, every Insert and Query is over, every iterator that was not closed is drained, nothing is in flight and every Close has returned. |
| IndexSafety.ErrorsAreFailedReads | iterator_plus_index.cpp:94-110 | Along every run the results of an iterator only grow, and the I/O errors among them are exactly those of its failed preads. |
| IndexSafety.FirstIdsAreFirst | iterator_plus_index.cpp:170-173 | The ids a query visits are matching ids in strictly increasing order, as many as limit and the matching ids allow, with every other matching id larger. |
| IndexSafety.FirstIdsUnique | iterator_plus_index.cpp:170-173 | Those properties determine the visited ids. |
| IndexSafety.ReadLoopTerminates | iterator_plus_index.cpp:108-117 | No pread of a published record meets the end of the file; each finishes the record or leaves the reader further on, strictly inside it. |
| IndexSafety.StoredBytesNeverChange | iterator_plus_index.cpp:141-152 | Over any run writeOffset never falls and no byte below it changes, even when appends fail part-way and are overwritten. |
| IndexSafety.PublishedOffsetsAreRecords | iterator_plus_index.cpp:141-173 | Every offset in the map or in any iterator is the start of a complete record of its id and text below writeOffset. |
| IndexInvariant.StoredReadsBack | iterator_plus_index.cpp:102-126 | A complete record below writeOffset reads back as its id and its text up to the first newline, as inserted if and only if there is none. |
| IndexSafety.FinishedIteratorStays | iterator_plus_index.cpp:84-98 | An iterator that is closed, exhausted or empty never delivers anything more. |
| IndexSafety.RefusedQueryIsEmpty | iterator_plus_index.cpp:163-163 | A query that finds the index closed is not counted and returns an iterator that delivers nothing over any later run. |
| IndexHistory.ContentsFollowPublishOrder | iterator_plus_index.cpp:154-158 | In every run the visible contents are the ids and texts that the published Insert calls were called with, applied in publish order, not in file order. |
| IndexHistory.CallsKeepTheirArguments | iterator_plus_index.cpp:135-170 | In every run the i-th insert has the id and text of the i-th Insert call and the q-th query the minId and limit of the q-th Query call. |
| IndexHistory.FileIsLog | iterator_plus_index.cpp:141-152 | In every run the file below writeOffset is the lines of the completed appends, end to end, in the order they held the write lock, with nothing left of failed ones. |
| IndexHistory.ReturnCodes | iterator_plus_index.cpp:135-160 | In every run an Insert that is over returned 0 exactly when its record was published, 2 exactly when its write failed, 1 exactly when it entered after some Close had been through its locked part, and nothing else. |
| IndexHistory.ClosedByClose | iterator_plus_index.cpp:178-181 | The index is closed exactly from the first locked part of a Close on. |
| IndexHistory.QueriesTakeSnapshots | iterator_plus_index.cpp:162-176 | In every run a Query that is over took its snapshot unless, and only if, it entered after some Close had been through its locked part. |
| IndexSafety.RunChooses | iterator_plus_index.cpp:135-160 | From any state, a run makes an insert end with a code exactly by the step that chooses it: publishing, a failed write, or a refused entry. |
| IndexSafety.InFlightIsExact | iterator_plus_index.cpp:178-210 | inFlight equals the number of operations between enter and leave, and a sleeping closer implies inFlight > 0. |
| IndexSafety.ReturnedCloseIsFinal | iterator_plus_index.cpp:178-183 | Once a Close has returned, inFlight stays 0 and map, file and writeOffset never change again. |
| IndexSafety.CloseDrains | iterator_plus_index.cpp:178-210 | A closed index with nothing in flight stays so over any run, with map and file unchanged. |
| IndexSafety.CloseCannotBeBlocked | iterator_plus_index.cpp:178-205 | After the flag is set, operations in flight have a bounded number of steps left, one of them is always enabled, and when none is in flight every closer can return. |
| IndexInvariant.StepKeepsInv | iterator_plus_index.cpp:135-210 | Every step keeps the invariant of appends, map, iterators, count and closers. |
| IndexInvariant.StepExtends | iterator_plus_index.cpp:144-152 | No step changes a byte below writeOffset. |
| IndexInvariant.PreadIterOk | iterator_plus_index.cpp:108-126 | One pread of any non-empty length keeps an iterator on course to the record of its snapshot, while other inserts append; if it ends the Next call, it delivers that record. |
| IndexInvariant.PreadOutcome | iterator_plus_index.cpp:108-125 | On any bytes one turn of the read loop goes on, or ends the Next call with what the bytes at its offset read as, the end of the file included. |
| Index.IndexImpl.Enter | iterator_plus_index.cpp:196-201 | enter() refuses once closed, else adds one to inFlight. |
| Index.IndexImpl.Leave | iterator_plus_index.cpp:202-205 | leave() takes one from inFlight and wakes all sleeping closers at zero. |
| Index.IndexImpl.WriteBytes | iterator_plus_index.cpp:146-146 | Part of the line lands over the file at the landing offset. |
| Index.IndexImpl.UpperBound | iterator_plus_index.cpp:170-170 | upper_bound(k) is the least id above k, if any. |
| Index.IndexImpl.CollectOffsets | iterator_plus_index.cpp:168-174 | The traversal loop collects the offsets of exactly the first limit ids above minId. |
| Index.IndexImpl.Snapshot | iterator_plus_index.cpp:166-175 | A query's snapshot step, proved against the machine. |
| Index.IndexImpl.HasNextRecord | iterator_plus_index.cpp:84-87 | Between two Next calls HasNext is true exactly if the iterator is not closed and has entries left to deliver. |
| Index.IndexImpl.Pread | iterator_plus_index.cpp:108-125 | One turn of the read loop, proved against the machine. |
| Index.IndexImpl.ReadRecordAt | iterator_plus_index.cpp:102-126 | On any bytes, well-formed or not, with nobody appending meanwhile: for every way pread splits the bytes, the loop returns what the bytes from the offset on read as, or an I/O error of a faulty device. |
| Index.IndexImpl.ReadStoredRecord | iterator_plus_index.cpp:102-126 | On a stored record while others append: whatever each pread finds around the record and however it splits the bytes, the loop ends and delivers the record, unless the device is faulty. |
| Index.IndexImpl.ReadPublished | iterator_plus_index.cpp:89-126 | Reading at a published offset delivers the id and the text last published for it up to its first newline, as inserted if and only if there is none. |
| Index.IndexImpl.CloseSection | iterator_plus_index.cpp:178-183 | Close sets the flag and returns or sleeps by the count. |
| JoinSpec.JoinCount | join-practice/nested-loop-join-variations.cpp:46-53 | The naive join holds each pair as often as its rows occur together in the inputs if it satisfies the predicate, else not at all. |
| JoinSpec.JoinConcat | join-practice/nested-loop-join-variations.cpp:46-53 | The naive join takes the outer rows in their order. |
| JoinSpec.ExchangeFlips | join-practice/nested-loop-join-variations.cpp:46-53 | Exchanging the inputs flips each pair, for the mirrored predicate. |
| JoinSpec.SidesExchange | join-practice/hash-join.cpp:57-77 | An equality join with probe and build sides exchanged holds the same pairs, flipped. |
| JoinSpec.JoinOfReordered | join-practice/sort-merge-join.cpp:179-182 | Reordering the inputs only reorders the pairs. |
| JoinSpec.JoinSplitInner | join-practice/nested-loop-join-variations.cpp:90-102 | Cutting the inner table into pages splits the pairs among the pages. |
| MergeSortSpec.MergeSortedIsStableSort | join-practice/sort-merge-join.cpp:144-175 | The result is sorted by key and rows of one key keep their input order. |
| MergeSortSpec.MergeSortedPermutes | join-practice/sort-merge-join.cpp:144-175 | The result is a permutation of the input. |
| MergeSortSpec.StableSortIsUnique | join-practice/sort-merge-join.cpp:144-175 | A sorted list is determined by its rows of each key: there is only one stable sort. |
| MergeSortSpec.MergedStable | join-practice/sort-merge-join.cpp:144-160 | Merging sorted halves keeps, for each key, the left rows before the right rows. |
| MergeSortSpec.MergedSorted | join-practice/sort-merge-join.cpp:144-160 | Merging two sorted lists gives a sorted list. |
| MergeSortSpec.ComparisonsBound | join-practice/sort-merge-join.cpp:149-170 | mergeSort makes at most n*ceil(log2 n) key comparisons. |
| MergeSortSpec.ComparisonsAtLeast | join-practice/sort-merge-join.cpp:149-170 | mergeSort makes at least n - 1 key comparisons. |
| MergeSortSpec.MergeComparisonsExact | join-practice/sort-merge-join.cpp:149-157 | Merging sorted halves costs one comparison per row except for the rows left over when one half is used up. |
| MergeSortSpec.CeilLog2IsLog | join-practice/sort-merge-join.cpp:233-233 | The bound's logarithm is the least e with n <= 2^e. |
| SortMergeJoin.Merge | join-practice/sort-merge-join.cpp:144-160 | merge replaces [left, right) by the merge of its halves, touches nothing else, and counts its key comparisons. |
| SortMergeJoin.MergeToTemp | join-practice/sort-merge-join.cpp:145-157 | The three loops leave the merge of the two halves in temp, with the comparisons counted. |
| SortMergeJoin.CopyBack | join-practice/sort-merge-join.cpp:159-159 | The copy replaces [left, right) by temp and touches nothing else. |
| SortMergeJoin.MergeSortRange | join-practice/sort-merge-join.cpp:163-170 | The recursive mergeSort replaces [left, right) by its stable sort and touches nothing else. |
| SortMergeJoin.MergeSort | join-practice/sort-merge-join.cpp:173-175 | The whole array becomes its stable sort, within the comparison bound. |
| SortMergeJoin.MergePhase | join-practice/sort-merge-join.cpp:183-219 | Over sorted inputs the result is exactly the naive nested loop; outer-loop and run-scan iterations total at most 2*(R + S rows) and no fewer than the rows of one side, and emission iterations equal the output size. |
| SortMergeJoin.EmitRow | join-practice/sort-merge-join.cpp:209-211 | The inner emission loop pairs one row with its whole run, one iteration per pair. |
| SortMergeJoin.EmitProduct | join-practice/sort-merge-join.cpp:208-212 | The emission loops give the full cross product of the two runs, one iteration per pair. |
| SortMergeJoin.RunEnd | join-practice/sort-merge-join.cpp:199-205 | The run scan stops at the end of the run of one key. |
| SortMergeJoin.Join | join-practice/sort-merge-join.cpp:179-220 | sortMergeJoin sorts both inputs in place, possibly the same vector, and returns exactly the naive nested loop over the sorted inputs; as a collection, the equality join of the original inputs. |
| HashJoins.UnorderedMultimap.EqualRange | join-practice/hash-join.cpp:70-71 | equal_range yields exactly the rows of the key, in any order. |
| HashJoins.UnorderedMultimap.Emplace | join-practice/hash-join.cpp:65-65 | emplace adds one row under its key and leaves other keys alone. |
| HashJoins.ProbeRow | join-practice/hash-join.cpp:70-73 | Probing with a row emits one pair per entry of its key. |
| HashJoins.BuildTable | join-practice/hash-join.cpp:61-66 | After the build loop each key finds exactly its build rows. |
| HashJoins.HashJoin | join-practice/hash-join.cpp:57-77 | The pairs with equal keys, each as often as it should be, whatever order the table yields, probe row by probe row in the probe side's order. |
| HashJoins.IndexNestedLoopJoin | join-practice/nested-loop-join-variations.cpp:164-194 | Probing an index built over the inner table gives the pairs with equal keys, outer row first, in the order of the outer rows. |
| HashJoins.Partition | join-practice/hash-join.cpp:149-157 | Bucket p holds exactly the rows with hash(key) % numPartitions == p, each as often as the input, the rows of a key in their order. |
| HashJoins.PartitionConserves | join-practice/hash-join.cpp:149-157 | The buckets together hold each row as often as the input. |
| HashJoins.PartitionJoinCount | join-practice/hash-join.cpp:173-186 | Joining bucket p with bucket p gives exactly the pairs of the whole join whose key falls into p. |
| HashJoins.GraceHashJoin | join-practice/hash-join.cpp:163-192 | For every hash function and every number of partitions, the same pairs as the classic hash join, partition by partition and probe row by probe row. |
| NestedLoopJoins.NestedLoopJoin | join-practice/nested-loop-join-variations.cpp:35-56 | Exactly the flipped naive join with the predicate called inner row first; as a collection, the naive join with the tables exchanged. |
| NestedLoopJoins.BlockNestedLoopJoin | join-practice/nested-loop-join-variations.cpp:75-106 | Exactly the blocked join: block by block, inner page by inner page, row by row; as a collection, the pairs of the flattened tables that satisfy the predicate, for every block size; pageIOCount rises by M + ceil(M/B)*N. |
| NestedLoopJoins.BlockedJoinIsJoin | join-practice/nested-loop-join-variations.cpp:87-103 | The blocked order of emission gives the pairs of the naive join of the flattened tables for every block size. |
| NestedLoopJoins.OneInnerPage | join-practice/nested-loop-join-variations.cpp:87-103 | With a single inner page the blocked join is the naive join in its own order, for every block size. |
| NestedLoopJoins.BlocksInOrder | join-practice/nested-loop-join-variations.cpp:87-103 | A first full block comes out before the rest, and a block alone gives its own pairs. |
| NestedLoopJoins.BlockPairsConcat | join-practice/nested-loop-join-variations.cpp:90-102 | Under one block the inner pages come in their order. |
| NestedLoopJoins.JoinPage | join-practice/nested-loop-join-variations.cpp:94-100 | The two innermost loops give the naive join of one outer page with one inner page. |
| NestedLoopJoins.JoinBlock | join-practice/nested-loop-join-variations.cpp:90-102 | One block joined with the inner table reads each inner page once and emits its pairs page by page. |
| NestedLoopJoins.NestedLoopAgrees | join-practice/nested-loop-join-variations.cpp:35-56 | nestedLoopJoin with key equality is the equality join with its orientation swapped. |
| NestedLoopJoins.EquiJoinsAgree | join-practice/sort-merge-join.cpp:179-220 | The join over sorted inputs and any equality join of the original inputs hold the same pairs. |
| QueueSpec.EveryRunIsFifo | go-concurrency-practice/fixed-size-bounded-blocking-queue/main.go:57-120 | In every run the dequeued history is a prefix of the enqueued one, the k-th taker gets the element that the k-th putting call was called with, a sleeping producer implies full and a sleeping consumer implies empty. |
| QueueSpec.CallsKeepTheirArguments | go-concurrency-practice/fixed-size-bounded-blocking-queue/main.go:57-90 | In every run the c-th Enqueue call brings the element it was called with. |
| QueueSpec.BothAsleepOnlyWithoutCapacity | go-concurrency-practice/fixed-size-bounded-blocking-queue/main.go:73-108 | Producers and consumers are asleep together in some run if and only if the capacity is 0. |
| QueueSpec.NoDeadlock | go-concurrency-practice/fixed-size-bounded-blocking-queue/main.go:73-116 | With some capacity, of an unfinished Enqueue and an unfinished Dequeue call one can always go on. |
| QueueSpec.RunsAreBounded | go-concurrency-practice/fixed-size-bounded-blocking-queue/main.go:57-120 | With n calls and any capacity every run has at most n*(n+2) steps, however often broadcasts wake callers in vain. |
| QueueSpec.StuckRunsAreComplete | go-concurrency-practice/fixed-size-bounded-blocking-queue/main.go:57-120 | A run that no locked pass extends has put min(E, D + capacity) and taken min(E, D) elements of E Enqueue and D Dequeue calls if and only if there is some capacity, or no producer, or no consumer; whoever is left sleeps on a full or an empty queue. |
| QueueSpec.StepKeepsInv | go-concurrency-practice/fixed-size-bounded-blocking-queue/main.go:57-120 | Every locked pass keeps the FIFO history, its attribution to calls, and the reasons for sleeping. |
| BoundedQueue.RingPush | go-concurrency-practice/fixed-size-bounded-blocking-queue/main.go:85-87 | Writing the cell at the tail appends to the ring's contents, across the wrap. |
| BoundedQueue.RingPop | go-concurrency-practice/fixed-size-bounded-blocking-queue/main.go:112-114 | Moving the head drops the first element, across the wrap. |
| BoundedQueue.Queue.constructor | go-concurrency-practice/fixed-size-bounded-blocking-queue/main.go:33-55 | A fresh queue is the empty FIFO of its capacity. |
| BoundedQueue.Queue.Put | go-concurrency-practice/fixed-size-bounded-blocking-queue/main.go:85-87 | Writing at the tail appends the element and keeps tail == (head + count) % cap. |
| BoundedQueue.Queue.Take | go-concurrency-practice/fixed-size-bounded-blocking-queue/main.go:112-114 | Reading at the head removes the first element and keeps tail == (head + count) % cap. |
| BoundedQueue.Queue.EnqueueSection | go-concurrency-practice/fixed-size-bounded-blocking-queue/main.go:70-90 | One pass of Enqueue takes the FIFO machine's step: sleep when full, else append and broadcast. |
| BoundedQueue.Queue.DequeueSection | go-concurrency-practice/fixed-size-bounded-blocking-queue/main.go:103-118 | One pass of Dequeue takes the FIFO machine's step: sleep when empty, else return the oldest element and broadcast. |

## Left out

- Memory-model effects: each critical section, each `notify_all` and each single read or write call is one atomic step.
- Fairness of the scheduler: termination is stated as a bound on every run plus an enabled step, not as an eventuality.
- Thread creation, thread handles and the destructor of the pool: workers exist from the start and the destructor's call is an ordinary graceful shutdown.
- The future's side of a promise: what `get()` returns is the promise state the model records.
- Real file descriptors, error printing and object deletion order in the index; a file that could not be opened behaves as one whose every write and read fails.
- `Index.IndexImpl.ReadRecordAt`: on arbitrary bytes it is stated for a file nobody appends to during the call; reads of a published record while others append are `ReadStoredRecord` and the `Pread` steps of the machine.
- Machine-size overflow of container sizes, of `writeOffset`, of `inFlight` and of `pageIOCount`.
- The bucket structure of `unordered_multimap`: `equal_range` is any enumeration of the rows of the key.
- `std::hash<int>` is an arbitrary function; zero partitions with rows to place (division by zero in the source) is excluded, as is a block size of zero with pages to read (an endless loop in the source).
- `index_and_iterator.cpp`: the same index over C++ stream state in place of positional reads and writes.
- The Go index, connection pools, LRU cache, event bus and rate limiter: the operations that would carry their guarantees are comments or unfinished there.
- The Go rate-limited worker pool: when a job runs is decided by a ticker, and time is not part of this model.
- `hash-aggregation-operator.cpp`: one accumulator per group key over floating-point values; it does not touch the joins.
- The Go semaphore, fan-in and signal-handling programs: a buffered channel used as a counter, ten fixed values merged from two processors, and a worker that prints until a signal arrives.
