# epsilonDB: logging, versions and replay, proved in Dafny

epsilonDB discards dirty pages and rebuilds them from its log, so its correctness rests on the log and on its
multi-version bookkeeping. This project models those parts as step machines, objects and functions, and proves what
the rest of the system relies on: over every interleaving, every input and every reachable state.

`dafny verify dfyconfig.toml` checks all of it.

## What is modelled

**One write-ahead log** (`WalMachine`, `WalHistory`, `WalProof`, `WalRound`, `WalTheorems`, `WalProgress`, `WalReader`, `WalLogging`,
with `Align` and `CircularQueue`). Workers reserve space in a ring buffer with carriage returns and 4 KiB skips, fill it out
of order through a queue of holes, and a group committer copies block-aligned ranges to a device segment, rewriting
its last partial block. `WalMachine` is the program: one step per point at which another thread can look. `WalHistory` adds the
append-only linear log that no step reads. The main theorem is the refinement: the segment is that linear log up to the committer's
cursor. `WalReader` adds the reader that copies records out of the ring without the mutex. `WalLogging` gives the same
code as objects whose methods change fields, each proved to be the machine's step.

**Snapshot isolation** (`CommitTree`, `Snapshot`, `SnapshotProof`, `SnapshotTheorems`, `SnapshotOlap`, `SnapshotRuns`, `SnapshotLimits`,
`SnapshotTraps`, `SnapshotRefresh`, `SnapshotPruning`, `SnapshotCaches`, `SnapshotProgress`).
Any number of workers start, commit, prune their commit trees while others start, scan for the oldest snapshot, store what they found in
three separate stores, deliver low watermarks and purge. The full commit histories are kept beside the machine and read by no step.
`SnapshotRuns` builds runs step by step, for the theorems in `SnapshotLimits` that say exactly when a guarantee holds and for the
states in `SnapshotTraps` in which a reader loses a version. `SnapshotRefresh` says what one refresh stores and
`SnapshotPruning` what one cleaning leaves, each from its own reads; `SnapshotCaches` says when a question needs no commit tree.

**Group commit** (`GroupCommit`, `GroupCommitProof`, `SubmitSteps`, `SubmitLimits`, `CommitProgress`, `DurableCommit`,
`DurableProgress`). Workers stamp records with GSNs; the committer reads worker clocks
and logs one after the other while they go on, writes, computes the durable watermark and commits queued transactions.
`SubmitSteps` takes `submit()` in two steps: the GSN is published before the holes are collected. `DurableCommit` is n logs of `WalMachine`
and this committer as one machine: what counts as written is on the device, byte for byte.

**Tuple versions** (`Diff`, `Versions`, `FatTupleGc`, `FatTuple`, `WideZone`, `Chain`, `RemovedTuples`). The fat tuple with its hand-managed space, its
delta-merging garbage collector and undo; the version chain in the history tree; and the conversion of the first into the second.
Both representations are compared with one list of versions and one definition of what a snapshot reads.

**Versions inside runs** (`GcInRuns`, `GcNoticed`, `ChainInRuns`). A collection inside a run of the snapshot machine, with its answers and
timestamps loaded one after the other in different states, and exactly when a running transaction notices it; and a walk along a version
chain while other workers purge their versions.

**Log records and replay** (`LogRecord`, `Redo`, `PageLog`, `Compaction`, `PageLogRuns`, `PageFolds`). Records of a leaf's inserts, updates
and removes as bytes, redo of a serialized page log, and the folding of consecutive updates into one record.

**Smaller pieces**: the hybrid latch (`Latch`), the single-writer spin struct (`SpinStruct`), the table-driven CRC (`Crc`, `CrcDivision`, CRC-32
as in section 8 of RFC 1952), and the intrusive slab free list (`Slab`). `Wrappers` holds the types they share.

## Nobody waits for ever

The step machines are also shown to get on. From every state of every run there is a continuation after which everything reserved in a log is
on the device and the next record is taken (`WalProgress.EverythingGetsWritten`, `NextRecordIsTaken`); everything started so far is below
the global watermark and purged (`SnapshotProgress.EverythingSettles`); every precommitted transaction is committed
(`CommitProgress.EverythingCommits`); a guard gets its latch (`Latch.CanWrite`, `CanUpgrade`, `CanShare`), a pushed value is read
(`SpinStruct.PushIsRead`), and a reader of the ring gets its record (`WalReader.CopyCanBeHad`). `DurableProgress.RecordCommits` builds
a run of logs and committer together, for every number of workers, in which a given record is committed and on the device.

## Where the code does less than it means to

Each of these is a property the code is meant to have, a concrete way in which it fails, and the exact condition under which it holds.

- **Folding updates.** The comparison that decides whether an update may be folded into the previous record (BTreeLL.cpp:432)
  starts at the record header, but its length is that of key and descriptor. The last six bytes of key and descriptor are never
  compared; with one slot the descriptor is not compared at all (`PageLog.OneSlotIsNotCompared`). Two updates of different bytes of
  one row of zeros are folded, and redo of the page gives the row of zeros again (`PageLogRuns.TwoFieldsReplayWrong`).
  `PageFolds.PageFoldIff`: on any page, redo is right whatever value an update's callback leaves, if and only if the update is not folded or
  names the same bytes in the same order as the record before it. `Compaction.FoldIff` says the same of two records. The flag is on by
  default (Config.cpp:131). The run theorem takes that condition as its hypothesis.
- **Loads between two stores.** A refresh stores the oldest OLTP timestamp before the newest OLAP one (ConcurrencyControl.cpp:49-50), and a
  collection loads them in that order (FatTupleDifferentAttributes.cpp:82-83). Both loads between the two stores of one refresh give a new
  OLTP timestamp with an old OLAP one: an OLAP reader then loses the version it needs (`SnapshotTraps.TornTrap`, `GcNoticed.TrapReads`). That
  takes three workers; with two nobody is left who could notice (`GcInRuns.TornOfTwo`).
- **Refreshes by OLAP transactions.** Nothing bounds the oldest OLTP timestamp that an OLAP transaction finds: it can store a pair with a
  running snapshot in between (`SnapshotLimits.OlapRefreshMissesAReader`, for every number of workers from two), and a read changes
  (`SnapshotTraps.OlapTrap`, `GcNoticed.TrapReads`). `SnapshotLimits.ServesIff`: the stored pair serves every running and later snapshot in
  all runs, outside the gap between two stores, if and only if no refresh is by an OLAP transaction.
- **Several updates by one transaction.** The margin of two behind `bin_search` (FatTupleDifferentAttributes.cpp:113) spares the last version
  that a snapshot needs only if the deltas around zone_end are of different transactions. `FatTupleGc.ZoneIff` gives the exact condition,
  `FatTupleGc.SecondUpdateIsNotSpared` five deltas that fail it, and `SnapshotTraps.CutTrap` runs of plain OLTP transactions in which a
  read changes (`GcNoticed.TrapReads`).
- **Slots of a merged delta.** The merged delta lists the slots of its zone in the order of a hash map, and its descriptor counts them in a
  byte. `Versions.MergeIff`: merging undoes what its zone undoes, on all values and in all orders of the map, if and only if the zone has at
  most 255 different slots and those that share a byte agree on it, or no slot holds a byte. An older delta on two bytes and a newer one on
  the first of them fail it (`Versions.PartialOverlap`), also in runs (`SnapshotTraps.ClashTrap`, `GcNoticed.ClashReads`); 256 slots fit into
  a fat tuple (`WideZone.ManySlots`).
- **When no reader notices a collection.** `GcNoticed.UnnoticedIff` is the exact condition for the four points above together, from two
  workers on: no running reader notices any collection in all runs if and only if no refresh is by an OLAP transaction and, where there are
  refreshes, no collection ends its zone between two updates of one transaction, none merges slots that disagree or outnumber a byte, and with
  three workers or more none has both loads between the two stores of one refresh. Fat tuples are off by default (Config.cpp:79).
- **The watermark inside submit().** A worker publishes its GSN before it collects its filled holes (Logging.hpp:161-166). A committer that reads
  the GSN before and the log after can store a watermark that is ahead of an unwritten record (`SubmitLimits.OvertakenRecord`, for every number of
  workers from two). `SubmitLimits.WatermarkIff`: every record up to the watermark is written in all runs if and only if `submit()` is one step
  or there is one worker. Transactions are not committed too early all the same: the check of their start timestamp against the hardened ones,
  which the committer has read before the logs, holds them back (`SubmitSteps.CommittedIsDurable`).
- **Removed tuples.** A RemoveVersion holds the key and then the value (BTreeVI.cpp:518-519), and a walk takes the value from the start
  (BTreeVI.cpp:915-917). `RemovedTuples.RemovedReadsIff`: a reader that does not see the removal gets its version exactly when the
  bytes that no newer delta rewrites are the same in both places; for the last value that means a value that repeats the key
  (`RemovedTuples.LastValueIff`). `RemovedTuples.RemovalIff`: that is so for all tuples if and only if the key or the values have no bytes.
- **A single worker's commit tree.** Cleaning reads no other worker and keeps nothing (`SnapshotLimits.AloneForgets` is the run).
  `SnapshotLimits.RemembersIff`: the last commit survives cleaning in all runs if and only if there are two workers or more.

The record count of a page log is a byte too, but that one never wraps: a log of less than 1024 bytes holds at most 170 records
(`PageLogRuns.RunReplays`).

## Reading the model

- Steps are sequentially consistent. The source also loads with relaxed order and fences (Logging.hpp:265-286); what a weaker memory model
  adds to that is not in the model.
- A spin loop is a step that is not possible yet; an `ensure`, `assert` or SIGTRAP is the outcome `Crash`, and the theorems show that it is
  not reachable.
- `collect_filled_holes` takes the whole unlocked prefix in one step: a hole unlocked while the source loops is collected now or by the next
  call. The LSN counter moves in a step of its own before the ring is written, as the reader of the ring needs.
- Ring arithmetic is stated over linear positions; `Align.AlignIsMask` ties alignment to the source's bit masks on 64-bit words. The theorem about device contents is
  for logs without the fake wrap; offsets and bounds are proved with and without it.
- Holes are named by the absolute index that the queue gives them, as a worker's pointer names a slot.
- Shared state under interleaving (workers, latch, logs, page log, commit queues) is a value that steps replace; code whose own loops and fields matter is
  a class or a method, proved against the same functions.
- The low watermark of `Snapshot` is the one over all transactions. Latching a snapshot word, drawing a timestamp and publishing it are three steps;
  reading each other worker's word is one step each, in the cleaner as in the scan, and so is each of the three stores of a refresh.
- A collection's answers from `isVisibleForAll` and its two timestamps are each loaded in a state of their own, while the collector's
  transaction runs. `UnnoticedIff` has three switches that say which collections are looked at: with torn loads, with a cut transaction, with
  clashing slots.
- A walk along a chain looks each version up in a tree of its own, which has lost any of the versions purged by then; purging drops whole
  pages, so it may leave some.
- In `GroupCommit` one `submit()` is one step and a worker has one record outstanding; in `SubmitSteps` it is two steps, a page with a record that
  is not submitted is latched, and start timestamps of a worker increase. In `DurableCommit` the hole is unlocked in a step of its own as well.
  `seen` collects, for a transaction, its own records and those of the pages it read, as they were when it read them.
- `Versions.Id` holds start timestamps, as ordinary updates write them.
- `Crc` represents words and bytes as sequences of bits, least significant first, so that its theorems hold at every width from eight bits up.

## Model

| member | source | states |
|---|---|---|
| Align.DownAlign | backend/leanstore/utils/Misc.hpp:31-35 | the block boundary at or below x, less than a block away |
| Align.UpAlign | backend/leanstore/utils/Misc.hpp:25-29 | the block boundary at or above x, less than a block away |
| Align.AlignIsMask | backend/leanstore/utils/Misc.hpp:25-35 | on 64-bit words both are what `x - (x & 4095)` and `(x + 4095) & ~4095` compute, bit by bit |
| Align.SkipBlock | backend/leanstore/concurrency-recovery/Logging.cpp:73-80 | a record that would cross a block boundary fits whole into the next block |
| CircularQueue.Queue.EmplaceBack | backend/leanstore/utils/CircularQueue.hpp:19-25 | appends or refuses when full, and no slot of a queued element is reused |
| CircularQueue.Queue.EraseFrontWhile | backend/leanstore/utils/CircularQueue.hpp:34-44 | erases exactly the longest matching prefix; the last erased element is still readable |
| CircularQueue.SlotsDiffer | backend/leanstore/utils/CircularQueue.hpp:22-22 | elements queued at the same time live in different slots |
| WalMachine.UnlockedPrefix | backend/leanstore/concurrency-recovery/Logging.hpp:91-97 | all holes before it are unlocked, the one at it is locked |
| WalProof.FreeSpaceMeaning | backend/leanstore/concurrency-recovery/Logging.cpp:20-37 | free and contiguous free space are the distance in the linear log to the first block still to be written |
| WalProof.BranchChoice | backend/leanstore/concurrency-recovery/Logging.cpp:43-50 | after the wait the carriage return is taken exactly when the record does not fit before the end of the ring |
| WalProof.SkipArithmetic | backend/leanstore/concurrency-recovery/Logging.cpp:73-80 | although skipped bytes are not counted in the wait, the block after the skip is free and the LSN moves as far as the cursor |
| WalProof.RecordBelowSegment | backend/leanstore/concurrency-recovery/Logging.hpp:232-258 | the last record of a segment ends at least a block before the segment |
| WalProof.PopPublishes | backend/leanstore/concurrency-recovery/Logging.hpp:91-141 | collecting never moves the published offset or GSN back, even after drain_holes has published queued holes |
| WalProof.CopyPlace | backend/leanstore/concurrency-recovery/GroupCommiter.cpp:134-160 | a byte copied below the published end is the linear log's byte: the ring has not been reused under it |
| WalRound.PlanKept | backend/leanstore/concurrency-recovery/GroupCommiter.cpp:134-160 | the ranges of a round cover everything published and unwritten and lie at their linear place in the segment, with one or two ranges and with the wrap |
| WalRound.TwoRanges | backend/leanstore/concurrency-recovery/GroupCommiter.cpp:142-160 | the same for a published offset that has wrapped |
| WalTheorems.StepKeeps | backend/leanstore/concurrency-recovery/Logging.cpp:39-88 | every step of every thread keeps ring, hole queue and segment in agreement with the linear log |
| WalTheorems.NeverCrashes | backend/leanstore/concurrency-recovery/Logging.cpp:56-86 | no ensure or SIGTRAP of the modelled code is reachable in any run |
| WalTheorems.ChecksAreMade | backend/leanstore/concurrency-recovery/Logging.cpp:51-110 | the machine does make the checks that NeverCrashes speaks of: in any state, reachable or not, each fires exactly when what it checks is wrong |
| WalTheorems.WriteChecksAreMade | backend/leanstore/concurrency-recovery/LogManager.cpp:237-290 | the same for queueing a write: unaligned size or offset, or a write up to the segment's end |
| WalTheorems.DurableRecord | backend/leanstore/concurrency-recovery/GroupCommiter.cpp:134-199 | once the committer's cursor is past a record, the segment holds at its LSN the bytes its owner filled, in this and every later state |
| WalTheorems.DevicePrefix | backend/leanstore/concurrency-recovery/LogManager.cpp:237-293 | the segment is the linear log up to the committer's cursor, while a round rewrites its last block too |
| WalTheorems.RunForward | backend/leanstore/concurrency-recovery/Logging.hpp:91-141 | published offset, GSNs, committer cursor and closing never move back over a run, and no submitted record is forgotten |
| WalTheorems.PublishedIsFilled | backend/leanstore/concurrency-recovery/Logging.hpp:91-113 | the published offset ends a fully filled prefix: every locked hole starts at or after it |
| WalTheorems.HoleStays | backend/leanstore/concurrency-recovery/Logging.hpp:142-184 | until its owner unlocks it, a hole stays queued and unchanged at its absolute index, over every part of every run, and no other queued hole lives in its slot |
| WalTheorems.ReservedRange | backend/leanstore/concurrency-recovery/Logging.cpp:39-87 | the reserved range lies in one block, leaves room for a carriage return and touches no byte still to be written |
| WalTheorems.FullNeverLooksEmpty | backend/leanstore/concurrency-recovery/Logging.cpp:20-31 | equal cursors mean that nothing is left to write; free space is exact in every state |
| WalTheorems.Congruent | backend/leanstore/concurrency-recovery/LogManager.cpp:41-55 | LSN and cursor, segment offset and aligned committer cursor agree modulo the ring size, with and without the fake wrap |
| WalTheorems.WritesStayInSegment | backend/leanstore/concurrency-recovery/LogManager.cpp:259-293 | closing a log one ring before its end keeps every device write strictly inside the segment |
| WalProgress.GrantIff | backend/leanstore/concurrency-recovery/Logging.cpp:39-49 | in every state of every run a reservation goes on exactly when record and carriage return, placed at the end of the linear log or at the next lap, end within a ring of the first block still to be written |
| WalProgress.EverythingGetsWritten | backend/leanstore/concurrency-recovery/GroupCommiter.cpp:134-199 | from every state of every run there is a continuation to a state in which every record reserved is submitted, published and on the device |
| WalProgress.NextRecordIsTaken | backend/leanstore/concurrency-recovery/Logging.cpp:39-88 | from every such state of a log that is not closed, every record that fits a block with a carriage return can be taken; it starts at the end of the log, or at the next block or lap exactly if it must, and comes to the device at its LSN |
| WalProgress.FirstRecordIsTaken | backend/leanstore/concurrency-recovery/Logging.hpp:186-210 | for every configuration and every such record: a run that ends with it submitted, the committer past it and the device holding it |
| WalReader.RecordInRing | backend/leanstore/concurrency-recovery/Logging.hpp:259-272 | while the counter has not run a ring past it, a submitted record is in the ring at its LSN modulo the ring size |
| WalReader.ReaderStepKeeps | backend/leanstore/concurrency-recovery/Logging.hpp:265-286 | bytes copied so far are the record's, or the counter already tells that they are not |
| WalReader.CopyIsTheRecord | backend/leanstore/concurrency-recovery/Logging.hpp:265-286 | whenever a copy is returned it is the record at that LSN, however writers interleave; the reader's checks never fail |
| WalReader.StartIff | backend/leanstore/concurrency-recovery/Logging.hpp:265-271 | a reader of a submitted record is turned away at once exactly when the counter has run more than a ring past the record |
| WalReader.CheckIff | backend/leanstore/concurrency-recovery/Logging.hpp:272-286 | the same at each of its two checks; otherwise it goes on to the body, or returns the record |
| WalReader.CopyCanBeHad | backend/leanstore/concurrency-recovery/Logging.hpp:265-286 | as long as the counter has not run a ring past the record, the reader's own steps bring it the record |
| WalLogging.Logging.CollectFilledHoles | backend/leanstore/concurrency-recovery/Logging.hpp:91-113 | pops exactly the unlocked prefix and publishes its end, as the machine's step does |
| WalLogging.Logging.InsertHole | backend/leanstore/concurrency-recovery/Logging.hpp:178-184 | collects, then appends; waits exactly when the queue is full with a locked front |
| WalLogging.Logging.QueueStuck | backend/leanstore/concurrency-recovery/Logging.hpp:91-104 | answers whether insertHole would wait |
| WalLogging.Logging.BumpLsn | backend/leanstore/concurrency-recovery/Logging.cpp:53-77 | the LSN counter moves as in the machine's branch, before anything is written; false exactly when the check on the wrap fires |
| WalLogging.Logging.WriteEntry | backend/leanstore/concurrency-recovery/Logging.cpp:60-83 | the entry that the branch calls for, or a wait with nothing written |
| WalLogging.Logging.UnlockHole | backend/leanstore/concurrency-recovery/Logging.hpp:65-70 | unlocking through the slot of an absolute index is the machine's step: no other queued hole changes |
| WalLogging.Logging.WriteCarriageReturn | backend/leanstore/concurrency-recovery/Logging.cpp:60-72 | entry, cursor and hole change as in the machine's step |
| WalLogging.Logging.WriteSkipEntry | backend/leanstore/concurrency-recovery/Logging.cpp:78-83 | entry, cursor and hole change as in the machine's step |
| WalLogging.Logging.WalEnsureEnoughSpace | backend/leanstore/concurrency-recovery/Logging.cpp:39-88 | without interference it is wait, branch, the entry the branch calls for and the two closing checks; it aborts exactly when one of its checks fires, waits for space with nothing changed, and waits for a hole with the LSN counter moved |
| WalLogging.Logging.DrainHoles | backend/leanstore/concurrency-recovery/Logging.hpp:117-141 | publishes the end of the last hole without popping, or waits for a locked one |
| WalLogging.LogSegment.AddPwrite | backend/leanstore/concurrency-recovery/LogManager.cpp:237-293 | request and offset change as in the machine; fails exactly where its checks fire |
| WalLogging.LogSegment.QueueWrites | backend/leanstore/concurrency-recovery/GroupCommiter.cpp:134-160 | queues exactly the ranges that the machine plans |
| CommitTree.LCBIsGreatest | backend/leanstore/concurrency-recovery/ConcurrencyControl.cpp:266-279 | the answer for ts is the greatest commit below ts, and there is one if any commit is below ts |
| CommitTree.LCBIgnoresLater | backend/leanstore/concurrency-recovery/ConcurrencyControl.cpp:255-264 | a commit at or after ts changes no answer for ts |
| CommitTree.FilterKeepsLCB | backend/leanstore/concurrency-recovery/ConcurrencyControl.cpp:311-326 | pruning that keeps the answer for ts keeps it the answer |
| CommitTree.SortedUnique | backend/leanstore/concurrency-recovery/ConcurrencyControl.cpp:299-326 | sorted entries are determined by the set of them |
| CommitTree.Tree.Commit | backend/leanstore/concurrency-recovery/ConcurrencyControl.cpp:255-264 | appends the stamped commit and keeps the tree sorted |
| CommitTree.Tree.LCBUnsafe | backend/leanstore/concurrency-recovery/ConcurrencyControl.cpp:266-279 | the lower-bound search answers like the definition, on every sorted tree |
| CommitTree.Tree.Prune | backend/leanstore/concurrency-recovery/ConcurrencyControl.cpp:322-327 | iterating the ordered set of collected entries leaves exactly the kept entries, in commit order |
| SnapshotProof.KeepForCovers | backend/leanstore/concurrency-recovery/ConcurrencyControl.cpp:311-319 | reading one more snapshot covers it and costs at most one slot |
| SnapshotProof.DeliveredIsSafe | backend/leanstore/concurrency-recovery/ConcurrencyControl.cpp:63-78 | the watermark computed for a worker from its pruned tree lies at a commit that every live and later snapshot sees |
| SnapshotTheorems.StepKeeps | backend/leanstore/concurrency-recovery/Worker.cpp:124-145 | every step of every worker keeps trees, words, caches, scans and watermarks sound |
| SnapshotTheorems.PrunedTreeIsExact | backend/leanstore/concurrency-recovery/ConcurrencyControl.cpp:293-328 | in every reachable state LCB over a pruned tree equals LCB over the full history, for every other worker's live snapshot and every future one |
| SnapshotTheorems.NeverOverflows | backend/leanstore/concurrency-recovery/ConcurrencyControl.cpp:255-264 | a tree never outgrows its workers + 1 slots and commit's assertion never fails |
| SnapshotTheorems.LowWatermark | backend/leanstore/concurrency-recovery/ConcurrencyControl.cpp:48-83 | a transaction below the watermark delivered to its worker, or below the global one, committed before every running and every later snapshot |
| SnapshotTheorems.PurgedStaysPurged | backend/leanstore/concurrency-recovery/ConcurrencyControl.cpp:129-142 | over every run, a worker's purged versions never come back |
| SnapshotTheorems.VisibleForAllByCommit | backend/leanstore/concurrency-recovery/ConcurrencyControl.cpp:244-253 | a commit timestamp below the oldest start is below every running and every later snapshot |
| SnapshotTheorems.OldCacheIsSound | backend/leanstore/concurrency-recovery/ConcurrencyControl.cpp:226-230 | an older cached snapshot says yes only when yes is right |
| SnapshotTheorems.VisibilityIsExact | backend/leanstore/concurrency-recovery/ConcurrencyControl.cpp:191-242 | visible if and only if mine or committed before my start, whichever path answers |
| SnapshotTheorems.PurgedIsNeverRequested | backend/leanstore/concurrency-recovery/ConcurrencyControl.cpp:129-142 | a version that was purged belongs to a writer that no running transaction finds invisible |
| SnapshotRefresh.RefreshStores | backend/leanstore/concurrency-recovery/ConcurrencyControl.cpp:24-50 | in every run the three stores of a refresh are the oldest snapshot, the oldest OLTP and the newest OLAP one of the words it has read, one of every worker |
| SnapshotRefresh.RefreshDelivers | backend/leanstore/concurrency-recovery/ConcurrencyControl.cpp:52-79 | a delivery gives the next worker the start of its last commit before the oldest of those words, unless it has not written since its last watermark |
| SnapshotRefresh.RefreshEnds | backend/leanstore/concurrency-recovery/ConcurrencyControl.cpp:80-83 | at its end the global watermark is the least of the watermarks the refresh has given if it skipped nobody, and unchanged otherwise |
| SnapshotRefresh.OnlyRefreshes | backend/leanstore/concurrency-recovery/ConcurrencyControl.cpp:48-83 | no other step changes the three timestamps or the global watermark |
| SnapshotPruning.CleaningLeaves | backend/leanstore/concurrency-recovery/ConcurrencyControl.cpp:293-328 | in every run a cleaning happens only to a full tree, reads every worker once and leaves exactly the newest entry and, for each snapshot it has read, the newest entry below it, or the oldest entry if that worker has never started |
| SnapshotCaches.AnswerIsRemembered | backend/leanstore/concurrency-recovery/ConcurrencyControl.cpp:226-240 | a question that has to be looked up leaves the newest transaction committed before the start in the cache, and no later question of the same transaction about that worker reads its tree |
| SnapshotCaches.EarlierAnswerHolds | backend/leanstore/concurrency-recovery/ConcurrencyControl.cpp:226-230 | over every run, what a worker has found committed all its later transactions find visible without a look at a tree |
| SnapshotCaches.SettledNeedsNoTree | backend/leanstore/concurrency-recovery/Worker.cpp:139-141 | over every run, what was below the global watermark at a transaction's own load is visible to it without a look at a tree |
| SnapshotCaches.CommitCrashesIff | backend/leanstore/concurrency-recovery/ConcurrencyControl.cpp:255-264 | the assertion that NeverOverflows speaks of is made: it fails exactly where a writer commits into a full tree |
| SnapshotProgress.ComesToRest | backend/leanstore/concurrency-recovery/ConcurrencyControl.cpp:16-90 | from every state, a state in which no transaction and no refresh is in progress: no latch, cleaning or scan waits for ever |
| SnapshotProgress.EverythingSettles | backend/leanstore/concurrency-recovery/ConcurrencyControl.cpp:16-143 | from every state of every run of two workers or more there is a continuation after which everything started so far is below the global watermark and purged, and a new transaction knows that watermark |
| SnapshotOlap.StepSides | backend/leanstore/concurrency-recovery/ConcurrencyControl.cpp:24-50 | every step keeps the stored oldest OLTP timestamp a bound, every passed worker of a scan accounted for or younger than the refresher, and the stored pair splitting outside the gap between two stores |
| SnapshotOlap.EverySnapshotIsServed | backend/leanstore/concurrency-recovery/ConcurrencyControl.cpp:24-50 | with OLTP refreshes, a pair loaded in two different states, not both between the two stores of one refresh, serves every snapshot running when it is used and every later one |
| SnapshotOlap.StoredSplits | backend/leanstore/concurrency-recovery/ConcurrencyControl.cpp:48-50 | the newest OLAP timestamp of an OLTP refresh splits all snapshots with every earlier oldest OLTP timestamp too |
| SnapshotOlap.LoadedPair | backend/leanstore/storage/btree/FatTupleDifferentAttributes.cpp:82-83 | over every run, loads in states i and j give a pair that splits, or both lie between the two stores of one refresh |
| SnapshotLimits.OlapRefreshMissesAReader | backend/leanstore/concurrency-recovery/ConcurrencyControl.cpp:28-50 | for every number of workers from two: a reachable state after a refresh by an OLAP transaction in which a running snapshot lies strictly between the two |
| SnapshotLimits.ServesIff | backend/leanstore/concurrency-recovery/ConcurrencyControl.cpp:24-50 | for n >= 2: the stored pair serves every running and later snapshot in all runs, outside the gap between two stores, if and only if no refresher is an OLAP transaction |
| SnapshotTraps.OlapTrap | backend/leanstore/concurrency-recovery/ConcurrencyControl.cpp:28-50 | for every n >= 2: an OLAP refresh leaves a pair with four committed writers and a running reader of the second one in between |
| SnapshotTraps.TornTrap | backend/leanstore/concurrency-recovery/ConcurrencyControl.cpp:48-50 | for every n >= 3: so does an OLTP refresh between its second and its third store |
| SnapshotTraps.CutTrap | backend/leanstore/storage/btree/FatTupleDifferentAttributes.cpp:106-117 | for every n >= 2: a whole OLTP refresh leaves such a pair around a transaction that wrote twice while the reader started |
| SnapshotTraps.ClashTrap | backend/leanstore/storage/btree/FatTupleDifferentAttributes.cpp:137-176 | for every n >= 2: a whole OLTP refresh behind an OLAP reader, with a transaction that wrote three times and one more after the reader |
| SnapshotLimits.AloneForgets | backend/leanstore/concurrency-recovery/ConcurrencyControl.cpp:293-328 | a run of one worker that ends with commits and an empty commit tree |
| SnapshotLimits.RemembersIff | backend/leanstore/concurrency-recovery/ConcurrencyControl.cpp:293-328 | for n >= 1: every commit tree ends with its worker's last commit in all runs if and only if n >= 2 |
| GroupCommit.MinLogs | backend/leanstore/concurrency-recovery/GroupCommiter.cpp:110-124 | the least GSN among exactly the logs with, or without, new records |
| GroupCommit.WatermarkBounds | backend/leanstore/concurrency-recovery/GroupCommiter.cpp:162-214 | every log is covered by what it or its worker has published; never behind the minimum of all logs, nor behind a bound on all workers and active logs |
| GroupCommit.ComputeWatermark | backend/leanstore/concurrency-recovery/GroupCommiter.cpp:74-214 | the loops and the straggler case compute that watermark, or skip the round |
| GroupCommit.Ready | backend/leanstore/concurrency-recovery/GroupCommiter.cpp:225-231 | the longest prefix of the queue below watermark and hardened timestamp |
| GroupCommit.CountReady | backend/leanstore/concurrency-recovery/GroupCommiter.cpp:225-231 | the commit loop stops exactly there |
| GroupCommitProof.ReserveKeeps | backend/leanstore/sync-primitives/PageGuard.hpp:222-227 | a reserved record keeps its log's GSNs increasing, lies above the worker's visible clock and the watermark, and below no record of its page |
| GroupCommitProof.FlushLog | backend/leanstore/concurrency-recovery/GroupCommiter.cpp:191-214 | after the write everything unwritten in a log is above the new watermark, active log or straggler |
| GroupCommitProof.PublishedNeverBehind | backend/leanstore/concurrency-recovery/GroupCommiter.cpp:116-121 | a log's published GSN never falls behind what the committer has seen, and equals it exactly when nothing new is published |
| GroupCommitProof.StepKeeps | backend/leanstore/concurrency-recovery/GroupCommiter.cpp:63-278 | every step of workers and committer keeps unwritten and future records above the watermark |
| GroupCommitProof.WatermarkMonotone | backend/leanstore/concurrency-recovery/GroupCommiter.cpp:200-214 | the watermark never decreases over a run; with `submit()` in one step |
| GroupCommitProof.BelowWatermarkIsWritten | backend/leanstore/concurrency-recovery/GroupCommiter.cpp:200-214 | every record, present or future, with a GSN at most some past watermark is on the device; with `submit()` in one step |
| GroupCommitProof.CommittedIsDurable | backend/leanstore/concurrency-recovery/GroupCommiter.cpp:217-231 | a committed transaction's own records, those of the pages it read, and all up to its max_observed_gsn are on the device; with `submit()` in one step |
| GroupCommitProof.FlushedIsDurable | backend/leanstore/concurrency-recovery/GroupCommiter.cpp:262-262 | the stored global watermark is never ahead of what is written; with `submit()` in one step |
| SubmitSteps.MoveKeeps | backend/leanstore/concurrency-recovery/Logging.hpp:161-175 | with `submit()` in two steps, every move keeps: what a transaction has seen is published when it precommits, copied when it was hardened before the copies, and written when the commit loop reaches it |
| SubmitSteps.CommittedIsDurable | backend/leanstore/concurrency-recovery/GroupCommiter.cpp:63-231 | with `submit()` in one step or in two: a committed transaction's own records and those of the pages it read are on the device |
| SubmitSteps.SeesWhatItReads | backend/leanstore/sync-primitives/PageGuard.hpp:222-227 | over every run, a precommitted transaction has seen every record that was on a page when it read the page or wrote to it, and its own |
| SubmitLimits.OvertakenRecord | backend/leanstore/concurrency-recovery/Logging.hpp:161-166 | for every n >= 2: a reachable state whose watermark is at an unwritten record |
| SubmitLimits.WatermarkIff | backend/leanstore/concurrency-recovery/GroupCommiter.cpp:200-214 | for n >= 1: every record up to the watermark is written in all runs if and only if `submit()` is one step or n is 1 |
| CommitProgress.EverythingCommits | backend/leanstore/concurrency-recovery/GroupCommiter.cpp:63-278 | from every state of every run, with `submit()` in one step or in two, there is a continuation after which every precommitted transaction is committed and the stored watermark is above every GSN assigned so far |
| CommitProgress.ReaderCommits | backend/leanstore/concurrency-recovery/GroupCommiter.cpp:217-231 | and a transaction of any worker can read any page and commit |
| CommitProgress.StartsAboveWritten | backend/leanstore/concurrency-recovery/Worker.cpp:100-106 | a transaction that starts outside the commit loop has a clock at or above every written record of every log |
| DurableCommit.StepKeeps | backend/leanstore/concurrency-recovery/GroupCommiter.cpp:63-278 | every step of n workers, their logs and the committer keeps the k-th record of group commit and the k-th submitted record of the log together: same GSN, published, copied and written at the same time |
| DurableCommit.CommittedOnDevice | backend/leanstore/concurrency-recovery/GroupCommiter.cpp:63-231 | in every run, with `submit()` in one step or in two, the device holds at its LSN the bytes its owner filled, for every record that a committed transaction wrote or found on the pages it read |
| DurableCommit.WatermarkOnDevice | backend/leanstore/concurrency-recovery/GroupCommiter.cpp:200-214 | with `submit()` in one step, the same for every record of every log up to the watermark |
| DurableProgress.RecordCommits | backend/leanstore/concurrency-recovery/GroupCommiter.cpp:63-231 | for every configuration, every number of workers and every record that fits a block: a run of logs and committer that ends with the record's transaction committed and its bytes on the device at its LSN |
| Diff.GenerateDiff | backend/leanstore/storage/btree/BTreeLL.cpp:740-748 | the buffer's front holds the named bytes in order, the rest is untouched |
| Diff.ApplyDiff | backend/leanstore/storage/btree/BTreeLL.cpp:750-758 | writes the diff's bytes to the named positions, a later one over an earlier one |
| Diff.GenerateXorDiff | backend/leanstore/storage/btree/BTreeLL.cpp:760-770 | exclusive-ors the named bytes into the buffer's front |
| Diff.ApplyXorDiff | backend/leanstore/storage/btree/BTreeLL.cpp:772-782 | exclusive-ors the diff into the named positions |
| Diff.DiffRestores | backend/leanstore/storage/btree/BTreeLL.cpp:740-758 | applying the diff of a before-image restores it, for any descriptor |
| Diff.XorReplays | backend/leanstore/storage/btree/BTreeLL.cpp:760-782 | with disjoint slots the logged exclusive or turns before-image into after-image and back |
| Diff.XorMerges | backend/leanstore/storage/btree/BTreeLL.cpp:437-442 | two exclusive-or diffs over the same positions merge into one |
| Versions.ReconstructTuple | backend/leanstore/storage/btree/FatTupleDifferentAttributes.cpp:304-333 | returns the newest version visible to the reader, and nothing if there is none |
| Versions.MergeUndoesAll | backend/leanstore/storage/btree/FatTupleDifferentAttributes.cpp:150-176 | with at most 255 slots that agree on the bytes they share, the merged delta undoes exactly what the deltas of its zone undo one after the other, in whatever order the map is iterated |
| Versions.MergeIff | backend/leanstore/storage/btree/FatTupleDifferentAttributes.cpp:137-176 | merging is right for all values and orders if and only if the zone has at most 255 different slots and those that share a byte agree on it, or none that holds a byte |
| Versions.PartialOverlap | backend/leanstore/storage/btree/FatTupleDifferentAttributes.cpp:137-176 | an older delta on two bytes and a newer one on the first of them: not right for all values and orders |
| FatTupleGc.MergeVersions | backend/leanstore/storage/btree/FatTupleDifferentAttributes.cpp:137-182 | merging a zone removes exactly the versions strictly inside it |
| FatTupleGc.ZoneIsUnread | backend/leanstore/storage/btree/FatTupleDifferentAttributes.cpp:106-117 | if the deltas around zone_end are of different transactions: an OLTP snapshot has the version at the end of the zone, an OLAP snapshot none from its begin on |
| FatTupleGc.ZoneIff | backend/leanstore/storage/btree/FatTupleDifferentAttributes.cpp:88-117 | no served snapshot needs a version that merging removes, if and only if the version at zone_end committed before the oldest OLTP start or all removed ones are by its transaction |
| FatTupleGc.SecondUpdateIsNotSpared | backend/leanstore/storage/btree/FatTupleDifferentAttributes.cpp:106-117 | five deltas, two of them by one transaction, whose zone holds the version that the oldest OLTP snapshot reads |
| FatTupleGc.NewestDeltaStays | backend/leanstore/storage/btree/FatTupleDifferentAttributes.cpp:65-120 | all deltas go only when the head is visible to all; otherwise the newest delta stays |
| FatTupleGc.CollectionIsUnnoticed | backend/leanstore/storage/btree/FatTupleDifferentAttributes.cpp:49-196 | collection, merging included, leaves every read unchanged for every snapshot at most newest-OLAP or at least oldest-OLTP, for a zone that cuts no transaction apart and whose slots agree and are at most 255; when these fail, see ZoneIff, MergeIff and UnnoticedIff |
| GcInRuns.SeenIffCommitted | backend/leanstore/concurrency-recovery/ConcurrencyControl.cpp:191-242 | a running transaction sees a version exactly when its writer committed before the transaction's start |
| GcInRuns.CollectionInRuns | backend/leanstore/storage/btree/FatTupleDifferentAttributes.cpp:49-196 | in every run with OLTP refreshes, a collection that cuts no transaction apart, whose slots do not clash and whose two loads are not both between the two stores of one refresh changes no running transaction's read |
| GcInRuns.TornOfTwo | backend/leanstore/storage/btree/FatTupleDifferentAttributes.cpp:82-83 | with two workers, both loads between the two stores of one refresh change no running transaction's read either |
| GcNoticed.TrapReads | backend/leanstore/storage/btree/FatTupleDifferentAttributes.cpp:106-117 | in the states of OlapTrap, TornTrap and CutTrap a collection by a worker that may update the tuple makes the reader read the version before the one it saw |
| GcNoticed.ClashReads | backend/leanstore/storage/btree/FatTupleDifferentAttributes.cpp:137-176 | in the states of ClashTrap a collection of overlapping slots makes the OLAP reader read a newer byte |
| GcNoticed.UnnoticedIff | backend/leanstore/storage/btree/FatTupleDifferentAttributes.cpp:49-196 | for n >= 2: no running reader notices any collection in all runs if and only if no refresher is an OLAP transaction and, if there are refreshes, the collections looked at cut no transaction apart, have no clashing slots and, unless n is 2, none loads both timestamps between the two stores of one refresh |
| FatTuple.MergeIsSmaller | backend/leanstore/storage/btree/FatTupleDifferentAttributes.cpp:161-166 | a merged delta needs no more space than its zone |
| FatTuple.BinSearch | backend/leanstore/storage/btree/FatTupleDifferentAttributes.cpp:88-104 | finds a delta of the transaction asked for or, where there is none, the first newer one; several deltas of one transaction allowed |
| FatTuple.CountDrops | backend/leanstore/storage/btree/FatTupleDifferentAttributes.cpp:73-80 | finds how many of the oldest deltas nobody can read |
| FatTuple.FindZone | backend/leanstore/storage/btree/FatTupleDifferentAttributes.cpp:106-117 | the zone between two such bounds with the margin of two, or none |
| FatTuple.MergeZone | backend/leanstore/storage/btree/FatTupleDifferentAttributes.cpp:150-176 | one delta with the oldest bytes of every slot of the zone; it takes the space it was given exactly when a byte can count its slots |
| WideZone.ManySlots | backend/leanstore/storage/btree/BTreeVI.hpp:486-486 | a fat tuple of 3000 bytes whose zone has 256 slots: the closing assertion of its collection fails |
| FatTuple.FatTuple.HasSpaceFor | backend/leanstore/storage/btree/FatTupleDifferentAttributes.cpp:198-202 | true exactly when the assertion of allocateDelta would hold |
| FatTuple.FatTuple.AppendDelta | backend/leanstore/storage/btree/FatTupleDifferentAttributes.cpp:204-212 | counters and offsets account for the new delta; value, offset array and deltas still do not overlap |
| FatTuple.FatTuple.Append | backend/leanstore/storage/btree/FatTupleDifferentAttributes.cpp:215-224 | remembers the bytes of the slots under the current writer |
| FatTuple.FatTuple.Update | backend/leanstore/storage/btree/FatTupleDifferentAttributes.cpp:241-261 | appends the before-image, installs writer and value, keeps the layout |
| FatTuple.FatTuple.UndoLastUpdate | backend/leanstore/storage/btree/FatTupleDifferentAttributes.cpp:33-45 | restores value, writer, counts and offsets from the last delta, and keeps the layout wherever the last delta lies lowest, as after appends and collections |
| FatTuple.UpdateThenUndo | backend/leanstore/storage/btree/FatTupleDifferentAttributes.cpp:33-45 | an update and its undo leave every field as it was |
| FatTuple.FatTuple.GarbageCollection | backend/leanstore/storage/btree/FatTupleDifferentAttributes.cpp:49-196 | keeps value, writer, layout and stacking, never needs more space, and leaves exactly the collected deltas; its closing assertion fails exactly when the zone has more than 255 different slots |
| FatTuple.UpdateAddsVersion | backend/leanstore/storage/btree/FatTupleDifferentAttributes.cpp:241-261 | an update adds its value as newest version and keeps every older one |
| Chain.ReconstructChainedTuple | backend/leanstore/storage/btree/BTreeVI.cpp:875-944 | the loop walks the chain, removed versions included, to the first visible version, to its end, or past the permitted length |
| Chain.ChainReads | backend/leanstore/storage/btree/BTreeVI.cpp:875-944 | a linked chain reads what its deltas read, and nothing beyond its oldest version |
| Chain.UpdateHolds | backend/leanstore/storage/btree/BTreeVI.cpp:347-385 | a chained update links one more version and keeps all older ones |
| Chain.ChainReturnsSnapshot | backend/leanstore/storage/btree/BTreeVI.cpp:875-944 | after any run of updates the walk returns the newest value written by a version visible to the reader |
| Chain.ConvertToChained | backend/leanstore/storage/btree/FatTupleDifferentAttributes.cpp:468-496 | every snapshot for which the fat tuple yields a value gets the same value from the chain; other keys of the history tree are untouched |
| RemovedTuples.TakenIff | backend/leanstore/storage/btree/BTreeVI.cpp:913-917 | the bytes taken for a removed value are the value if and only if it repeats the key |
| RemovedTuples.RemovedReads | backend/leanstore/storage/btree/BTreeVI.cpp:505-549 | who sees a removal finds nothing; the others go back from the bytes taken for the value |
| RemovedTuples.RemovedReadsIff | backend/leanstore/storage/btree/BTreeVI.cpp:875-944 | a reader that does not see the removal reads its version if and only if the bytes that no newer delta rewrites are the same in the value and in what is taken for it |
| RemovedTuples.LastValueIff | backend/leanstore/storage/btree/BTreeVI.cpp:913-917 | the reader of the last value gets it if and only if it repeats the key |
| RemovedTuples.RemovalIff | backend/leanstore/storage/btree/BTreeVI.cpp:513-520 | for all tuples, chains and readers alike that is so if and only if the key is empty or the values are |
| ChainInRuns.SeesSnapshot | backend/leanstore/concurrency-recovery/ConcurrencyControl.cpp:191-242 | isVisibleForMe gives the same answers in every state in which the reader's transaction runs: its own versions and those committed before its start |
| ChainInRuns.PurgeIsUnnoticed | backend/leanstore/concurrency-recovery/HistoryTree.cpp:147-298 | in every run, a walk whose every step meets a tree that has lost any versions purged by then returns what a walk over the full tree returns |
| ChainInRuns.ChainInRuns | backend/leanstore/storage/btree/BTreeVI.cpp:875-944 | in every run such a walk returns the newest version that is the reader's own or was committed before its start |
| ChainInRuns.RemovalInRuns | backend/leanstore/storage/btree/BTreeVI.cpp:875-944 | the same for a removed tuple: nothing if the removal is in the snapshot; if not, the version under the condition of RemovedReadsIff |
| LogRecord.RoundTrip | backend/leanstore/storage/btree/BTreeLL.hpp:33-51 | a written record reads back from the front of any log, and its size leads to the next one |
| LogRecord.SlotsRoundTrip | backend/leanstore/KVInterface.hpp:12-29 | the slots of a descriptor read back |
| LogRecord.ParseIsSound | backend/leanstore/storage/btree/BTreeLL.cpp:632-687 | whatever the bytes are, a record that is read has the type, key, value and size that its header says |
| Redo.Redo | backend/leanstore/storage/btree/BTreeLL.cpp:632-687 | the loop over offsets replays record by record and must end exactly with the log |
| Redo.RedoReplays | backend/leanstore/storage/btree/BTreeLL.cpp:632-687 | replaying all records of a serialized log does what they do; replaying fewer is noticed |
| Redo.MisfitIsNoticed | backend/leanstore/storage/btree/BTreeLL.cpp:645-677 | redo notices a log that does not fit the page: a key that is there already, or one that is not there |
| Redo.RedoIff | backend/leanstore/storage/buffer-manager/BufferFrame.hpp:149-149 | with the count kept in a byte, replay gives the leaf exactly as long as the count has not wrapped |
| PageLog.RecordRedoes | backend/leanstore/storage/btree/BTreeLL.cpp:403-428 | replaying the record of an insert, update or remove redoes the operation |
| PageLog.FoldInPlace | backend/leanstore/storage/btree/BTreeLL.cpp:437-442 | folds the new diff into the last record and touches nothing else |
| PageLog.OverridesMeans | backend/leanstore/storage/btree/BTreeLL.cpp:430-433 | a record that passes the comparison is an update of the same key, freeze bit and size |
| PageLog.OneSlotIsNotCompared | backend/leanstore/storage/btree/BTreeLL.cpp:430-433 | with one slot of equal length the comparison passes whatever the offsets |
| Compaction.EqualPositionsFoldRight | backend/leanstore/storage/btree/BTreeLL.cpp:436-443 | if both descriptors name the same bytes in order, the folded record does what the two did |
| Compaction.FoldIff | backend/leanstore/storage/btree/BTreeLL.cpp:430-443 | for records that pass the comparison, folding is right for all contents if and only if they name the same bytes in order |
| Compaction.FoldsTwoFields | backend/leanstore/storage/btree/BTreeLL.cpp:430-443 | updates of two different bytes of one row pass the comparison, and folding them is not right for all contents |
| PageLogRuns.DoLogs | backend/leanstore/storage/buffer-manager/BufferFrame.hpp:246-278 | one operation, appended or folded, keeps the log leading from image to leaf while the page is discardable |
| PageLogRuns.RunReplays | backend/leanstore/storage/btree/BTreeLL.cpp:151-515 | over every run of inserts, updates and removes, redo from the last written image gives the current leaf and consumes the log exactly, and the record count never wraps |
| PageLogRuns.RunFits | backend/leanstore/storage/buffer-manager/BufferFrame.hpp:166-166 | the log never outgrows its buffer |
| PageLogRuns.RunDiscardableIff | backend/leanstore/storage/buffer-manager/BufferFrame.hpp:247-268 | over every run, whatever is folded, a page is discardable exactly as long as every record so far has fit behind the log, and once it is not, its log and count stay as they are |
| PageLogRuns.TwoFieldsReplayWrong | backend/leanstore/storage/btree/BTreeLL.cpp:430-443 | a page with a row of zeros, whose two updates of different bytes are folded: redo gives the row of zeros |
| PageFolds.PageFoldIff | backend/leanstore/storage/btree/BTreeLL.cpp:430-443 | on any page, redo gives the leaf whatever an update's callback leaves if and only if the update is not folded or names the same bytes in order as the last record |
| Latch.StepKeeps | backend/leanstore/sync-primitives/Latch.hpp:65-222 | every atomic action of any guard keeps owner, sharers and versions in agreement |
| Latch.OddIffExclusive | backend/leanstore/sync-primitives/Latch.hpp:93-104 | the version is odd exactly while a guard is exclusive |
| Latch.ExclusiveExcludes | backend/leanstore/sync-primitives/Latch.hpp:155-192 | while a guard is exclusive no other guard is exclusive, shared or on the way there |
| Latch.SameVersionSameContent | backend/leanstore/sync-primitives/Latch.hpp:84-91 | an even version that is found again means that the content never changed in between |
| Latch.OptimisticReadIsStable | backend/leanstore/sync-primitives/Latch.hpp:84-91 | from the load of a version, through moves, shared locks, unlocks and upgrades that failed: a recheck passes exactly when the version is the loaded one, and then the content was the same all the time |
| Latch.UpgradeKeepsContent | backend/leanstore/sync-primitives/Latch.hpp:155-222 | from the load of a version to the end of an upgrade: it succeeds exactly when the version is still the loaded one, and then the content is what it was at the load; if not, the guard keeps its version |
| Latch.ContentIsLastWrite | backend/leanstore/sync-primitives/Latch.hpp:65-222 | the content is what the last exclusive guard wrote |
| Latch.CanWrite | backend/leanstore/sync-primitives/Latch.hpp:155-180 | from every state of every run a guard that holds nothing yet can get in and write |
| Latch.CanUpgrade | backend/leanstore/sync-primitives/Latch.hpp:155-180 | and it can load a version first and upgrade then |
| Latch.CanShare | backend/leanstore/sync-primitives/Latch.hpp:181-222 | two guards can share the latch, one of them after loading a version |
| SpinStruct.NeverTorn | backend/leanstore/utils/OptimisticSpinStruct.hpp:23-45 | getSync returns the argument of the last pushSync that had returned when it checked, or the initial value |
| SpinStruct.ReturnsIff | backend/leanstore/utils/OptimisticSpinStruct.hpp:23-37 | a check passes exactly when no pushSync began or returned since the load; otherwise getSync starts again |
| SpinStruct.PushIsRead | backend/leanstore/utils/OptimisticSpinStruct.hpp:23-45 | from every state of every run, whatever is pushed next can be read by any reader after that |
| Crc.LookupIsAddByte | shared-headers/CRC.hpp:718-738 | one table lookup computes what eight turns of the bit loop compute |
| Crc.CalculateRemainder | shared-headers/CRC.hpp:601-639 | the byte and bit loops compute the remainder of RemainderIff |
| Crc.InitTable | shared-headers/CRC.hpp:390-422 | the table holds the remainder of every byte |
| Crc.CalculateRemainderByTable | shared-headers/CRC.hpp:718-738 | the table-driven loop computes the bit-by-bit remainder, for every data and every running remainder |
| Crc.ReflectBits | shared-headers/CRC.hpp:519-530 | the loop reverses the bits |
| Crc.UndoFinalizeRestores | shared-headers/CRC.hpp:542-588 | UndoFinalize and Finalize undo each other, with and without reflection |
| CrcDivision.RemainderIff | shared-headers/CRC.hpp:601-639 | for every data, polynomial and initial value, the remainder is the one for which some quotient times x^width plus the polynomial, plus it, is the data times x^width plus the initial value times x^(8 bytes) |
| CrcDivision.CalculateIff | shared-headers/CRC.hpp:432-463 | a CRC is right exactly when it holds that remainder for the polynomial as given, in the order of the output and with the final exclusive or |
| Crc.CrcInParts | shared-headers/CRC.hpp:454-463 | the CRC of a second part, given that of the first, is the CRC of the concatenation |
| Crc.CalculateByTable | shared-headers/CRC.hpp:475-484 | the table form gives the bit-by-bit CRC, that of CalculateIff |
| Crc.CalculateMoreByTable | shared-headers/CRC.hpp:498-509 | so does its multi-part form |
| Slab.BlocksApart | backend/leanstore/storage/buffer-manager/CustomSlabAllocator.hpp:32-43 | different blocks never overlap, in one chunk or in two |
| Slab.Push | backend/leanstore/storage/buffer-manager/CustomSlabAllocator.hpp:64-69 | a freed block becomes the front of an intact list, whatever its owner left in it |
| Slab.ListIsUnique | backend/leanstore/storage/buffer-manager/CustomSlabAllocator.hpp:51-59 | the links determine the free list |
| Slab.FreeList.AllocateNewChunk | backend/leanstore/storage/buffer-manager/CustomSlabAllocator.hpp:32-49 | links 1024 new blocks in front of the list; free plus live stays 1024 times the chunks |
| Slab.FreeList.TryPop | backend/leanstore/storage/buffer-manager/CustomSlabAllocator.hpp:51-59 | hands out a block that nobody owns, or null exactly when none is free |
| Slab.FreeList.Free | backend/leanstore/storage/buffer-manager/CustomSlabAllocator.hpp:64-69 | an owned block becomes free, every other one keeps its state |
| Slab.FreeList.Allocate | backend/leanstore/storage/buffer-manager/CustomSlabAllocator.hpp:71-82 | always hands out a block that nobody owns and that overlaps no owned block |
| Slab.FreeList.OwnerWrite | backend/leanstore/storage/buffer-manager/CustomSlabAllocator.hpp:41-41 | an owner may write any word of its block without harming the list |

## Left out

- Sink logs, `Logging::reset`, reclaiming of log segments, trimming and crash recovery from the device.
- Transaction meta entries (`submitWALMetaEntry` bypasses the hole queue) and abort iteration over the log.
- Requests for which record and carriage return exceed one block: `WalLogging.Logging.WalEnsureEnoughSpace` and the machine take requested size plus CR_ENTRY_SIZE at most 4096, as the one-block promise needs.
- io_uring, pwrite, trim, flags, statistics, JSON state and the benchmark drivers.
- Read-committed and read-uncommitted transactions, and switching between isolation levels: they tag the shared snapshot cache with a later clock. Commit timestamps in `isVisibleForMe` are one comparison and add nothing.
- The separate watermark for OLTP transactions, the graveyard, and the store of `local_latest_write_tx` as a step of its own; that field only decides which workers a refresh skips.
- PPL entries in the GSN order: they take the log's clock plus one without looking at the worker's clock, so the watermark claim is for data records only. Logs shared between workers are left out with them.
- FatTuple.FatTuple.GarbageCollection: what an optimized build goes on with after the closing assertion would have failed; the bytes of a merged diff that later slots were written over are arbitrary.
- The conversion of a chain into a fat tuple, which may collect while its deltas are still newest first; and the bytes of fat tuples: deltas are values at proved offsets.
- Chain.ReconstructChainedTuple: update versions that are no deltas; nothing in the repository writes one. Inserting over a removed tuple, which the source does not implement, and taking removed tuples out of the tree.
- In-place changes of the page log's buffer other than the folding loop: appending to it is modelled on values.
- B-tree nodes: a leaf is a map from key to bytes and frozen bit, and a key that redo inserts twice is an error.
- The slab allocator's mutex and its array of free lists: each list is proved on its own, with malloc's chunk as a parameter.
- Latch guards constructed from a version that the caller supplies, and wrap-around of 64-bit counters.
- Non-reflected CRC input and widths below eight bits.
