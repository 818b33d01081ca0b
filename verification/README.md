# A verified model of Cue's durable log and partition scheduler

Cue is a job queue whose nodes agree on a command log through Raft. This project models, in Dafny, the two
parts of it where correctness depends on several structures staying in step, and proves what they promise over
whole runs.

**The durable log** (`internal/cluster`). Committed entries go through a write buffer into a segmented log:
sealed files named `lo-hi.wal` and one `.active` file. Rotation is a sequence of create and rename steps,
truncation deletes whole files, and reopening rebuilds everything from file names. Beside the log, storage keeps
an index from job to the indices of its last add and last completion. The index decides how far the log may be
compacted, and which adds a restart may skip.

**The partition scheduler** (`internal/state`). A slab of jobs with a free list, a queue kept compact by
swap-removal, a dead-letter buffer and a round-robin table of proxies refer to each other by raw slot and cell
numbers.

The reference point of the first half is `History`: a job is *pending* when the last committed record that
names it adds it. The reference point of the second half is the *used slot*: a slot whose job has an id. Where the
halves meet, `UndoneIsPending` says for which jobs the two views differ.

Three words grade a segmented log. It is *writable* if its active file is there. It is *intact* if its files hold
what it remembers, so that reading them in the order of their names gives its records. It is *valid* if moreover its
names leave no gap and no sealed file holds an index above its name; records may repeat or be out of order, as after
a flush that failed and was tried again.

## How the model is built

Objects that the program updates in place are classes here, and each of their methods is proved against a
function on values. What the program promises is then proved about those functions, for every input or every
run.

- `History`, `JobIndex`, `Compaction`: committed history, job index, first index to keep.
- `Segments`, `WalSteps`, `WalRuns`: directories and layouts, the effect of every file-system step, whole runs
  with crashes. `WalFiles`, `WalReader`, `WalOpen` are the objects: log, reader, opening a directory.
- `Durability`, `NodeRuns`, `VisibleRuns`: compaction on disk, and a whole node with log files, buffer, index,
  compaction and crashes together. `Redelivery`: the same with every entry above the snapshot delivered again after
  a restart. `LostJobs`: short runs that end where a promise fails.
- `FlushProtocol`: the flush as a state machine over its critical sections, writing to the segmented log. `Coverage`:
  what the files keep whatever is sealed over. `AnyOrder`: recovery from records in any order and number of copies.
  `ReplacedFile`: a run in which that order matters.
- `InMemoryLog`, `Storage`: the rest of the storage core. `Replay`: the filter for dead jobs. `Framing`: the bytes
  of a segment file.
- `Slab`, `ReadyQueue`, `BatchSelection`, `Queue`, `ProxyMap` (module `Proxies`), `Partition` (module
  `Dispatching`): the scheduler's structures and its operations. `Scheduler` is the partition as a value;
  `PartitionRuns`, `References`, `RetryBound`, `Delivery` hold the theorems over its runs, `MissedRemoval` and
  `DeadLetters` runs that break some of them. `Restart` replays a log into the partition; `RestartedNode` joins the
  two halves.

A run is a sequence of states. Each state is the successor of the one before whenever that one is well formed;
well-formedness is never assumed of a run but proved of it.

The clock, the outcome of sending on a channel, whether a message could be marshalled, leadership and the room
in a proxy's channel are parameters. The entry codec is a parameter of `Framing`.

## Where the code falls short of its intent

For each of these the model does what the code does. A lemma gives the exact condition under which the promise
holds, and another one gives a case in which it fails.

- Compaction hands the first index to *keep* to a truncation that deletes files ending *at* its argument, so the
  oldest pending add can be deleted from disk: `RestartAfterCompactionIff`, `PendingJobLostOnDisk`. The comment
  above `compact` promises that pending jobs are respected; the code decides here.
- Adding a completed job again keeps its old completion index, and compaction then forgets the job:
  `CompactionTracksIff`, `StaleCompletionLosesJob`, `CompactionForgetsReAddedJob`. Recovery keeps the completion
  type too: `RecoveryTracksIff`, `RecoveryMistakesReAddedJob`; that mistake lasts until the entries have been
  delivered again, `RedeliveredRunsKeepEverything`. A compaction that does not wait for that can move the cut back:
  `HastyCompactionMovesCutBack`.
- Bounds are recomputed before the new snapshot index is stored: `BoundsFreshIff`, `BoundsAreStaleAfterEmptying`.
- A truncation that empties the log names the new file after its argument. Later entries at or below it are
  recovered, but a reader cannot be opened at them: `ReadableAfterEmptyingIff`, `UnreadableEntry`. If such a file
  fills up before its records reach the index in its name, sealing it leaves names that can be sorted into an
  order the program refuses to open: `RotationReopensIff`, `MisnamedFileCannotBeReopened`. Stopping earlier in that
  rotation is harmless at first, but reopening completes it: `RotationStepsReopen`. If two such files fill up, they
  are sealed under one name, and the second replaces the first: `RotationKeepsFilesIff`, `AppendAllKeepsFilesIff`,
  `RotationOverwritesSealedFile`; what is lost lies below the truncation index, `OverwrittenLieBelow`. With entries in
  order it takes a truncation past the written entries to get there: `RunsRefine`, `VisibleRunsAreDurable`.
- A flush that fails after a rotation and is tried again writes its first entries into a file named past them:
  `RetryIsMisnamedIff`. So a retry alone, without any truncation, can seal one file over another, and it can leave
  names that open in one sorted order and not in another: `RetriesReopenIff`. No entry is ever lost that way, since a
  replaced file has a name that covers nothing: `NothingIsLost`. But recovery can meet the copies out of order and
  take a pending job for a completed one: `AnyOrderRecoversIff`, `RetryMistakesReAddedJob`.
- Truncation judges the active file by its last record alone, which after such a retry need not be the highest:
  `TruncationKeepsAboveIff`.
- A file cut right after a frame header reads as a clean end, while the header-only scan reports the index of the
  entry that is missing: `CutFileReadsWholeFrames`, `CutFileScan`.
- A conflicting batch shorter than the tail it replaces leaves the last index too high: `DenseAfterIff`,
  `ShortBatchLeavesLastTooHigh`.
- Swap-removal takes cells from the back of the list, which misses cells when the list is not ascending; a batch
  with two due times need not be: `AllHitIff`, `DispatchKeepsRefsIff`, `RunMissesARemoval`.
- Dropping a job that is still referred to leaves a dangling reference: `DropKeepsRefsIff`. A dead-letter flush
  that meets one panics: `FlushPanicsIff`, `DropThenFlushPanics`.
- A drop proposal that finds its channel full is thrown away and its jobs are never sent or proposed again:
  `RunFlushKeepsReachableIff`, `FullChannelStrandsJob`, `StrandedForGood`.
- An empty job id is the mark of a free slot: `CreateKeepsStoreIff`. Adding one to a full queue panics: `AddJob`.
- The comment on the retry delay speaks of milliseconds; the code computes and uses seconds, and so does the model.
- After a filtered replay a finished job's id can be added again, after a full replay it cannot:
  `SameFutureIff`, `FinishedJobMayReturnAfterRestart`. A job added again after it was done is pending, but a replay
  holds it as undone only if its completion has been cut off: `UndoneIsPending`, `ReAddedJobDependsOnCut`.

## Model

| member | source | states |
|---|---|---|
| `History.CutKeepsPendingIff` | internal/cluster/raft_storage.go:411-470 | replaying only the records from a cut on gives the pending jobs of the whole history exactly when the cut is at or below the last add of every pending job |
| `History.LastEventFrom` | internal/cluster/raft_storage.go:197-266 | dropping the records below a cut forgets exactly the last events below it |
| `History.LastEventByIndex` | internal/cluster/raft_storage.go:637-650 | in an increasing history the last event of a job is the later of its last add and its last completion |
| `JobIndex.IndexRecordsLastEvents` | internal/cluster/raft_storage.go:205-248 | both builders of the index record the last add and the last completion; the completion type is what the live path and recovery disagree on, and exactly how |
| `JobIndex.BuildersAgree` | internal/cluster/raft_storage.go:311-347 | the completed jobs by either builder are those that were added and whose last event is a completion, re-adds and early completions included |
| `JobIndex.RecoveredState` | internal/cluster/raft_storage.go:205-248 | recovery over any records keeps of the earlier state exactly what the records say nothing about |
| `JobIndex.RetryIsIdempotent` | internal/cluster/raft_storage.go:383-389 | a batch written again after a prefix of it reached the file is indexed as if written once |
| `JobIndex.RetryStoresTheSame` | internal/cluster/raft_storage.go:205-207 | the same for the recovered in-memory log |
| `Segments.SortedArrangementIsUnique` | internal/cluster/raft_segment.go:121-123 | sorting by start index has one possible outcome for strictly sorted names |
| `Segments.InsertSorts` | internal/cluster/raft_segment.go:121-123 | inserting a parsed name keeps the list sorted and adds exactly that name |
| `WalSteps.RotationIsCrashSafe` | internal/cluster/raft_segment.go:346-460 | if the sealed name has a range that is not empty, stopping after any create or rename of a rotation leaves names without a gap that recover to exactly the records held before |
| `WalOpen.RotationStepsReopen` | internal/cluster/raft_segment.go:346-460 | whatever the sealed name is, stopping before the new active file has its name leaves a directory that opens, in every order sorting can leave, with exactly the records held before; opening it after the seal rename leads to the log that the whole rotation leads to |
| `WalOpen.RotationReopensIff` | internal/cluster/raft_segment.go:121-125 | after a whole rotation, any order of the names that opens gives exactly the records held before; every order in which sorting by start can leave them opens exactly when the sealed name has a range that is not empty, and some order does exactly when the next index is not below the start of the sealed file |
| `WalOpen.MisnamedFileCannotBeReopened` | internal/cluster/raft_segment.go:183-200 | a truncation of an empty log, three entries, a restart and the next rotation: no order of the names passes |
| `WalOpen.UnsealableIsOnly` | internal/cluster/raft_segment.go:669-685 | in a truthfully named log, a file whose records lie below the index in its name is the only file |
| `WalOpen.RotationOverwritesSealedFile` | internal/cluster/raft_segment.go:346-460 | a truncation of an empty log and three entries into segments of one entry each: the second seal replaces the file that holds the first entry |
| `WalSteps.RotationKeepsFilesIff` | internal/cluster/raft_segment.go:346-460 | if the files held what the log remembers, they do after a rotation exactly when the sealed name is not that of a remembered file with other contents |
| `WalSteps.ValidNeverSealsOver` | internal/cluster/raft_segment.go:346-460 | in a well-formed log that is never so |
| `WalSteps.OverwrittenLieBelow` | internal/cluster/raft_segment.go:346-460 | in a log in order, the records of a replaced file lie below the last one sealed and below the index that the name ends with |
| `WalSteps.RotationIsSoundIff` | internal/cluster/raft_segment.go:346-460 | a well-formed log stays so in a rotation exactly when the name has a range that is not empty and no record lies above it |
| `WalSteps.AppendKeepsFilesIff` | internal/cluster/raft_segment.go:318-344 | whatever is appended, in order or not: files that held what the log remembers hold that and the entry, exactly unless a full file is sealed over a remembered one |
| `WalSteps.AppendKeepsLayoutIff` | internal/cluster/raft_segment.go:318-344 | a well-formed log stays well formed exactly when the index is positive and a full file can be sealed; order does not matter |
| `WalSteps.Below` | internal/cluster/raft_segment.go:641-663 | the number of leading sealed files that end at or below the truncation index |
| `WalSteps.RemovalIsCrashSafe` | internal/cluster/raft_segment.go:641-663 | every directory a truncation passes through while it removes sealed files recovers to a suffix with everything above the index |
| `WalSteps.TruncationKeepsAboveIff` | internal/cluster/raft_segment.go:636-692 | truncation leaves a well-formed log that is a suffix; it keeps every record above the index exactly when an active file whose last record lies at or below it holds none above |
| `WalSteps.TruncationSurvivors` | internal/cluster/raft_segment.go:636-692 | a record survives exactly when it lies in a sealed file whose name ends past the index, or in an active file whose start or last record lies past it |
| `WalSteps.EmptyingSummary` | internal/cluster/raft_segment.go:669-685 | replacing the active file happens only when all sealed files are gone, passes through an empty directory and ends with one fresh file |
| `WalSteps.AppendAfterEmptyingIff` | internal/cluster/raft_segment.go:669-685 | after emptying at `u` any entry is taken; the file name covers it exactly when it lies above `u` |
| `WalSteps.ReopenKeepsLog` | internal/cluster/raft_segment.go:62-181 | whatever the files hold, reopening a directory whose names describe a layout gives exactly its records; the log is well formed exactly when no sealed file holds an index above its name |
| `WalSteps.ReopenedNext` | internal/cluster/raft_segment.go:143-174 | with an active file the next index is one past its last record, 1 if it holds none, and the same whatever the file is named; without one it is the start of the file created right after the last sealed name |
| `WalRuns.StepRefines` | internal/cluster/raft_segment.go:318-692 | every append of a positive index, in order or not, truncation, restart and crash at any file-system step keeps the log a suffix of what was appended that reaches down to the highest truncation index, provided a full file can be sealed when it has to be and an emptied one holds nothing above the index |
| `WalRuns.GuardedRunsRefine` | internal/cluster/raft_segment.go:318-692 | the same over every run that meets these provisos at each step |
| `WalRuns.OrderedIsGuarded` | internal/cluster/raft_segment.go:318-692 | the provisos hold at every step whose entries exceed everything appended and whose truncations stay within the appended indices, by one past them if entries are smaller than a segment |
| `WalRuns.RunsRefine` | internal/cluster/raft_segment.go:318-692 | over every run of appends in order, truncations up to the end, restarts and crashes at any file-system step, with no condition on file contents, the segmented log refines one plain sequence and every sealed file ends at the index in its name |
| `WalRuns.RestartRecoversEverythingAbove` | internal/cluster/raft_segment.go:466-498 | after any such run, recovery above a snapshot at or past every truncation yields exactly what was ever appended above it |
| `WalFiles.AppendAllKeepsFilesIff` | internal/cluster/raft_segment.go:318-344 | for any batch, however often it crosses segment boundaries: files that held what the log remembers hold that and the batch, exactly unless some full file is sealed over a remembered one |
| `WalFiles.AppendAllKeepsLayoutIff` | internal/cluster/raft_segment.go:318-344 | for any batch: a well-formed log stays so exactly when the indices are positive and every full file the batch meets can be sealed |
| `WalFiles.FilesInOrder` | internal/cluster/raft_segment.go:466-498 | reading the files of an intact log in the order of their names gives its records |
| `WalFiles.TruthfulNameSealsWell` | internal/cluster/raft_segment.go:322-328 | a batch in order from the next index on never meets a file it cannot seal if the file name has been passed or the first entry reaches it |
| `WalFiles.SegmentedWal.ScanLastIndex` | internal/cluster/raft_segment.go:290-313 | the scan returns the index of the last record, 0 for an empty file |
| `WalFiles.SegmentedWal.RotateFiles` | internal/cluster/raft_segment.go:346-438 | the directories after each step, in the order in which the steps happen |
| `WalFiles.SegmentedWal.Rotate` | internal/cluster/raft_segment.go:346-460 | the file-system steps in order for any active file; what the files hold is unchanged exactly unless a remembered file is replaced; if the sealed name has a range, every directory on the way recovers to the records held before |
| `WalFiles.SegmentedWal.AppendOne` | internal/cluster/raft_segment.go:322-340 | one entry, after a rotation if the file is full: what the files hold grows by it exactly unless a remembered file is replaced; the exact condition for staying well formed, and then stopping anywhere leaves the old records with or without it |
| `WalFiles.SegmentedWal.AppendBatch` | internal/cluster/raft_segment.go:318-344 | any batch: what the files hold grows by it exactly unless a remembered file is replaced; the exact condition for staying well formed, and then stopping anywhere leaves the old records and a prefix of the batch |
| `WalFiles.SegmentedWal.RemoveSealed` | internal/cluster/raft_segment.go:640-664 | removes exactly the sealed files that end at or below the index; stopping anywhere keeps everything above it |
| `WalFiles.SegmentedWal.Truncate` | internal/cluster/raft_segment.go:636-692 | the records that remain are exactly those in sealed files named past the index and in an active file whose start or last record lies past it; unless the active file is emptied with records above the index, stopping anywhere keeps everything above it |
| `WalFiles.SegmentedWal.Recover` | internal/cluster/raft_segment.go:466-498 | returns exactly the records above the snapshot index, in the order in which they were written, across all files, repeated ones included |
| `WalReader.Reader.ReadEntry` | internal/cluster/raft_segment.go:589-620 | delivers the next record across file boundaries; reports the end only when nothing remains |
| `WalReader.FindSegment` | internal/cluster/raft_segment.go:512-543 | finds the one segment whose name covers the index, and reports none exactly when there is none |
| `WalReader.SkipTo` | internal/cluster/raft_segment.go:553-584 | skips to the first record at or above the index |
| `WalReader.NewReader` | internal/cluster/raft_segment.go:512-587 | succeeds exactly when the segment that covers the index holds a record at or above it, and then delivers the rest of the log from such a record on; in a log in order, exactly the records from the index on |
| `WalReader.ReadableIff` | internal/cluster/raft_segment.go:512-587 | in a truthfully named log that is exactly when the log starts at or below the index and holds a record at or above it |
| `WalReader.ReaderPlacement` | internal/cluster/raft_segment.go:512-587 | a reader placed at the first record at or above an index in its segment has the rest of the log ahead, and in a log in order exactly the records from the index on |
| `WalReader.ReadableAfterEmptyingIff` | internal/cluster/raft_segment.go:669-685 | an entry appended after an emptying truncation is in the log, and a reader can be opened at its index exactly when it lies above the truncation index |
| `WalReader.UnreadableEntry` | internal/cluster/raft_segment.go:669-685 | one entry, a truncation one past it and the next entry: it is in the log, and no reader can be opened at its index |
| `WalOpen.LayoutIsUnique` | internal/cluster/raft_segment.go:62-181 | the file names of a directory admit at most one layout, so what a restart finds is determined |
| `WalOpen.RemoveTemps` | internal/cluster/raft_segment.go:85-97 | removes exactly the temporaries; every directory on the way recovers to the same records |
| `WalOpen.SortedSegments` | internal/cluster/raft_segment.go:99-123 | exactly the parsed names, without duplicates, sorted by start |
| `WalOpen.ValidateContinuity` | internal/cluster/raft_segment.go:183-200 | accepts exactly the lists in which each segment starts right after the one before |
| `WalOpen.Separate` | internal/cluster/raft_segment.go:129-141 | any list of names is split into its sealed spans and its active file; fails exactly on a second active file |
| `WalOpen.NamesDescribe` | internal/cluster/raft_segment.go:99-141 | if a directory holds a layout, every sorted order of its names describes exactly that layout and passes both checks |
| `WalOpen.Attach` | internal/cluster/raft_segment.go:143-174 | takes up the active file, counting on from its last record whatever its name is, or creates one right after the last sealed name, for any layout; the result can be written to |
| `WalOpen.Open` | internal/cluster/raft_segment.go:62-181 | for every directory: succeeds exactly when the sorted names are continuous with at most one active file, and takes up the layout they describe; a directory whose names describe a layout, interrupted rotations included, always opens with exactly its records, and every directory on the way recovers to the same; well formed exactly when no sealed file holds an index above its name; the next index follows the last record of the active file, 1 if it is empty |
| `Compaction.CutIsSafe` | internal/cluster/raft_storage.go:472-511 | the cut never lies past the add of a pending job, never moves back and never passes the end by more than one |
| `Compaction.CutIsDecided` | internal/cluster/raft_storage.go:472-511 | with open jobs the cut is the earliest open add; without, every recorded completion lies below the cut and one right below it; with neither it is the first index |
| `Compaction.IdleCutPassesCompletions` | internal/cluster/raft_storage.go:498-508 | in every guarded run, in a state without pending jobs, the cut passes every recorded completion and lies right after the last one |
| `Compaction.CompactionTracksIff` | internal/cluster/raft_storage.go:411-470 | a compaction keeps track of every pending job exactly when no open job carries a completion index below the cut |
| `Compaction.CommitKeepsTrack` | internal/cluster/raft_storage.go:300-347 | committing any entry in order above the cut keeps the index true of the history |
| `Compaction.RecoveryTracksIff` | internal/cluster/raft_storage.go:197-266 | for any increasing history and any snapshot index, the rebuilt index tracks the pending jobs exactly when the cut lies below every pending add and no pending job was completed above it and added again |
| `Compaction.TracksFrom` | internal/cluster/raft_storage.go:197-266 | an index that is true of a history is true of what lies above the cut |
| `Compaction.RunsKeepTrack` | internal/cluster/raft_storage.go:300-470 | over every run of commits, replications, compactions and restarts in which no compaction that moves the cut meets a stale completion and no restart a job re-added above the cut, the index tracks every pending job |
| `Compaction.CompactionPreservesMeaning` | internal/cluster/raft_storage.go:411-470 | after any number of compactions, replaying what lies above the cut gives the pending jobs of the whole history |
| `Compaction.StepKeepsRecorded` | internal/cluster/raft_storage.go:411-511 | every step, guarded or not, keeps all recorded indices between the cut and the end of the history |
| `Compaction.CutNeverMovesBack` | internal/cluster/raft_storage.go:411-511 | over every run, guarded or not, the cut is monotone |
| `Compaction.NeverReAddedRunsAreGuarded` | internal/cluster/raft_storage.go:319-324 | a run whose history never adds a completed job again meets the guard at every step |
| `Compaction.StaleCompletionLosesJob` | internal/cluster/raft_storage.go:432-437 | whenever the guard fails, one further record that does not name the job and one further compaction put the cut past its add |
| `LostJobs.CompactionForgetsReAddedJob` | internal/cluster/raft_storage.go:432-437 | the run add, complete, add again, compact: the job is pending and the index has forgotten it |
| `LostJobs.RecoveryMistakesReAddedJob` | internal/cluster/raft_storage.go:215-221 | the same history recovered: the job is pending and the rebuilt index calls it completed |
| `Compaction.BoundsFreshIff` | internal/cluster/raft_storage.go:411-446 | after a compaction the first index lies above the snapshot exactly when an entry is left or the cut had not moved |
| `LostJobs.BoundsAreStaleAfterEmptying` | internal/cluster/raft_storage.go:426-446 | the run add, complete, compact: the first index is 1 and the snapshot 2 |
| `Durability.TruncatedFrom` | internal/cluster/raft_storage.go:456-460 | in a log in order, truncation at the cut keeps the records from the cut on, or loses exactly the one at the cut |
| `Durability.RecoveredAfterTruncation` | internal/cluster/raft_storage.go:456-460 | what files and buffer together hold from the cut on after a truncation, whatever part of the history has been flushed |
| `Durability.RestartAfterCompactionIff` | internal/cluster/raft_storage.go:411-470 | a restart after compaction recovers the pending jobs exactly when there is none or the record at the cut survives truncation |
| `LostJobs.PendingJobLostOnDisk` | internal/cluster/raft_storage.go:458-458 | a run of seven moves that flushes a finished and a pending job into one file: the next compaction cuts at the pending add, and nothing of the job is left in files, buffer or coming deliveries |
| `NodeRuns.StepIsDurable` | internal/cluster/raft_storage.go:197-511 | every allowed move of a node, crashes inside a flush, a rotation and a compaction included, keeps every decided record from the cut on in files, buffer or coming deliveries, once and in order, the cut below every pending add of the whole history, and the index true |
| `NodeRuns.CrashIsDurableIff` | internal/cluster/raft_storage.go:197-266 | a crash at rest, after any part of a flush, at any step of a rotation or of the truncation in a compaction leaves a durable node exactly when no job that is pending in the files above the snapshot was completed there and added again |
| `NodeRuns.RestartedIsComplete` | internal/cluster/raft_storage.go:197-266 | whatever was only buffered and whatever files at or below the snapshot are gone, once the lost entries above the snapshot have been delivered again every decided record above it is there, once and in order |
| `NodeRuns.NextCutIsOk` | internal/cluster/raft_storage.go:472-511 | the next cut lies above the last one, at or below every entry still to be delivered, and at or below the add of every job that is pending in the whole decided history, also when completions have not been delivered again yet |
| `NodeRuns.NodeRunsAreDurable` | internal/cluster/raft_storage.go:197-511 | the same over every run of allowed decisions, deliveries, replications, flushes, compactions and crashes |
| `NodeRuns.PendingJobsSurviveEveryRun` | internal/cluster/raft_storage.go:197-511 | after any such run, files, buffer and coming deliveries above the snapshot give exactly the pending jobs of the whole decided history |
| `WalRuns.NearSealsWell` | internal/cluster/raft_segment.go:322-328 | a batch in order and beyond everything written never meets a file that cannot be sealed if the file is not named past the next entry, or by one with small entries |
| `VisibleRuns.VisibleRunsAreDurable` | internal/cluster/raft_storage.go:197-511 | the same result with no condition on file contents for flushes and crashes, over every run in which compaction cuts no further than what has been written, by one past it if entries are smaller than a segment |
| `Redelivery.StepIsSteady` | internal/cluster/raft_storage.go:197-511 | with every entry above the snapshot delivered and written again after a crash: each allowed move keeps in the files every decided entry above the cut up to the highest ever written, and nothing else; what is delivered beyond is buffered |
| `Redelivery.RedoneState` | internal/cluster/raft_storage.go:311-347 | once everything in the files has been delivered again, the index says exactly what those entries say, whatever recovery had made of them, re-adds included |
| `Redelivery.AgainIsSteady` | internal/cluster/raft_storage.go:197-266 | a crash leaves such a node with no condition on re-adds: whatever recovery gets wrong will be delivered again |
| `Redelivery.RedeliveredRunsKeepEverything` | internal/cluster/raft_storage.go:197-511 | over every run in which compaction waits for redelivery: files, buffer and coming deliveries hold every decided entry above the snapshot, these give exactly the pending jobs of the whole history, and once redelivery has caught up the index tracks them |
| `Redelivery.HastyCompactionMovesCutBack` | internal/cluster/raft_storage.go:411-470 | a recovered job done at 3: a compaction before redelivery cuts at 3, and one between the two deliveries moves the cut back to 1 |
| `FlushProtocol.StepKeepsInv` | internal/cluster/raft_storage.go:300-406 | every commit, snapshot, write, failed write and trim keeps what was written and the unwritten buffer equivalent to the committed sequence |
| `FlushProtocol.EachRecordWrittenOnce` | internal/cluster/raft_storage.go:362-406 | in every interleaving without failed writes the log is well formed, its directory recovers to what was written, and that followed by the unwritten buffer is the committed sequence; the trim never finds the buffer too short |
| `Coverage.AppendStaysOrderly` | internal/cluster/raft_segment.go:318-460 | writing a record that is new or was written before, whatever is sealed over: every record ever written stays in a file whose name covers it, the files hold no others, and the names still have an order that opens |
| `Coverage.CoveredIsReadInAnyOrder` | internal/cluster/raft_segment.go:99-141 | every order in which sorting can leave the names of such a log reads exactly the records that were ever written |
| `Coverage.ChainOpensIff` | internal/cluster/raft_segment.go:183-200 | every order of these names passes the continuity check exactly when no sealed name has an empty range |
| `AnyOrder.SameRecordsStoreTheSame` | internal/cluster/raft_storage.go:205-207 | the records of a history in any order and number of copies are recovered to the same entries |
| `AnyOrder.AnyOrderRecoversIff` | internal/cluster/raft_storage.go:637-650 | they are recovered to exactly the completed jobs, in every order and number of copies, exactly when no job is both completed after an add and added after a completion |
| `AnyOrder.NeverReAddedIsOrderFree` | internal/cluster/raft_storage.go:637-650 | so it is in every history that never adds a completed job again |
| `FlushProtocol.NothingIsLost` | internal/cluster/raft_storage.go:362-406 | in every run, whatever writes failed and were retried and whatever files were replaced: in every order in which sorting can leave the file names, files and unwritten buffer hold exactly the committed records and recover to exactly the committed entries; to exactly the completed jobs if no job is both completed after an add and added after a completion |
| `FlushProtocol.RetriesReopenIff` | internal/cluster/raft_segment.go:183-200 | in every run some order of the names opens, and every order does exactly when no file was sealed under a name with an empty range |
| `ReplacedFile.RetryMistakesReAddedJob` | internal/cluster/raft_storage.go:362-406 | a run of thirteen steps with one failed flush: a file is replaced, the directory opens, and recovery calls a pending job completed |
| `FlushProtocol.RunsStayIntactIff` | internal/cluster/raft_segment.go:346-460 | the files hold what the log remembers throughout a run exactly when no write seals a file over a remembered one |
| `FlushProtocol.SparedFilesLoseNothing` | internal/cluster/raft_storage.go:362-406 | in such a run the files in the order in which the log remembers them recover to exactly the committed entries and exactly the completed jobs, re-adds included |
| `FlushProtocol.RunsStayValidIff` | internal/cluster/raft_segment.go:318-344 | the log is well formed throughout a run exactly when no write meets a full file that cannot be sealed |
| `FlushProtocol.RetriesAreRecovered` | internal/cluster/raft_storage.go:362-406 | in such a run the directory itself recovers to what was written, repeated records included |
| `FlushProtocol.RetryIsMisnamedIff` | internal/cluster/raft_segment.go:318-344 | after a write that failed is tried again, its first entry is in a file named past it exactly when a rotation came between the two copies |
| `InMemoryLog.ConflictTruncation` | internal/cluster/raft_storage.go:269-296 | a contiguous batch leaves exactly the old prefix followed by the batch, wherever it starts |
| `InMemoryLog.DenseAfterIff` | internal/cluster/raft_storage.go:287-292 | a dense log stays dense exactly when the batch reaches the old end |
| `InMemoryLog.FirstAfter` | internal/cluster/raft_storage.go:290-292 | the first index after any batch is the smallest one ever appended |
| `InMemoryLog.ShortBatchLeavesLastTooHigh` | internal/cluster/raft_storage.go:287-289 | one conflicting entry at index 2 of a log of three leaves a last index with no entry |
| `InMemoryLog.BudgetPrefixIsLongest` | internal/cluster/raft_storage.go:587-601 | no longer part of the range fits the size budget |
| `InMemoryLog.BudgetPrefixMeetsNoGap` | internal/cluster/raft_storage.go:589-592 | a range that is answered has no missing entry within the budget |
| `InMemoryLog.Entries` | internal/cluster/raft_storage.go:579-603 | compacted exactly below the first index; unavailable exactly past the last or at a gap the budget reaches; otherwise the longest part within the budget |
| `Storage.UpdateIndex` | internal/cluster/raft_storage.go:311-347 | applying the ids of an entry one by one, repeated ids included, gives the index of the whole entry |
| `Storage.MinOpenAdd` | internal/cluster/raft_storage.go:486-496 | the smallest add among open jobs, 0 if none |
| `Storage.MaxCompletion` | internal/cluster/raft_storage.go:498-508 | the largest completion index, 0 if none |
| `Storage.CleanIndex` | internal/cluster/raft_storage.go:432-455 | the two deletion passes leave exactly the jobs with an add at or above the cut and no completion below it, also if they were only completed |
| `Storage.FindBounds` | internal/cluster/raft_storage.go:78-102 | both bounds are keys and every key lies between them; the snapshot's bounds if there is none |
| `Storage.DropBelow` | internal/cluster/raft_storage.go:419-424 | exactly the entries at or above the cut remain |
| `Storage.StorageCore.AppendEntry` | internal/cluster/raft_storage.go:278-293 | the entry is stored, what lay between its index and the last index is gone and the rest untouched; the first index can only go down, the last only up |
| `Storage.StorageCore.AppendEntries` | internal/cluster/raft_storage.go:269-296 | the batch overwrites the log entry by entry |
| `Storage.StorageCore.AppendCommitted` | internal/cluster/raft_storage.go:300-359 | for any entry: index and buffer take it, and what files and buffer hold grows by it, exactly unless a flush replaces a remembered file; at the threshold the whole buffer goes to the files; the exact condition for the log staying well formed |
| `Storage.StorageCore.FlushBuffer` | internal/cluster/raft_storage.go:362-406 | for any buffer: what the files hold grows by it, exactly unless a remembered file is replaced, and it ends empty; the exact condition for the log staying well formed |
| `Storage.StorageCore.FindFirstIndexToKeep` | internal/cluster/raft_storage.go:472-511 | the earliest open add; without open jobs, the index right after the latest recorded completion; with neither, the first index |
| `Storage.StorageCore.Compact` | internal/cluster/raft_storage.go:411-470 | new index, log, bounds and snapshot, and the log files truncated at the cut; the buffer is untouched |
| `Storage.StorageCore.Recover` | internal/cluster/raft_storage.go:197-266 | log and index rebuilt from exactly the records that the files hold above the snapshot, repeated ones included |
| `Storage.StorageCore.GetCompletedJobIDs` | internal/cluster/raft_storage.go:637-650 | for an index built over any increasing history by either builder: exactly its completed jobs |
| `Replay.ClusterAgent.HandleNormalCommand` | internal/cluster/agent_raft_bridge.go:237-303 | an add is forwarded unless all its jobs are dead, with its jobs in their order, each marked exactly if it is dead; completions and drops are passed on and their ids stop being dead; the applied index |
| `Replay.ClusterAgent.Forget` | internal/cluster/agent_raft_bridge.go:276-291 | exactly the completed ids stop being dead |
| `Replay.DeadUntilCompleted` | internal/cluster/agent_raft_bridge.go:237-303 | a job is dead until the first record that completes it, and no longer |
| `Replay.LivingAreUntouched` | internal/cluster/agent_raft_bridge.go:256-274 | the filter changes nothing for a job that is not dead |
| `Replay.CompletedIsNotUndone` | internal/state/partition.go:234-255 | a job whose last event is a completion is not undone, filtered or not |
| `Replay.FilterPreservesUndone` | internal/cluster/agent_raft_bridge.go:237-303 | filtered and full replay of any log leave the same undone jobs, and no job is dead at the end |
| `Replay.SameFutureIff` | internal/cluster/agent_raft_bridge.go:237-303 | two partitions agree on undone jobs after every further history exactly when they store the same jobs with the same marks |
| `Replay.FinishedJobMayReturnAfterRestart` | internal/state/partition.go:243-255 | one add and one completion: the filtered replay stores nothing, the full replay a done job |
| `Replay.ReplayedStates` | internal/state/partition.go:226-384 | a replay from nothing stores exactly the jobs added and not dropped since, each marked done exactly if it was reported done since |
| `Replay.UndoneIsPending` | internal/state/partition.go:226-384 | a replay of any history leaves undone exactly its pending jobs without those that were done and added again with no drop in between; so all of them exactly when there is no such job |
| `Replay.FilteredUndone` | internal/cluster/agent_raft_bridge.go:237-303 | the same with any completed jobs taken for dead: of a dead job the replay sees only what follows its first completion |
| `Replay.ReAddedJobDependsOnCut` | internal/state/partition.go:243-255 | added, done and added again: pending, not undone after a full replay, undone after a replay from the last add on |
| `RestartedNode.RestartedNodeWorksOnPendingJobs` | internal/cluster/agent_raft_bridge.go:237-303 | any durable node, also the one a crash left, restarts with the dead jobs of the index rebuilt from its files: the decided entries above the snapshot leave the partition with exactly the pending jobs of the whole history, without those done and added again in what the filter lets through; with all of them if completed jobs are never added again |
| `Framing.BytesRoundTrip` | internal/cluster/helper.go:32-34 | little-endian numbers read back |
| `Framing.FramesRoundTrip` | internal/cluster/helper.go:24-44 | reading a file of frames returns exactly the entries written |
| `Framing.LowByteFirst` | internal/cluster/helper.go:32-34 | numbers are written least significant byte first |
| `Framing.FrameLayout` | internal/cluster/helper.go:24-44 | a frame is its own length, the index and the payload, in this order |
| `Framing.AnyBytesRead` | internal/cluster/raft_segment.go:714-747 | what any bytes read as, corrupt ones included: an entry exactly if a whole frame decodes to the index of its header, the end exactly if nothing or a bare header is left |
| `Framing.ScanFindsLast` | internal/cluster/raft_segment.go:290-313 | the header-only scan agrees with the full read on the last index |
| `Framing.WholeFramesAreWhole` | internal/cluster/raft_segment.go:714-747 | the frames counted as whole end at or before the cut and the next one does not |
| `Framing.CutFileReadsWholeFrames` | internal/cluster/raft_segment.go:714-747 | a file cut at any byte reads back exactly the entries whose frames end at or before the cut, and ends cleanly exactly when the cut falls at the end of the last of them or right after the next header |
| `Framing.CutFileScan` | internal/cluster/raft_segment.go:290-313 | what the header-only scan makes of a file cut at any byte: it fails on part of a header, and with a whole header left over reports an entry that the read does not return |
| `Slab.CreateKeepsStoreIff` | internal/state/job_store.go:41-82 | storing a new id keeps index and free list sound exactly when the id is not empty; no other slot changes |
| `Slab.ReleaseKeepsStore` | internal/state/job_store.go:84-98 | releasing a used slot keeps the store sound and changes no other slot |
| `Slab.MarkKeepsStore` | internal/state/job_store.go:100-107 | marking keeps the store sound and every id in place |
| `Slab.ForceReleaseKeepsStore` | internal/state/job_store.go:122-129 | the store stays sound without the id |
| `Slab.JobStore.Create` | internal/state/job_store.go:41-82 | fails exactly on a stored id; the corrupt-free-list panic cannot happen, whatever ids were stored; a sound store stays sound exactly unless an empty id is stored |
| `Slab.LastReleasedIsReused` | internal/state/job_store.go:41-98 | the slot released last is used next; with none released the slab grows at its end |
| `Slab.JobStore.Release` | internal/state/job_store.go:84-98 | panics exactly on a free slot of the slab; otherwise the slot is free and its id gone; slots outside are ignored |
| `Slab.JobStore.MarkDone` | internal/state/job_store.go:100-107 | exactly the named job is marked, whatever ids are stored; reports whether it is stored |
| `Slab.JobStore.ReleaseIfDone` | internal/state/job_store.go:109-119 | releases exactly a stored and done job; panics exactly if its slot looks free, which a sound store rules out |
| `Slab.JobStore.ForceRelease` | internal/state/job_store.go:122-129 | releases a stored job whatever its mark; panics exactly if its slot looks free, which a sound store rules out |
| `Slab.JobStore.Get` | internal/state/job_store.go:131-140 | the job of a used slot, nothing otherwise |
| `ReadyQueue.SwapRemovalIsExact` | internal/state/process_queue.go:82-113 | for distinct cells in any order: a listed cell goes exactly if it lies inside the queue at its turn, no unlisted job is ever removed |
| `ReadyQueue.AllHitIff` | internal/state/process_queue.go:106-113 | all listed cells go exactly when the i-th of m cells is at most n - m + i |
| `ReadyQueue.AscendingFits` | internal/state/process_queue.go:106-113 | strictly ascending cells always meet that condition |
| `ReadyQueue.RemovedRefs` | internal/state/process_queue.go:82-113 | after removal every cell number equals its position and holds an old reference whose cell was not hit |
| `ReadyQueue.RemoveRefsRenumbers` | internal/state/process_queue.go:82-99 | swap-removal with cell updates is plain swap-removal followed by numbering |
| `BatchSelection.BatchIsOldestFirst` | internal/state/process_queue.go:133-192 | a batch holds distinct ready references, oldest first; none that was left out is older than one returned |
| `BatchSelection.BatchIsFirstEligible` | internal/state/process_queue.go:133-192 | a batch is exactly the first `count`, by due time and then cell, of the ready references that have at most one ready due time before their own; one of them is left out only if the batch is full |
| `Queue.ProcessQueue.AddNewJob` | internal/state/process_queue.go:67-78 | appends with the right cell, fails exactly when full |
| `Queue.ProcessQueue.RemoveByCellIndex` | internal/state/process_queue.go:82-99 | swap-removal in place, tombstones beyond the live part |
| `Queue.ProcessQueue.RemoveCells` | internal/state/process_queue.go:106-113 | the listed cells removed from the back of the list |
| `Queue.ProcessQueue.UpdateRetry` | internal/state/process_queue.go:117-129 | one reference gets its new attempt and due time; false exactly outside the live part |
| `Queue.ProcessQueue.TwoOldest` | internal/state/process_queue.go:141-171 | the one-pass search finds the two smallest distinct due times among ready references |
| `Queue.ProcessQueue.ReadBatch` | internal/state/process_queue.go:133-192 | the multi-pass loop returns the first `count` of those at the oldest due time in cell order, then those at the next |
| `Scheduler.RetryDelay` | internal/state/partition.go:396-429 | between 1 and 20 seconds and within the configured maximum |
| `Scheduler.BatchIsBatch` | internal/state/process_queue.go:133-192 | batch items are references of the queue at their own, distinct cells |
| `Scheduler.LeavingMembers` | internal/state/partition.go:483-497 | the references that leave are exactly the dead and the exhausted ones of the batch |
| `Scheduler.SendableMembers` | internal/state/partition.go:483-504 | the references that are sent are exactly the others |
| `Scheduler.BuriedMembers` | internal/state/partition.go:490-495 | the dead-letter entries are exactly the exhausted references |
| `Scheduler.SplitOfOne` | internal/state/partition.go:483-504 | a reference is sent exactly if its job is stored, not done and has attempts left, leaves otherwise, and is buried with the size of its job if only the attempts are missing |
| `Scheduler.SplitInOrder` | internal/state/partition.go:483-504 | sent, leaving and buried references keep the order of the batch |
| `Scheduler.FlushInOrder` | internal/state/dlq.go:80-107 | a flush treats its buffer in order; its proposals keep that order and a panic anywhere is a panic of the whole |
| `Scheduler.AddInOrder` | internal/state/partition.go:226-275 | an add command treats its jobs in order, and the failures keep that order |
| `Scheduler.AddedIsDueNow` | internal/state/partition.go:243-272 | a job that is taken is stored as it came, with one reference at the end of the queue, due at once and never sent; any other job changes neither queue nor index |
| `Scheduler.PutOffSent` | internal/state/partition.go:555-562 | a sent reference has one attempt more and is due after the delay for that attempt |
| `Scheduler.PutOffKeeps` | internal/state/partition.go:555-562 | putting off changes no slot, no cell and no reference that was not sent |
| `PartitionRuns.DispatchMoves` | internal/state/partition.go:442-576 | where every reference goes in a dispatch; exactly the hit cells are gone |
| `PartitionRuns.StepForgetsNone` | internal/state/partition.go:226-608 | no add, completion, drop, dispatch or flush forgets an undone job |
| `PartitionRuns.NoUndoneJobIsForgotten` | internal/state/partition.go:226-608 | in every run each stored undone job is in the queue or the dead-letter buffer, or its drop was proposed or its proposal discarded |
| `References.AddKeepsRefsIff` | internal/state/partition.go:243-272 | unless it panics, adding keeps references sound, although slots are reused, exactly when the job is marked done or its id is not empty |
| `References.DropKeepsRefsIff` | internal/state/partition.go:353-384 | a drop keeps references sound exactly when nothing refers to the job |
| `References.DispatchKeepsRefsIff` | internal/state/partition.go:442-576 | a dispatch keeps references sound exactly when every exhausted reference of the batch is hit by the removal |
| `References.AscendingBatchIsRemoved` | internal/state/partition.go:483-565 | if the cells of a batch ascend, every reference that leaves is removed |
| `References.OneDueTimeAscends` | internal/state/process_queue.go:172-189 | a batch with one due time lists its cells in ascending order |
| `MissedRemoval.RunMissesARemoval` | internal/state/partition.go:442-576 | a run of seven steps from an empty partition, with sound references at its end, after which the next dispatch misses the removal of an exhausted reference |
| `References.FlushPanicsIff` | internal/state/dlq.go:80-107 | a flush panics exactly when a buffered slot is free or an earlier entry for the same done job released it |
| `DeadLetters.DropThenFlushPanics` | internal/state/dlq.go:80-107 | a run of three steps that buries a job; a drop of that job then leaves a dangling reference and the next flush panics |
| `References.FlushedSlots` | internal/state/dlq.go:80-107 | a flush empties exactly the slots of done jobs that the buffer refers to |
| `References.FlushKeepsRefs` | internal/state/dlq.go:80-107 | with sound references a flush does not panic and leaves sound references |
| `References.ReferencesStaySound` | internal/state/partition.go:226-608 | over every careful run all references point to used slots, no slot has two, and no flush panics |
| `References.TidyRunsStaySound` | internal/state/partition.go:226-608 | the same over every run whose batches have one due time or ascending cells and whose drops name jobs nothing refers to |
| `RetryBound.RetriesAreBoundedAndSpaced` | internal/state/partition.go:483-562 | over every run a reference was sent exactly as often as its retry count says, at most the maximum, and sends are at least the retry delay apart |
| `RetryBound.DispatchUsesAttempts` | internal/state/partition.go:541-562 | every reference sent uses up an attempt, whatever else the dispatch removes |
| `RetryBound.SendsAreBounded` | internal/state/partition.go:483-562 | over any stretch of a run no more references are sent than attempts were left at its start plus those of jobs added in it; without new jobs at most the attempts left |
| `Proxies.ProxyMap.Update` | internal/state/proxy_map.go:38-55 | the table takes the state; the list stays inverse to its index and holds exactly the proxies with consumers |
| `Proxies.ProxyMap.AddToAvailable` | internal/state/proxy_map.go:57-63 | list and index stay inverse; a new proxy goes to the end |
| `Proxies.ProxyMap.RemoveFromAvailable` | internal/state/proxy_map.go:65-80 | list and index stay inverse; the last proxy takes the place of the removed one and no other moves |
| `Proxies.ProxyMap.GetNextAvailable` | internal/state/proxy_map.go:83-105 | the proxy whose turn it is, with its consumers; none exactly when the list is empty |
| `Proxies.ProxyMap.CleanupStale` | internal/state/proxy_map.go:107-122 | exactly the proxies whose last heartbeat is older than the timeout go, and then the turn starts over; without any nothing changes |
| `Proxies.ProxyMap.RebuildAvailableCache` | internal/state/proxy_map.go:124-135 | list and index rebuilt for exactly the proxies with consumers |
| `Proxies.RoundRobinIsFair` | internal/state/proxy_map.go:83-105 | with n proxies any n consecutive choices return each exactly once, wherever the position stands |
| `Dispatching.BatchSize` | internal/state/partition.go:466-469 | the largest size within the consumers' wish, the room and 4096 |
| `Dispatching.DlqBuffer.Add` | internal/state/dlq.go:64-78 | buffers the reference and its bytes and reports whether bytes or age reach their limit; or releases the slot of a done job, which panics exactly if the slot is free |
| `Dispatching.DlqBuffer.Flush` | internal/state/dlq.go:80-107 | empties the buffer into proposals, releasing done jobs, and restarts its clock unless it was empty; fails exactly on a free slot |
| `Dispatching.Partition.AddJob` | internal/state/partition.go:234-275 | any job: skipped if marked or stored, given back if the queue is full, which panics exactly for an empty id; validity is kept exactly unless an empty id is stored |
| `Dispatching.Partition.HandleAddJobs` | internal/state/partition.go:226-293 | the jobs of any command in order; the failures are exactly the new jobs that found the queue full; panics exactly if one of them has an empty id |
| `Dispatching.Partition.HandleDone` | internal/state/partition.go:319-351 | marks exactly the named stored jobs; queue and buffer unchanged |
| `Dispatching.Partition.HandleDrop` | internal/state/partition.go:353-384 | releases exactly the named stored jobs; queue and buffer unchanged; panics exactly if one of them leads to a slot that looks free, which a valid partition rules out |
| `Scheduler.RetryDelayGrows` | internal/state/partition.go:396-429 | 1 second before any attempt, then 3, 6, 10, 15 and 20; it does not shrink from one attempt to the next, and a configured maximum only cuts it off |
| `Dispatching.Partition.Classify` | internal/state/partition.go:483-504 | splits a batch into sent and leaving references and buries the exhausted ones; the store is unchanged |
| `Dispatching.Partition.DispatchBatch` | internal/state/partition.go:471-576 | the whole partition after a batch, sent or not |
| `Dispatching.Partition.Dispatch` | internal/state/partition.go:442-576 | a batch is read exactly when the node leads and the proxy whose turn it is has room; its size; the turn moves on either way |
| `Dispatching.Partition.FlushDlqIfNeeded` | internal/state/partition.go:579-608 | flushes exactly when the buffered bytes or the time since the last flush reach their limit; a full channel loses the proposal; panics exactly as the flush does |
| `Delivery.StrandedForGood` | internal/state/partition.go:596-607 | over any run a job whose proposal was lost stays unreferenced until its drop is committed |
| `Delivery.DroppedStayStranded` | internal/state/partition.go:585-608 | over every careful run, nothing refers to a job whose drop was proposed or whose proposal was lost |
| `Delivery.RunFlushKeepsReachableIff` | internal/state/partition.go:585-608 | in any state of a careful run, a flush keeps every undone job reachable exactly when the channel takes the proposal or only done jobs were buffered |
| `DeadLetters.FullChannelStrandsJob` | internal/state/partition.go:596-607 | after the same run a flush into a full channel leaves the job with no reference |
| `Restart.AddAllRefinesReplay` | internal/state/partition.go:226-275 | a whole add command does to the stored jobs what replay says, except for the jobs that found the queue full; after the first of those no new job is taken |
| `Restart.DoneRefinesReplay` | internal/state/partition.go:319-351 | a completion command does to the stored jobs what replay says |
| `Restart.DropRefinesReplay` | internal/state/partition.go:353-384 | a drop command does to the stored jobs what replay says |
| `Restart.PartReplayRefines` | internal/cluster/agent_raft_bridge.go:237-303 | over every log replayed through the filter into a slab and a queue, the stored jobs and marks are those of the replay on plain maps |
| `Restart.FilteredRestartKeepsUndone` | internal/cluster/agent_raft_bridge.go:237-303 | a restart that skips the adds of completed jobs leaves the partition itself with the same undone jobs as a full replay, and no job dead |

## Left out

- Consensus: the Raft library and `raft_node.go`; committed entries are taken to arrive once, in order, with increasing positive indices.
- Hard state, terms, conf state, and snapshots installed from a leader.
- QUIC, TLS, HTTP, discovery, configuration and the proxy gateway: input and output, and simple validation.
- The cluster-level dead-letter files, whose exactly-once behaviour would need assumptions larger than the model.
- msgpack and protobuf layouts: decoding is assumed to undo encoding.
- Corrupt files, fsync ordering and I/O errors, except a failed flush that wrote a whole-record prefix and a file cut at any byte.
- File names that do not parse; they are skipped by the program and do not occur in the model's directories.
- Wrap-around of 64-bit indices and clocks and of 32-bit slots; sums of sizes are unbounded too.
- Job payloads, topics and creation times; only id, done mark and size matter to what is proved.
- Slab capacity growth, object pools, metrics, logging, response channels, heartbeats and the topic manager.
- Readers that run while the log is truncated or rotated; a reader works on one state of the directory.
- `NodeRuns` delivers again only entries that did not reach the files; `Redelivery` delivers again all entries above the snapshot, as the Raft library does with the applied index left unset.
- `RaftStorage.Snapshot` (raft_storage.go:652-660) sets a shared snapshot index of 0 to 1, so the cut can move without a compaction; in the model only compaction moves it.
- A rotation that fails half-way while the process goes on; in the model a write fails between records and a rotation is cut short only by a crash.
- WalRuns.StepRefines: requires that a full file can be sealed and an emptied one holds nothing above the truncation index; `RotationReopensIff`, `AppendKeepsFilesIff` and `TruncationKeepsAboveIff` say what happens otherwise, and `RunsRefine` needs no such condition.
- WalFiles.SegmentedWal.Truncate: requires a valid log, which `ReopenKeepsLog` and `AppendAllKeepsLayoutIff` give exactly under their conditions; so do `RemoveSealed`, `Compact`, `FindSegment` and `NewReader`.
- NodeRuns.StepIsDurable: requires that a flush seals well, that a compaction which moves the cut meets neither of its two failures above, and that no job pending in the files was re-added above the cut at a crash; failed writes are in `FlushProtocol`. `VisibleRunsAreDurable` needs nothing of the flush.
- Redelivery.StepIsSteady: requires that flushes seal well, which redelivery of more than one segment need not do (`Coverage` says what the files keep then), and that a compaction that moves the cut waits for redelivery and meets none of the failures above.
- FlushProtocol.RetriesAreRecovered: requires that no write meets a full file that cannot be sealed; `RunsStayValidIff` says that this is exactly when the log stays well formed, and `NothingIsLost` needs no such condition.
- FlushProtocol.SparedFilesLoseNothing: requires that no write seals over a remembered file, which `RunsStayIntactIff` makes exact; `NothingIsLost` needs no such condition for entries.
- RestartedNode.RestartedNodeWorksOnPendingJobs: requires room in the queue and non-empty ids.
- Storage.StorageCore.AppendCommitted: models the single-threaded path; the interleavings are in `FlushProtocol`.
- PartitionRuns.NoUndoneJobIsForgotten: runs add only jobs with non-empty ids; what an empty id does to one step is in `AddKeepsRefsIff` and `AddJob`.
- Restart.FilteredRestartKeepsUndone: requires room in the queue for every add of the log and non-empty ids.
- WalReader.ReadableAfterEmptyingIff: covers the first entry after the truncation; later entries above the index are covered by `NewReader`.
