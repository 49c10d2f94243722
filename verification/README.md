# A verified model of the LIVEN storage engine and its query algorithms

The database keeps its data in append-only segment files. A flusher thread groups writes into commits: it
checks them against an index budget, frames them, rolls the segment over when they do not fit, writes, syncs,
updates two indexes, and only then answers. Opening replays all segments and rebuilds the indexes. Compaction
copies the live frames of inactive segments into a new one while the flusher goes on. Torn tails are cut,
refused, or, in Repair mode, searched for valid frames that are saved first.

This project models that engine and proves what it promises over whole runs: when what is acknowledged survives kills
and power losses, inside commits, compactions and reopenings; that compaction never changes what is served; what a
reopened engine serves; that an interrupted repair can be done again. Where a promise holds only under a condition,
"Where the code and its promises part" names it and the inputs that fail it. Beside it stand the query algorithms (sequence patterns, top-k vector search, filters and their
printed form, the choice between index and scan), insert uniqueness under concurrency, and the wire framing.

## How it is organised

* `Bytes`, `Types`, `Wrappers`: byte encodings and the shared entities.
* `Frames`: the on-disk frame format, replay of a file, and what a cut leaves. `Index`, `LogMerge`: the two
  indexes with their byte count, and the newest-frame-wins merge.
* `Disk`, `PowerLoss`: files with durable lengths and pending directory operations, what a power loss may leave
  (`CrashOf`), what the death of the process alone leaves (`Outage`: everything pending still is), and the
  bookkeeping object that simulates a power loss.
* `GroupCommit`, `FlushIndex`, `Flusher`: admission, index effect and write stage of a group commit, with the disk at
  each point where the process may die. `Admission`: which answer each entry of a batch gets, told without the
  admission loop. `Resync`, `Recovery`: the search for stranded frames, and opening in its
  three modes, again with the disk at each point.
* `Shelves`, `ShelfReplay`, `OpenAfterCrash`, `CommitSafety`, `CrashSafety`: an engine that is never compacted, over
  all runs of opens, commits, kills and power losses at any point.
* `DiskView`, `FrameSets`: the set of frames in an arbitrary directory and which of them the database depends on.
* `Compaction`, `CompactionFrames`, `Survival`, `CompactionSteps`, `CompactionCrash`: compaction as a state machine
  interleaved with group commits, what each step keeps, and what a power loss between steps leaves. `LateListing`:
  the directory listed after a rollover.
* `Reopen`, `TornTail`: recovery of an ordered directory with a torn tail behind its active segment. `MidCommit`,
  `CommitCrash`: the process dies inside a commit, compaction in any phase. `LossForeseen`: which states no power loss
  can harm. `FailedFlusher`: compaction after a failed commit. `Restart`: what a dead process leaves, and the next
  engine on it. `Outages`: whole runs of all of these. `RemovalOrder`, `OutlivedTombstone`: when
  removals do harm. `UnsafeToRun`, `ReturnedRemoval`, `UnsyncedBatch`: when openings after a kill do.
* `Damage`, `StrandedFrames`, `OpenDecision`: what a damaged payload does to replay, reads and the index; which frames
  behind a tear count; which openings refuse, over which tear, and what the others run on.
* `Repair`, `RepairOutcome`: salvage of stranded frames and what repair makes of a directory. `RepairCrash`,
  `RepairRerun`, `RepairTwice`: an interrupted repair done again. `RepairReopen`: the opening after a repair.
* `Engine`, `TimeIndex`: the engine as an object whose methods update its fields in place and are proved against
  the functions above: `ExecuteBatchAppend` against `Flush`, `Recover` against `Open`, both with the disks at which
  the process could die, and `Compact` against the steps.
* `SequenceMatching`, `Cosine`, `VectorSearch`, `Filters`, `QueryPaths`, `Reservation`, `WireCodec`: the query and
  network side. `FilterParser`, `FilterGrammar`, `FilterRoundTrip`: the filter parser, the grammar it is proved
  equivalent to, and printed filters read back.

MessagePack, CRC-32 and UTF-8 are parameters (`Codec`, `MsgPack`) that are only assumed to decode what they
encoded. Clocks, fault injection and thread schedules are parameters or choices of the step relations.

## Where the code and its promises part

Each of these is proved, most with the exact condition under which the promise does hold.

* Acknowledged writes survive kills and power losses over whole runs (`Outages.RunsServe`, `Outages.RunOutageExact`,
  without compaction `CrashSafety.RunsAreSafe`) if each engine opens safely (`Restart.SafeToRun`). An opening after a
  kill may not, in three ways. In each, whatever else the directory holds, some power loss takes or outranks what that
  engine serves or acknowledges (`UnsafeToRun`); and each comes about.
  * The active segment's directory entry is pending, as the process died between creating the segment and syncing the
    directory; the next opening finds the file and skips the sync. The first batch acknowledged survives if and only if
    that is not so or it rolls the segment over (`CrashSafety.AckedWritesSurviveExactly`,
    `CrashSafety.AcknowledgedWriteLost`).
  * A pending removal holds frames at or above the next sequence id, which is taken from the frames that are left. A
    commit with a lower id is undone when the removal is (`UnsafeToRun.ReturnedFrameWins`,
    `ReturnedRemoval.ReturnedTombstoneLoses`).
  * The active segment ends in a batch that was written but not synced. It is served, and compaction drops the
    acknowledged records it superseded; then a power loss takes the batch (`UnsyncedBatch.AcknowledgedWriteDropped`).
* Compaction reads the active id before it lists the directory. If a commit rolls over in between, the new active
  segment is listed as an input: it is removed in the end, with whatever was committed to it after the walk. Every
  continuation goes on answering if and only if the id read is still the active one at the listing
  (`LateListing.ListingExact`).
* The index budget is exceeded exactly when the 64 bytes left behind for each live key superseded under an alias
  (two streams that spell the same compound key `stream:key`) outweigh what the batch left unspent or freed
  (`FlushIndex.FlushBudgetExact`, `FlushIndex.AliasedStreamsExceedBudget`), and those bytes stay
  (`FlushIndex.StaleStays`); the same aliases make a key lookup return another stream's record
  (`QueryPaths.KeyPathExact`).
* A deleted key comes back, when the process dies among compaction's removals or when a compaction ends after failed
  ones, exactly if an input that is still there, or comes back, holds one of its frames without a newer frame of the
  key (`CommitCrash.OutageExact`, `CommitCrash.ReopenExact`, `OutlivedTombstone.DeletedKeyReturns`); which states are
  out of that danger can be told from the disk beforehand (`LossForeseen.AlwaysKeptExact`).
* `filter(key == "k" and P)` drops `P` on the key path (`QueryPaths.ConjoinedKeyExact`; for any filter a key is taken
  from, `QueryPaths.KeyFilterExact`), `filter(not key == "k")` looks `k` up and finds none of the others
  (`QueryPaths.NegatedKeyExact`), and of two keys only the first is asked for (`QueryPaths.SecondKeyIgnored`). A fractional bound on
  `timestamp` loses matches on the time path exactly when it is a positive upper bound of `<` or a negative lower
  bound of `>` (`QueryPaths.BoundExact`, `QueryPaths.OneBoundExact`).
* A printed filter loses the parentheses around `or` under `and` (`FilterRoundTrip.ParensLost`); with all of them it
  reads back as itself (`FilterRoundTrip.FullFilterRoundTrip`). Strings are printed unescaped, so they read back if and
  only if they hold no quote and no escape (`FilterRoundTrip.LiteralExact`). A field that starts with "not" is read as a
  negation (`FilterRoundTrip.NotIsTakenFromTheField`), unless a digit follows.
* A sequence pattern of one step never emits (`SequenceMatching.SingleStepNeverEmits`).
* A legacy wire frame shorter than 2^25 bytes is taken for a version 1 frame (`WireCodec.LegacyRecognised`).
* Salvaged frames are not indexed by the opening that saves them, only by the next one (`RepairReopen.RepairThenOpen`).
  That opening drops the keys of damaged segments that are not active, although their frames before the damage are
  whole. A replay stops early in a salvaged segment if a value does not decode, as validation checks everything but
  the value (`Repair.SalvagedFramesExact`).
* An interrupted repair done again may choose another active segment, and then cuts another torn tail
  (`RepairTwice.RerunReachesSame`).
* The scan by time range keeps a set of keys it has already returned; the set never turns a record away, as no key
  is met twice (`Engine.TakenIsNew`).

## Model

| member | source | states |
|---|---|---|
| Frames.ScanCut | src/storage.rs:762-977 | Replaying the frames of any list of records, cut at any byte, yields exactly the frames wholly inside the cut, stops at their end, and reports a tear exactly if bytes are left over. |
| Frames.LayoutReads | src/storage.rs:3820-3869 | The offset the flusher stores for each record of a batch reads back that record. |
| Frames.FrameRoundTrip | src/storage.rs:3980-4055 | A framed record, anywhere in a file, decodes to itself by replay and by positional read. |
| Frames.AppendKeepsReads | src/storage.rs:1847-1955 | Appending to a segment never changes what an existing pointer reads. |
| Frames.ScanReads | src/storage.rs:1847-1955 | Every frame replay finds can be read through the pointer replay stores for it, if and only if its key has at most 32 bytes. |
| Index.ApplyRepresents | src/storage.rs:3832-3862 | Applying a new frame to the two indexes is applying it to the plain map of live records, and every live pointer stays filed in its own stream's time index. |
| Index.ApplyAccounted | src/storage.rs:3040-3063 | Pruning, removing and inserting keep the byte count equal to what the indexes hold, so no subtraction ever underflows. |
| LogMerge.MergeAllMerged | src/storage.rs:855-958 | Replaying frames in any order, with the per-key watermark, maps each key to its newest frame if active and to nothing if that is a tombstone; the byte count is exact. |
| LogMerge.OrderIndependent | src/storage.rs:729-734 | Two replays of the same frames in different orders, with any duplicate copies, index the same database. |
| GroupCommit.PlanOk | src/storage.rs:3407-3716 | Admission writes exactly the entries it commits, each whole or not at all, with consecutive ids and all fields as asked, and never spends beyond the budget; each answer is one its entry may get. |
| Admission.AdmissionExact | src/storage.rs:3407-3716 | The answer to entry i of any batch: none if and only if a shutdown stands at or before i; for deleting entries before that, committed; for others, turned away exactly when the keys new to the index and to the entries admitted before do not fit the budget, naming what was spent up to the first that does not, and in a batch its key. All that is committed is what was asked, and nothing else is written. |
| Admission.AnswersExact | src/storage.rs:3301-3350 | What callers are told: after a success what admission decided; after a failure at any step, those turned away are told so, shutdowns are not answered, and all others are told that it failed, even behind a shutdown. |
| Admission.CommittedIsSynced | src/storage.rs:3718-3963 | A successful commit puts exactly the frames of the entries answered as committed at the end of the active segment, or of a new one if and only if the limit calls for it, synced; each of them reads back. |
| FlushIndex.ApplyAllRepresents | src/storage.rs:3825-3963 | Applying a whole batch yields indexes for the plain map after the batch, with an exact byte count. |
| FlushIndex.FlushBudgetExact | src/storage.rs:3407-3716 | After any batch the byte count is what admission spent, plus 64 for each key superseded under an alias, less what deletions freed; so the budget holds if and only if those 64s fit in what was left. |
| FlushIndex.OneWriteBudgetExact | src/storage.rs:3047-3063 | For one write the budget bound holds if and only if the key is not live under an alias with less than 64 bytes left. |
| FlushIndex.ColonFreeNoLeaks | src/storage.rs:3047-3063 | With colon-free stream names no key is filed under an alias. |
| FlushIndex.ColonFreeWithinBudget | src/storage.rs:3407-3716 | A batch of colon-free entries, over a database of such, never exceeds the budget or the old byte count. |
| FlushIndex.AliasedStreamsExceedBudget | src/storage.rs:3827-3841 | Two concrete streams that spell one compound key: the second write is admitted and committed, the byte count is 64 above the budget, and the first stream keeps a time entry no live key stands for. |
| FlushIndex.StaleStays | src/storage.rs:3047-3063 | Such an entry stays through every later batch. |
| Flusher.NoAckAfterFailure | src/storage.rs:3301-3350 | After a failed write, sync or rollover no entry is answered as committed. |
| PowerLoss.Tracker.RecordWrite | src/power_loss.rs:57-67 | The tracker's written and synced lengths after a write. |
| PowerLoss.Tracker.RecordSync | src/power_loss.rs:69-80 | The tracker's synced length after a sync. |
| PowerLoss.Tracker.RecordDirSync | src/power_loss.rs:120-129 | A directory sync forgets all pending creates and unlinks. |
| PowerLoss.Tracker.Materialize | src/power_loss.rs:131-179 | What the simulated power loss leaves is one of the directories the crash model allows. |
| PowerLoss.CreateTracked | src/power_loss.rs:50-55 | Recording a create keeps the tracker in step with the disk. |
| PowerLoss.SyncTracked | src/power_loss.rs:69-80 | Recording a sync keeps the tracker in step with the disk. |
| PowerLoss.TruncateTracked | src/power_loss.rs:82-94 | Recording a synced truncation keeps the tracker in step with the disk. |
| PowerLoss.UnlinkTracked | src/power_loss.rs:96-105 | Recording a removal keeps the tracker in step with the disk. |
| PowerLoss.AppendTracked | src/power_loss.rs:57-67 | Recording a write keeps the tracker in step with the disk. |
| PowerLoss.DirSyncTracked | src/power_loss.rs:120-129 | Recording a directory sync keeps the tracker in step with the disk. |
| Resync.FindResync | src/storage.rs:2818-2868 | The bytewise search over a sliding window finds the first credible position, and only that. |
| Resync.CollectStranded | src/storage.rs:2897-2921 | The frames collected are the maximal run of valid frames from the resync point. |
| StrandedFrames.ValidExact | src/storage.rs:2704-2816 | A frame the engine has written is a valid frame, wherever it lies, if and only if its id is not 0, its timestamp lies from 2000 to a day from now and its payload has at most 512 MB. |
| StrandedFrames.ValidIsWhole | src/storage.rs:2735-2816 | A valid frame is one that replay takes, with an undamaged payload, or one whose value alone does not decode. |
| StrandedFrames.CredibleExact | src/storage.rs:2818-2895 | Of two frames that lie behind each other the first is a resync point if and only if both are valid and, outside compacted segments, newer than all before the tear and in order. |
| StrandedFrames.StrandedExact | src/storage.rs:2818-2921 | Behind a tear, if no earlier position is credible, a log of such frames that ends the file, torn in a last frame or not, is found exactly. |
| StrandedFrames.StrandedBytes | src/storage.rs:1399-1452 | The bytes saved of that log are the log. |
| Damage.DamageStopsReplay | src/storage.rs:840-853 | Behind any whole frames, a payload damaged on disk so that its checksum is wrong ends replay there with a checksum tear, whatever follows, and the frame cannot be read. |
| Damage.OpenIndexes | src/storage.rs:689-1095 | Whatever the mode, an opened engine indexes only frames that replay finds, and dropping the keys of a damaged segment keeps the byte count exact. |
| Damage.DamageNotIndexed | src/storage.rs:689-1095 | In no mode does an opening index the record of a damaged frame, or one behind it. |
| OpenDecision.OpenDecides | src/storage.rs:1100-1381 | An opening in Default or Strict mode refuses exactly over the first tear that blocks, with the error that tear calls for, or for want of ids; otherwise the active segment alone is cut, exactly the keys of damaged inactive segments are dropped, and the counters continue from what was found. |
| OpenDecision.StrictExact | src/storage.rs:1352-1359 | Strict mode opens exactly what Default mode opens and has no damaged payload, in the same way. |
| OpenDecision.StrictRefusesDamage | src/storage.rs:1352-1359 | Over a segment with a damaged payload Strict mode always refuses. |
| OpenDecision.StrandedRefused | src/storage.rs:1285-1328 | If a log of valid frames lies behind a damaged one, Default and Strict mode refuse and leave the segment as it is; if it is the only torn one the error counts exactly those frames. |
| OpenDecision.BehindIsNewer | src/storage.rs:2870-2921 | What counts as stranded in a segment that is not compacted is newer than all before the tear, in increasing order. |
| OpenDecision.ActiveExact | src/storage.rs:1001-1018 | The active segment is the last one if that holds no frame, else the one with the newest frame, the later of two equal ones; segment 1 if there is none. |
| OpenAfterCrash.OpenShelved | src/storage.rs:689-1095 | Default recovery of any crashed commit log refuses without touching it, or rebuilds its whole frames with the newest segment active, or cuts the torn write and then refuses for want of segment ids; at each point of it the disk still holds the durable records. |
| CommitSafety.CommitSafe | src/storage.rs:3718-3966 | A group commit under any fault, of an engine whose active segment is not pending: at every point where the process may die the disk holds all acknowledged records plus part of the batch. |
| CrashSafety.RunsAreSafe | src/storage.rs:3718-3966 | Over every run, without compaction, of opens, flushes, rollovers and failures, with the process killed or power lost at any point of a commit or of an opening: if no opening finds its active segment pending, the acknowledged writes are always all there, in order. |
| CrashSafety.SafeReads | src/storage.rs:1957-1976 | In every such run a healthy engine's lookups return exactly the plain map of acknowledged writes. |
| CrashSafety.OpenAfterAnyOutage | src/storage.rs:689-1095 | Reopening after any kill or power loss refuses with the disk unchanged, serves exactly the acknowledged writes and some prefix of the batch in flight, or, out of segment ids, refuses with those still on disk. |
| CrashSafety.AckedWritesSurviveExactly | src/storage.rs:1019-1048 | The first batch an opened, never compacted engine acknowledges survives every power loss if and only if its active segment's directory entry was not pending at the opening, or the batch rolls the segment over. |
| CrashSafety.KilledRollOverExposes | src/storage.rs:3743-3763 | A process killed between creating the new segment and syncing the directory leaves that segment active and pending at the next opening. |
| CrashSafety.AcknowledgedWriteLost | src/storage.rs:1019-1048 | A run from the empty directory in which an acknowledged write is lost that way. |
| CrashSafety.RecoverableKept | src/storage.rs:736-982 | What the disk is said to hold is found as frames by replay. |
| DiskView.AppendFrames | src/storage.rs:3774-3788 | Appending a batch to a cleanly replayed segment adds exactly its frames. |
| DiskView.PassIndexesDisk | src/storage.rs:736-982 | On any directory, whatever its ids, copies and torn tails, the replay pass indexes the newest-frame-wins view of all frames, and every pointer reads its record. |
| FrameSets.LossExact | src/storage.rs:2441-2513 | Losing frames keeps the database if and only if no lost tombstone leaves an older active frame of its key unshadowed. |
| FrameSets.LiveViewFold | src/storage.rs:3825-3963 | Adding a batch's frames to the disk is applying the batch to the database they stand for. |
| Compaction.StepOk | src/storage.rs:2302-2520 | Every step of compaction or of a group commit keeps the index serving the plain map, and all pointers off the segments to be removed. |
| Compaction.InterleavingsServe | src/storage.rs:2302-2520 | In every interleaving of whole group commits with the steps of compaction, at every moment, each key reads through the index what the plain map of writes holds, from a file that exists. |
| LateListing.ListingExact | src/storage.rs:2302-2324 | From the listing on, every interleaving answers every key as committed, if and only if the active id read before the listing is still the active one; with a stale id some interleaving loses an acknowledged write. |
| LateListing.OnlyRollOver | src/storage.rs:3718-3763 | Only a commit that rolls over changes the active id. |
| Compaction.SwapAllServes | src/storage.rs:2461-2487 | The pointer swap moves exactly the keys that still point where they were picked, and changes nothing that is served or counted. |
| Compaction.CompactionProceeds | src/storage.rs:2345-2364 | Compaction never meets an unreadable live record, and the next ids of both kinds never name an existing file. |
| CompactionSteps.StepFrames | src/storage.rs:2302-2520 | Every step, copies cut short, failing removals and a failing last directory sync among them, keeps all segments in sequence order, pending removals included, and every live record the newest frame of its key on disk; it keeps the newest-frame-wins view of the disk equal to the database too, unless it ends a compaction with inputs left that hold an unshadowed frame of a deleted key. |
| CompactionSteps.SwappedView | src/storage.rs:2461-2487 | After the swap the segments that stay hold the database without the inputs. |
| CompactionCrash.CrashViewPlain | src/storage.rs:2441-2459 | A power loss between steps, before the pointer swap or after all removals are durable, leaves the same database. |
| Survival.SurvivesExactly | src/storage.rs:2497-2513 | Of a directory in which the newest frames of all kept segments are found, with any part of the removed ones: the database is kept if and only if nothing found of those is a deleted key's frame without a newer frame of that key, nor a frame newer than a live record of its key. |
| CompactionCrash.CrashViewExact | src/storage.rs:2497-2513 | A power loss between two steps, in any phase and whichever pending removals come back, leaves the same database if and only if that condition holds of what is found. |
| LossForeseen.AlwaysKeptExact | src/storage.rs:2497-2513 | The condition before the loss: no power loss harms the database if and only if each deleted key's active frame in a segment that is going away is outlived by one in the part of that segment found with it or in a durable part of a durable segment, and no such segment holds a frame newer than a live record. |
| Reopen.NewestIsActive | src/storage.rs:1001-1018 | Recovery appends to the newest normal segment, never to a compacted one. |
| TornTail.OpenTorn | src/storage.rs:689-1095 | Recovery of an ordered directory, whatever is pending, its active segment possibly torn, refuses, or cuts the tail and runs on what replay of its whole frames finds; at each point of it the segments are as they were or the tail is gone. |
| TornTail.TornStill | src/storage.rs:689-1095 | Where no segment is pending the engine that runs satisfies the whole invariant on exactly those frames. |
| MidCommit.CommitShadows | src/storage.rs:3718-3966 | At each point of a commit, and after it fails, compaction in any phase, the disk is that of a state satisfying the whole invariant but for a torn copy of the batch or a pending new segment. |
| CommitCrash.OutageExact | src/storage.rs:3718-3966 | If the process dies at any of those points, with or without a power loss, exactly a prefix of the batch is found, and the database with that prefix is kept if and only if the condition on the segments being removed holds. |
| CommitCrash.ReopenExact | src/storage.rs:689-1095 | Reopening after a power loss then refuses, or runs in a state satisfying the whole invariant, and serves the database with that prefix if and only if the condition holds. |
| FailedFlusher.TwinKept | src/storage.rs:2302-2520 | After a commit has failed, every step of compaction is one of a state satisfying the whole invariant beside the engine. |
| Restart.RelicRests | src/storage.rs:689-1095 | Behind the directory a dead process has left, everything pending still pending, stands a state satisfying the whole invariant that has exactly the records found: the directory is its own but for a torn tail. |
| Restart.RelicCrash | src/storage.rs:689-1095 | A power loss over such a directory leaves one in order, with a torn tail at most. |
| Restart.ShelvesRunnable | src/storage.rs:1019-1048 | A new engine can run on it, from any sequence id above all frames, those in pending removals included. |
| RemovalOrder.CompactedInputsDecide | src/storage.rs:2497-2513 | If no removal failed and those that come back are the latest ones, only inputs that are compacted segments themselves decide. |
| RemovalOrder.NormalInputsSurvive | src/storage.rs:2321-2513 | Over whole runs in which no removal fails and the process only dies with the power: while no input is a compacted segment, a power loss that brings back only the latest removals leaves the same database. |
| Outages.RunsServe | src/storage.rs:2302-2520 | Over every run from the empty directory of commits under any fault, compaction before and after a failed one, and openings, which may refuse, with the process dying at any point of all of these, with or without a power loss: if each engine that starts opens safely, every engine serves exactly the plain map that was found on disk when it opened and that it has committed to since, with an exact byte count, the segments of a healthy engine are in order, and the frames of every directory left are consistent. |
| Outages.RunOutageExact | src/storage.rs:2497-2513 | In such a run, if no deleted key has come back since the directory was last quiet: when the process dies, with or without a power loss, what is found is the served map plus exactly the prefix found of a failed batch if and only if nothing found of the segments being removed does harm. |
| Outages.RunOutageKeeps | src/storage.rs:3718-3966 | So nothing is lost while no removal is under way or pending. |
| Outages.RunCommitExact | src/storage.rs:3718-3966 | The same at each point inside a group commit. |
| Reopen.SegmentsInOrder | src/storage.rs:464-489 | The invariant kept by those runs says: the active segment is normal and newest (up to copies of its own frames), next ids name no file, even one a power loss may bring back, and the next sequence id is above every frame. |
| Outages.FreshEngine | src/storage.rs:1001-1048 | Opening an empty directory gives a state that satisfies the invariant. |
| OutlivedTombstone.DeletedKeyReturns | src/storage.rs:2497-2513 | From a directory that satisfies the whole invariant, a compaction during which the process dies, with or without a power loss, no removal coming back, after which a deleted key is live again. |
| UnsafeToRun.PendingSegmentLost | src/storage.rs:1019-1048 | Whatever else an engine's directory holds: a record acknowledged into an active segment whose directory entry is pending, and in no other file, is lost in some power loss. |
| UnsafeToRun.UnsyncedTailLost | src/storage.rs:762-982 | Whatever else it holds: a record served from the part of the active segment that was not synced, and in no other file, is lost in some power loss. |
| UnsafeToRun.ReturnedFrameWins | src/storage.rs:1019-1020 | Whatever else an engine's directory holds: a commit that is acknowledged and live is undone by a power loss that brings back a pending removal with another frame of its key at or above its sequence id. |
| ReturnedRemoval.ReturnedTombstone | src/storage.rs:2497-2513 | From two segments that satisfy the whole invariant, a compaction during which the process dies before the last directory sync, after which the next engine numbers its records from 1 again, although its active segment is durable. |
| ReturnedRemoval.ReturnedTombstoneLoses | src/storage.rs:1019-1020 | Its next write of the deleted key is acknowledged and then undone by the tombstone that a power loss brings back. |
| UnsyncedBatch.AcknowledgedWriteDropped | src/storage.rs:2302-2520 | An engine that opens over a batch written but not synced serves it; a compaction without any failure then removes the acknowledged record it superseded, and a power loss finds neither. |
| UnsyncedBatch.UnsyncedKept | src/storage.rs:689-1095 | Before that compaction every power loss leaves the key with one of the two writes. |
| Repair.SalvageDirs | src/storage.rs:1285-1350 | The directory after each durable step of a salvage. |
| Repair.SalvageFrames | src/storage.rs:1399-1452 | After a salvage the directory holds all frames it held and the salvaged ones, and the source has no tear. |
| Repair.NothingCutEarly | src/storage.rs:1313-1350 | At every named point, whatever a crash leaves, the source is whole, or its tail is in the backup and the salvaged frames are in their segment. |
| Repair.SalvageRepeats | src/storage.rs:1399-1452 | One salvage that dies at any named point and is done again, from whatever largest id, ends with the same segments. |
| Repair.RepairAll | src/storage.rs:1100-1248 | Settling all tears in Repair mode adds exactly the first run of valid frames behind each, and can only fail for want of ids. |
| Repair.RepairThenReopen | src/storage.rs:578-647 | An opening in Repair mode leaves exactly the frames before each tear and the first run of valid frames behind it, and replay indexes their newest-frame-wins view. |
| Repair.SalvagedFramesExact | src/storage.rs:2735-2812 | A salvaged segment replays to exactly the stranded frames if and only if their values decode. |
| RepairOutcome.SettleAllFresh | src/storage.rs:1100-1248 | Settling all tears in Repair mode cuts each file that had frames saved, and the active one, leaves the others, and puts the saved runs into new segments at the next free ids, or fails exactly when those run out. |
| RepairCrash.RepairPointsAre | src/storage.rs:1313-1350 | Each named point of a repair is the directory it starts from or one it goes through, as `Recovery.OpenPoints` lists them. |
| RepairCrash.CrashHalts | src/storage.rs:1313-1350 | Power loss at any named point leaves the first so many tears settled, the others untouched, and at most one salvage begun, whose marker names the next free id. |
| RepairRerun.SettleAllResumed | src/storage.rs:1399-1452 | Settling the tears found after that saves what was left to save, to the ids it would have gone to. |
| RepairTwice.RerunReachesSame | src/storage.rs:1399-1452 | Opening in Repair mode again after a power loss at any named point: both are refused for want of ids, or both run with the same segments and the same replay of each; the bytes are the same if and only if the same segment is active or neither has a bare torn tail left. |
| RepairReopen.RepairThenOpen | src/storage.rs:1205-1227 | Opening in Default mode after a repair always runs, on exactly the repaired frames, and serves the newest of them for every key if and only if no pointer leads into a damaged segment that is not active. |
| Engine.StorageEngine.constructor | src/storage.rs:363-460 | An engine before recovery: empty indexes. |
| Engine.StorageEngine.PruneTimestampEntry | src/storage.rs:3047-3063 | Drops the current pointer's time entry and its charge, if it is filed. |
| Engine.StorageEngine.ApplyFrame | src/storage.rs:3825-3866 | Updates both indexes and the byte count in place as `Index.Apply` says. |
| Engine.FrameRecord | src/storage.rs:3468-3485 | The header and payload writes produce the record's frame. |
| Engine.StorageEngine.ChargeEntry | src/storage.rs:3632-3668 | The budget loop admits or names the first key that does not fit. |
| Engine.StorageEngine.FrameItems | src/storage.rs:3669-3703 | The framing loop appends exactly the frames of the entry's records. |
| Engine.StorageEngine.RollOverSegment | src/storage.rs:3718-3763 | The rollover, with its failure exits, and each disk a crash could find. |
| Engine.StorageEngine.WriteBatch | src/storage.rs:3765-3820 | Write, sync and index application, with their failure exits. |
| Engine.StorageEngine.ApplyRecords | src/storage.rs:3820-3963 | The application loop over the batch's frames and offsets. |
| Engine.StorageEngine.ExecuteBatchAppend | src/storage.rs:3355-3978 | The whole group commit: new state, crash points and answers are those of `Flusher.Flush`, about which the safety theorems speak. |
| Engine.StorageEngine.ReplayFrame | src/storage.rs:855-946 | The merge rule on one replayed frame. |
| Engine.StorageEngine.ReplaySegment | src/storage.rs:762-982 | The replay loop over one segment: frames merged, where and why it stopped, and what choosing the active segment needs. |
| Engine.StorageEngine.ReplayAll | src/storage.rs:736-982 | The pass over all segments. |
| Engine.StorageEngine.RemoveSegmentKeys | src/storage.rs:1212-1227 | A corrupt inactive segment's keys leave the primary index with their charges. |
| Engine.StorageEngine.WriteFile | src/storage.rs:3020-3037 | A file created, written, synced and its directory entry made durable, with the disk after each. |
| Engine.StorageEngine.WriteSalvage | src/storage.rs:1399-1452 | The steps of a salvage on disk, with each disk a crash could find, or nothing when no id is left. |
| Engine.StorageEngine.FindStranded | src/storage.rs:1269-1283 | The valid frames behind a tear. |
| Engine.StorageEngine.ProcessTear | src/storage.rs:1250-1381 | The decision on one tear in each mode, what it does to disk and index, and each disk a crash could find. |
| Engine.StorageEngine.Recover | src/storage.rs:689-1095 | The whole of recovery and counter seeding leaves the state of `Recovery.Open`, or its error with the disk it leaves, having gone through the disks of `Recovery.OpenPoints`. |
| Engine.StorageEngine.Lookup | src/storage.rs:1957-1976 | A point lookup returns the live record of the compound key. |
| Engine.StorageEngine.ScanByTimeRange | src/storage.rs:3169-3220 | Exactly the live records of the stream in the range, by timestamp and then sequence id, whatever stale entries there are. |
| Engine.TakenIsNew | src/storage.rs:3196-3212 | The scan never meets a key again that it has already returned. |
| Engine.StorageEngine.ScanLiveStream | src/storage.rs:2051-2109 | All live records of the stream by sequence id, or an error exactly when the limit is reached. |
| Engine.StorageEngine.Compact | src/storage.rs:2302-2520 | Run on its own, compaction leaves the active segment and the output and no other, serves the same data, keeps the whole invariant, and leaves the database all there is on disk if it was; then nothing is pending, and no later power loss changes it. |
| Engine.StorageEngine.UnlinkInputs | src/storage.rs:2497-2508 | The inputs are removed, in ascending order, each removal keeping the invariant. |
| TimeIndex.RangeOf | src/storage/timestamp_index.rs:36-44 | A range scan lists exactly the entries with timestamps in the range, in key order. |
| TimeIndex.TimestampIndex.Range | src/storage/timestamp_index.rs:36-44 | The same for the index object. |
| TimeIndex.TimestampIndex.Insert | src/storage/timestamp_index.rs:26-28 | Adds or replaces one entry. |
| TimeIndex.TimestampIndex.Remove | src/storage/timestamp_index.rs:31-33 | Removes one entry and reports whether it existed. |
| SequenceMatching.SequenceMatcher.Process | src/executor.rs:60-96 | A record is emitted exactly when it completes a chain of all steps from the committed start inside the window; past the window the start is abandoned and the record may be the next one. |
| SequenceMatching.DetectSequences | src/executor.rs:2426-2437 | The stage emits exactly the records at which the stateless reference says patterns complete. |
| SequenceMatching.EmissionsComplete | src/executor.rs:60-104 | Every emission ends a chain within the window, completed as early as any ordered selection from its start could be, and chains of different emissions are disjoint. |
| SequenceMatching.CommittedChainEmitted | src/executor.rs:60-104 | A pattern that completes from a committed start is emitted there. |
| SequenceMatching.LapsedStart | src/executor.rs:70-84 | A start not completed within the window is given up at the first record past it, which may be the next start; without one nothing more is emitted. |
| SequenceMatching.SortSorted | src/executor.rs:2430 | Sorting permutes the records, orders them by timestamp, and keeps the order of equal ones. |
| SequenceMatching.SingleStepNeverEmits | src/executor.rs:60-70 | A pattern of one step never emits. |
| Cosine.Accumulate | src/executor.rs:516-530 | The three sums, each within i64 at every step for lengths below 2^49. |
| Cosine.DotSquaredAtMostNorms | src/executor.rs:516-538 | The squared dot product is at most the product of the norms, with equality for equal vectors. |
| Cosine.LimitIsExact | src/executor.rs:516-530 | At length 2^49 an accumulator can leave i64. |
| Cosine.CosineSimilarity | src/executor.rs:516-538 | The similarity, `None` for unequal or empty vectors and zero for zero vectors. |
| Cosine.ScoreRange | src/types.rs:60-64 | Scores lie in -1..1, a vector scores 1 with itself unless it is zero, and the score is symmetric. |
| Cosine.ScoreMeans | src/executor.rs:516-538 | The score has the sign of the dot product, and its size times the product of the norms is the dot product squared. |
| Cosine.OppositeScore | src/executor.rs:516-538 | Negating one vector negates the score. |
| VectorSearch.ItemsToI8 | src/executor.rs:408-438 | The strict conversion succeeds exactly when every element is an int8, and preserves all elements. |
| VectorSearch.VectorExact | src/executor.rs:408-438 | A value converts to given elements if and only if it is that vector or an array of those numbers, signed or unsigned. |
| VectorSearch.ScoreRecordExact | src/executor.rs:2002-2044 | A record is a candidate with the score of its vector if the field stands for one of the length of the query, is passed over if it lacks the field, and is an error otherwise. |
| VectorSearch.VectorSearch | src/executor.rs:2002-2044 | An error exactly for k = 0 or an unusable value; otherwise the first min(k, n) of all candidates, by score descending, then sequence ascending. |
| VectorSearch.KeptIsTop | src/executor.rs:2002-2044 | What the bounded heap retains is the head of the full sort. |
| Filters.OrderOperators | src/executor.rs:330-360 | All six comparisons are those of one equality and one order: numeric if both sides are numbers, else of the values. |
| Filters.OtherOperators | src/executor.rs:290-328 | `startsWith`, `endsWith` and `contains` hold of prefixes, suffixes and substrings of strings, `in` of members of an array, and `between` of numbers that lie in a closed interval of two numbers. |
| QueryPaths.FieldEqualities | src/executor.rs:213-223 | An equality on a field selects the records that have that key, stream, id, timestamp or value, and on any other name those with that field inside their value. |
| FilterParser.ReadStringLiteral | src/parser.rs:238-277 | The character loop reads a literal as the recursive grammar says. |
| FilterParser.ParseAndExpr | src/parser.rs:423-434 | The loop over conjuncts builds the left-nested conjunction. |
| FilterParser.ParseOrExpr | src/parser.rs:410-421 | The loop over disjuncts builds the left-nested disjunction. |
| FilterGrammar.FilterExact | src/parser.rs:410-553 | A text parses to a filter, with a given rest, if and only if it is written from a tree of the grammar with that meaning: any blanks between tokens, parentheses anywhere, `and` binding before `or`, both grouping to the left, values as literals, numbers in range, arrays and int8 vectors. |
| FilterGrammar.Unambiguous | src/parser.rs:410-553 | No text is written from two trees of different meaning. |
| FilterGrammar.StageSound | src/parser.rs:410-553 | Whatever the parser accepts is such a text. |
| FilterGrammar.ValueReads | src/parser.rs:485-553 | Every spelling of a value reads as that value, whatever follows that is no digit and no point. |
| FilterRoundTrip.LeftNestedMeans | src/executor.rs:225-246 | Regrouping to the left leaves nothing grouped to the right and evaluates the same on every record. |
| FilterRoundTrip.LiteralExact | src/parser.rs:238-277 | A text in quotes reads back as itself if and only if it has no quote and escapes nothing. |
| FilterRoundTrip.EscapedRoundTrip | src/parser.rs:238-277 | Every text can be written as a literal, by escaping quotes, backslashes, line ends and tabs. |
| FilterRoundTrip.NumberRoundTrip | src/parser.rs:524-553 | The digits of any number, with a minus or without, read as that number, or are rejected beyond 64 bits. |
| FilterRoundTrip.ValueRoundTrip | src/parser.rs:511-553 | A printed value of the fragment parses to itself. |
| FilterRoundTrip.PrintParseKeepsMeaning | src/types.rs:461-497 | For filters of the fragment, parsing the printed text gives the left-nested form, which evaluates the same on every record. |
| FilterRoundTrip.ParensLost | src/types.rs:488-494 | For every filter with printable leaves the text reads back as the filter regrouped without parentheses, which is the left-nested original if and only if no `or` stands directly under an `and`. |
| FilterRoundTrip.FullFilterRoundTrip | src/parser.rs:436-460 | A filter with printable leaves, written with all its parentheses, reads back as itself. |
| FilterRoundTrip.MeaningLost | src/types.rs:488-494 | For `a and (b or d)` what is read back agrees on a record exactly unless `a` fails and `d` holds. |
| FilterRoundTrip.NotIsTakenFromTheField | src/parser.rs:436-446 | A field that starts with "not" is read as a negation. |
| QueryPaths.KeyPathAgrees | src/executor.rs:1343-1374 | Key lookup, then stages that select no stream and no key, gives what the scan gives, absent aliases. |
| QueryPaths.KeyPathExact | src/executor.rs:635-673 | Without further stages they agree if and only if the compound key is not another stream's alias. |
| QueryPaths.ConjoinedKeyExact | src/executor.rs:652-673 | For a key equality inside a conjunction they agree if and only if there is no record or it satisfies the rest. |
| QueryPaths.KeyFilterSelects | src/executor.rs:652-673 | The key taken from a filter without `not` is the key of every record the filter accepts. |
| QueryPaths.KeyFilterExact | src/executor.rs:1343-1374 | For any filter a key is taken from, key path and scan agree if and only if every live record the filter accepts has that key and, where the filter is dropped, the record found passes it. |
| QueryPaths.NegatedKeyExact | src/executor.rs:652-673 | A negated key equality looks that key up, and agrees with the scan if and only if the stream has no record of another key. |
| QueryPaths.SecondKeyIgnored | src/executor.rs:1256-1266 | Once a key has been looked up, a later `get` or key equality is passed over, which agrees with the scan exactly when it names the same key or there is no record of the first. |
| QueryPaths.KeyPathReads | src/executor.rs:1343-1374 | The key is looked up first, whatever stands before it, and the other stages are applied to what is found. |
| QueryPaths.ScanPathTaken | src/executor.rs:1343-1402 | Without `get`, with key equalities only below an `or`, and a first filter with timestamp comparisons only below `or` or `not`, the pipeline is a scan. |
| QueryPaths.OrIsScanned | src/executor.rs:1343-1402 | An `or` is scanned, whatever it compares. |
| QueryPaths.RangeCovers | src/executor.rs:1270-1306 | The extracted range covers every record the filter accepts, if each bound in it is below 2^53 in size and none is fractional on the losing side. |
| QueryPaths.TimePathAgrees | src/executor.rs:1376-1385 | The time index hands the later stages the same set of records as the scan, and gives the same answer if timestamps keep step with ids. |
| QueryPaths.ToI64Exact | src/executor.rs:1270-1288 | A bound is cut toward zero, and saturates at the ends of the 64-bit range. |
| QueryPaths.BoundExact | src/executor.rs:1270-1288 | For one comparison with a bound below 2^53 in size the range covers every match unless the bound is fractional and positive with `<`, or fractional and negative with `>`; then it misses one timestamp. |
| QueryPaths.OneBoundExact | src/executor.rs:1270-1306 | For a filter of one such comparison the time path finds the records of the scan if and only if the bound is not of that kind or no live record has the one timestamp lost. |
| Reservation.PendingInserts.Mark | src/storage.rs:1595-1600 | Marks a key and reports whether it was free. |
| Reservation.PendingInserts.Release | src/executor.rs:17-23 | Dropping the guard clears exactly the keys it holds. |
| Reservation.PendingInserts.ReserveAll | src/executor.rs:1448-1475 | A batch reserves all its keys exactly when they are distinct, absent and free; otherwise the pending set is as before. |
| Reservation.NextOk | src/executor.rs:1404-1493 | Every step of any caller or of the flusher keeps the reservation invariant. |
| Reservation.InsertsAreUnique | src/executor.rs:1404-1493 | In every interleaving no key is held by two inserts, the pending set is exactly the held keys, a successful insert's key is in the index while still held unless deleted, and two inserts of a key have a delete between them. |
| Reservation.LateInsertFails | src/executor.rs:1404-1440 | An insert checked after another was applied fails unless a delete came between. |
| WireCodec.Encode | src/codec.rs:128-160 | Appends exactly the version 1 frame to the buffer. |
| WireCodec.Decode | src/codec.rs:36-82 | Consumes nothing while the first frame is incomplete; otherwise takes it off whole and decodes or rejects it. |
| WireCodec.WholeFrame | src/codec.rs:89-120 | An encoded frame at the head of a buffer decodes to itself and leaves the rest. |
| WireCodec.Receive | src/codec.rs:36-160 | However a stream of frames is cut into chunks, repeated decoding yields exactly those frames in order; a short stream yields the frames wholly inside. |
| WireCodec.LegacyRecognised | src/codec.rs:41-46 | A legacy frame is told apart from a version 1 frame exactly from length 2^25 on. |
| WireCodec.UntaggedFrame | src/codec.rs:48-122 | A whole frame behind a version 0, version 1 or recognisable legacy header is taken off and nothing else; without a discriminator it decodes to the message it holds, unless that begins like one; an empty payload is rejected. |

## Left out

- Frames.ScanCut: prefix cuts only; damaged payloads are in `Damage`. A damaged header is not characterised, as the checksum covers the payload alone. Stream names are below 2^16 bytes and payloads below 2^32, as the format's length fields require.
- Recovery.Settle: a tear is settled on the file as it then is; the code looks no further than the length replay saw. The two differ only after the crash named under RepairTwice.RerunReachesSame.
- OpenAfterCrash.OpenShelved: directories of engines that are never compacted; `TornTail.OpenTorn` has the others.
- CrashSafety.RunsAreSafe: engines that are never compacted; `Outages` has the runs with compaction.
- CrashSafety.OpenAfterAnyOutage: as `CrashSafety.RunsAreSafe`.
- CrashSafety.AckedWritesSurviveExactly: as `CrashSafety.RunsAreSafe`; with compaction the other two ways come in.
- FailedFlusher.TwinKept: no compaction begins once a rollover has failed between naming the new segment and making it durable, as the old active segment would then be an input.
- Outages.RunsServe: openings in Default mode, and compaction after failed commits as `FailedFlusher.TwinKept` has it. Failures of recovery's own operations are not steps.
- Outages.RunOutageExact: asks that no deleted key has come back since the directory was last quiet (after a power loss it is), as that key may be only in a segment that is not durable. What then becomes of the other keys is not stated.
- Compaction.InterleavingsServe: a group commit is one step, though power may be lost at each point inside it (`CommitCrash`).
- Compaction.BeginStep: reading the active id and listing the directory is one step here, in which the id is current; `LateListing` has the two apart.
- OutlivedTombstone.DeletedKeyReturns: starts from a directory that satisfies the invariant, not from the empty one.
- ReturnedRemoval.ReturnedTombstone: likewise.
- UnsyncedBatch.AcknowledgedWriteDropped: starts from the directory that a kill between the write and the sync of a batch leaves.
- RepairTwice.RerunReachesSame: named points are before and after each durable step, and the salvage file written and synced with its directory entry pending. A power loss before the marker or the salvage file is synced is not among them: a salvage file found cut is torn itself, and the rerun rewrites it after having listed its tear. The first opening starts without markers. The marker holds two fixed-width numbers instead of decimal text, and a damaged segment's full copy has one name per source instead of one per second.
- Repair.RepairThenReopen: a directory without markers of interrupted repairs, and the replay pass of the next opening; `RepairTwice` and `RepairReopen` go on from there.
- RepairReopen.RepairThenOpen: asks that all salvaged values decode, as otherwise a salvaged segment is torn itself (`Repair.SalvagedFramesExact`).
- Engine.StorageEngine.Recover: the stream limit, the Strict-mode index limit and lock timeouts are not modelled.
- Engine.StorageEngine.Compact: I/O failures of a compaction are steps of the interleaved system (`AbortStep`, `CopyFailStep`, `UnlinkFailStep`, `FinishFailStep`), not of this method. Per-stream time indexes are values of a map in the engine object, not shared objects.
- Engine.StorageEngine.ScanByTimeRange: the branch for a key already seen is shown to be dead instead of being carried out.
- Engine.StorageEngine.ScanLiveStream: without the retry after a concurrent compaction, and for callers that set no limit of their own.
- SequenceMatching.SequenceMatcher.Process: timestamps are unbounded, so an overflow of their difference is not modelled.
- Cosine.CosineSimilarity: exact arithmetic; a score is the signed square of the cosine, which orders candidates the same. Rounding to `f64` may tie scores that differ here.
- VectorSearch.VectorSearch: results carry the score beside the record; merging it into the record's JSON is not modelled.
- FilterParser.IsAlphabetic: identifiers are ASCII; floats are read by a parameter.
- FilterGrammar.FilterExact: asks that no field named just `not` is compared with an operator that is a word, as such a text may be read as a negation.
- QueryPaths.TimePathAgrees: other stages are arbitrary functions of the records before them; `history()` pipelines and filters in other positions are not equivalent to the scan and not claimed; negated key equalities are in `QueryPaths.NegatedKeyExact`.
- QueryPaths.BoundExact: bounds of 2^53 and more in size, where the rounding of timestamps itself loses matches.
- Reservation.Reserve: the index check and the mark are one step, which the write lock gives only for callers that hold it.
- PowerLoss.Tracker.Materialize: renames are not modelled, as no modelled operation renames.
- Sequence ids, segment ids and byte counts are unbounded; the code's saturating additions near 2^64 are not modelled.
- Retention, the history scan, metrics, high-water warnings, broadcast delivery, the file-handle cache, group-commit timing, and sync modes other than "always".
- Server, sessions, TLS, REST, command line and user interfaces: input and output only.
- MessagePack, JSON, CRC-32 and floating point internals.
