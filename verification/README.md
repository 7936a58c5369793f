# RichGraph: update pipeline, compaction and heap structures, verified

This project models the parts of RichGraph where a mistake would lose or hide data, and proves what they promise. It follows the default configuration: multi-version reads on, none of the optional compile-time variants.

**The property-update pipeline.** An update is acknowledged once it is in the pending map and in a buffer. One worker flushes full buffers. Each flush becomes immutable delta files, committed to a manifest and published in a per-column chain, while merge workers fold chain prefixes into fixed-width base columns and compaction moves records between files. `Records`, `DeltaBatch`, `ColumnChain`, `DeltaStore`, `StoreRuns` and `StoreMarks` model the delta store as a transition system whose steps are the mutex-protected regions and durable writes. `UpdateManager` and `Pipeline` compose it with submitters, buffers, the flush worker and compaction, and `Visibility` states the results over all runs. `Submitters` adds the calling threads with their program counters and the mutex, `SubmitSteps` shows that the manager's methods do what those threads do, `LostBuffers` and `TwoSubmitters` say what wake-ups can lose, and `GroupOrder` when the order of a flush matters. `BufferObject`, `Packing`, `DeltaFormat`, `DeltaFiles`, `DeltaDamage`, `ReadView`, `ManifestFormat`, `ManifestLog`, `Manifest`, `Topology` and `ColumnMerge` are the code below the steps: the buffers as an object, the file formats and checksums down to the byte, the searches, and the in-place column merge. `ColumnBytes` follows the bytes of one column through whole runs of the store.

**Compaction.** `CompactionInputs` picks and selects files, `Subcompactions` and `CompactionPlan` plan parallel ranges, `EdgeMerge` merges, `ParallelMerge` joins the workers of a plan, `TableWriter` and `TableStreams` read and write table files, `CompactionRun` joins merge and writer, `LevelIndex` keeps the per-vertex index, and `LevelRuns` puts them together over any sequence of flushes, compactions and level moves; `EdgeConservation` counts the edges through such sequences. `CompactionStep` is one pass of the compaction loop as an object, proved to be a step of that model.

**Heap structures.** `SkipNodes` and `SkipList` are the memtable skip list with its cached insert position; `VersionCounts` and `VersionSet` are the reference-counted level-0 versions.

## Main results

- `Visibility.AcknowledgedIsVisible`: in every interleaving of submits, flushes, attachments, merges and compactions, a read that consults the pending map first and the column later returns, for every update acknowledged before it began, that update or a newer one.
- `Submitters.DrainPublishesAll` and `Submitters.SoleSubmitterKeepsCapacity`: in every run with one submitting thread, a successful drain has published everything acknowledged before it, no buffer exceeds its capacity and no update is stranded. That a wake-up finds an empty active buffer is derived from the threads' program counters.
- `StoreRuns.MergingIsInvisible`, `StoreRuns.CrashLosesNothingCommitted` and `StoreRuns.RecoveryExists`: merging never changes a read, a crash between any two durable steps loses nothing committed, and recovery is always possible.
- `StoreMarks.ToldIsPersistent`, `StoreMarks.IdleBelowThreshold` and `StoreMarks.NoFileIsLeftBehind`: what the store was told is durable stays marked until a crash and is merged below the threshold, and no delta file is forgotten on disk.
- `SubmitSteps.SubmitRefines`, `SubmitSteps.RetryRefines`, `SubmitSteps.ResumeRefines` and `SubmitSteps.FatalIsFinal`: each method of the manager ends as the moves of one thread between taking and releasing the mutex do; once a flush failed nothing is acknowledged again, in any run.
- `ManifestLog.SessionsRecover`, `ManifestLog.ReadIsWritten` and `ManifestLog.ReadDamaged`: log recovery is exact over any number of sessions that end with a record cut at any byte or with a wrong byte in it, replays only what was written, and never a damaged record.
- `DeltaDamage.EveryByteCounts`: no accepted delta file stays acceptable after a change of any one byte. It rests on `Packing.OneByteChangesSum`: one step of the checksum is injective in the byte and in the sum.
- `DeltaFiles.CreatedFileReadsLikeBatch` and `ReadView.Lookup`: from a submitted batch through bytes, validation, binary search and pruning to the same answer as the batch.
- `ColumnMerge.MergeRefinesOverlay`, `ColumnMerge.MergesAddUp` and `ColumnBytes.ByteReadIsPublished`: the in-place slot merge refines overwriting a map, repeated merges keep the earlier ones, and through any run of merges, crashes and recoveries the bytes on disk and in memory read as the store model says.
- `CompactionPlan.PlanCompaction` and `ParallelMerge.MergeInParallel`: from the input files alone, the workers get disjoint source ranges, none merges more ways than there are level-0 inputs plus one, and together they write every input edge exactly once, as one sorted stream. This settles the doubt noted at src/compaction.cpp:1416-1420: boundaries are sources of the inputs and every file is cut at every boundary, so the overlap described there does not arise.
- `EdgeConservation.EdgesAreConserved`: over any sequence of flushes, compactions and moves the files of all levels hold every flushed edge exactly as often as it was flushed, but for last outputs that were never published.
- `LevelRuns.LevelsStayDisjoint` and `LevelRuns.IndexAgreesWithFiles`: over any sequence of flushes, compactions and moves, where a compaction is selection, merge, writer and index update, every level below the first stays in order of disjoint ranges, file ids stay unique and the level index stays exact. `CompactionStep.Compactor.CompactLevel` is such a step.
- `SkipList.FastPathAgrees`, `SkipList.MemSkipList.PutEdge`, `VersionSet.LevelZeroVersions.LogAndApply`.

## Where the code does less than one might expect

Each has a counterexample or an exact condition.

- A slot gives back a value exactly when it fits and does not end in a zero byte (`ColumnMerge.SlotRoundTripIff`). Delta reads return the raw value, so merging is invisible for such values only.
- Merging applies files in chain order while lookups take the greatest commit (`Records.MergeKeepsVersionIff`). A flush keeps that order, however its groups are walked, exactly when updates of one record in one buffer that name different targets carry one commit (`GroupOrder.AlwaysOrderedIff`); `GroupOrder.RebindingRegresses` is a buffer for which a merge brings an older value back.
- A wake-up rescans whatever is active. It strands the updates of a non-empty active buffer (`Submitters.RescanStrandsIff`), which takes two submitters (`TwoSubmitters.TwoSubmittersStrand`), and it loses an empty one, for which one suffices (`LostBuffers.LostCount`, `TwoSubmitters.OneSubmitterLosesBuffer`).
- A submission that waits after handing over a buffer does not check capacity again (`BufferObject.ResumeKeepsCapacityIff`); two submitters can overfill a buffer (`TwoSubmitters.TwoSubmittersOverfill`).
- An append accepts payloads that recovery refuses (`ManifestLog.AppendReadsBackIff`, `ManifestLog.OversizedEditExists`).
- The last output file of a compaction is dropped when its edge count is a positive multiple of the buffer capacity (`TableStreams.WriteMerged`, `CompactionRun.OutputsCoverIff`, `TableStreams.FlushedFileIsLost`, `EdgeConservation.LosesNothingIff`).
- Validation of a delta file checks neither its least commit nor that direction bytes are 0 or 1, while lookups rely on both (`DeltaFiles.PruningIff`, `DeltaFiles.LookupIff`). `DeltaFiles.WrongBoundIsMissed` and `DeltaFiles.StrangeByteIsMissed` are accepted files that a lookup gets wrong; files written by `Create` satisfy both conditions.

## Hypotheses

- Updates of one topology record within one buffer name the same target, and every updated record is located somewhere (guard of `Start` in `Pipeline`).
- `Visibility.AcknowledgedIsVisible` is for a topology record that shares its pending entry with no other version of the same edge, that is, for an unchanged topology record.
- Fewer than 2^64 commits and manifest edits; delta files smaller than 2^64 bytes.
- Drain and capacity results are for one submitting thread, any number of draining ones and the worker; visibility, FIFO and conservation are for any number of submitters.
- No append follows a failed append to the manifest, and edits are within the payload limit.
- Every source id is below the reserved vertex id and every stored sequence number at most the reserved newest one; the reserved file id is a parameter. The definitions of these constants are not part of this model.
- An output file has room for one edge, and the index buffer of the writer is never exceeded.
- `ColumnBytes` is for delta records that have a slot and whose values a slot gives back.
- The index result is for runs whose compactions published their last files; the disjointness result is for all runs.

## Model

| member | source | states |
|---|---|---|
| `Records.KeyOrderIsTotal` | src/property_delta.cpp:139-152 | the logical-key order is a total order that agrees with equality |
| `Records.NewestMisses` | src/property_delta.cpp:523-609 | a lookup misses exactly when no record has the key and a commit within the read limit |
| `Records.NewestHits` | src/property_delta.cpp:523-609 | the record found has the greatest commit within the limit, and stands last among equal commits |
| `Records.NewestAppend` | src/property_delta_store.cpp:69-92 | the newest of two stretches is the newer of their newest, ties to the later stretch |
| `Records.OrderedNewestIsLast` | src/lsmstore.cpp:960-990 | when commits never decrease per key, the greatest commit is the last record written |
| `Records.OverlayIdempotent` | src/property_delta_store.cpp:475-518 | writing a prefix of the deltas before the whole sequence leaves the same column |
| `Records.OrderedViewIsOverlay` | src/property_delta_store.cpp:54-107 | over an ordered chain a reader sees the base column overwritten by the chain |
| `Records.MergeKeepsVersionIff` | src/lsmstore.cpp:956-990 | for arbitrary chains: merging a prefix keeps the version read exactly when no newer prefix commit is left behind |
| `GroupOrder.AlwaysOrderedIff` | src/property_update_manager.cpp:325-341 | whatever order the groups of a buffer are walked in, every chain gets its records in commit order exactly when updates of one topology record that name different targets carry one commit |
| `GroupOrder.RebindingRegresses` | src/lsmstore.cpp:777-794 | a buffer with two updates of one record, its table compacted in between: both rebound to one chain, newer group first, and merging makes the older value visible again |
| `DeltaBatch.SortIsSorted` | src/property_delta.cpp:258 | the stable sort orders by key, then commit, and keeps every record |
| `DeltaBatch.DedupeIncreasing` | src/property_delta.cpp:259-267 | after dropping superseded versions the records strictly increase and all come from the input |
| `DeltaBatch.FileReadsLikeBatch` | src/property_delta.cpp:258-267 | for every key and read limit the stored records answer like the submitted batch, last submitted winning among equal commits |
| `DeltaBatch.FileLast` | src/property_delta.cpp:258-267 | for a commit-ordered batch, the last record of each key is the same in the file |
| `DeltaBatch.Deduplicate` | src/property_delta.cpp:259-267 | the loop computes one record per version, the last one |
| `Packing.UnpackOfPack` | src/property_delta.cpp:21-55 | a packed little-endian structure reads back as its fields, whatever follows it |
| `Packing.PackOfUnpack` | src/property_delta.cpp:21-55 | writing the fields that were read gives back the bytes |
| `Packing.ExtendAppend` | src/property_delta.cpp:74-86 | checksumming in pieces equals checksumming the whole |
| `Packing.MixInjective` | src/property_delta.cpp:74-86 | one step of the checksum with another byte or another sum so far gives another sum |
| `Packing.OneByteChangesSum` | src/property_delta.cpp:74-86 | changing one byte of any data changes its checksum |
| `DeltaFormat.DiskRoundTrip` | src/property_delta.cpp:44-55 | a 48-byte record reads back as written, signed base sequence included |
| `DeltaFormat.HeaderRoundTrip` | src/property_delta.cpp:22-43 | a 120-byte header reads back as written |
| `DeltaFormat.TableRoundTrip` | src/property_delta.cpp:204-213 | record `i` of the table loads as record `i` that was laid out |
| `DeltaFormat.DisksPoint` | src/property_delta.cpp:269-298 | each disk record points inside the value area at exactly its own value |
| `DeltaFormat.CommitBounds` | src/property_delta.cpp:272-297 | the header's commit bounds are the least and greatest commits of the file, and are attained |
| `DeltaFormat.AcceptedIsSound` | src/property_delta.cpp:412-488 | any accepted file has readable values and sorted records |
| `DeltaFormat.EncodedOpens` | src/property_delta.cpp:300-373 | the written file is accepted and holds exactly the records, target, generation and bounds it was written from |
| `DeltaFiles.Create` | src/property_delta.cpp:242-383 | fails exactly for an empty batch, the reserved file id, an over-long value or a file that does not fit 64-bit offsets; otherwise yields the encoded file of the sorted, deduplicated batch |
| `DeltaFiles.OpenAndValidate` | src/property_delta.cpp:386-507 | accepts exactly the well-formed files, which `DeltaDamage` pins down byte by byte, and returns their header data |
| `DeltaDamage.EveryByteCounts` | src/property_delta.cpp:386-507 | whichever one byte of an accepted file is changed, and however, the result is refused |
| `DeltaDamage.WrongPayloadSum` | src/property_delta.cpp:449-457 | an accepted file relabelled with another payload sum and a fresh header checksum is refused |
| `DeltaDamage.AcceptedIsLabelled` | src/property_delta.cpp:412-448 | an accepted file spells the format, version and header size byte by byte, names a kind, and has exactly the declared length |
| `DeltaFiles.SearchDecides` | src/property_delta.cpp:532-590 | the split points of the two binary searches determine the newest version |
| `DeltaFiles.Lookup` | src/property_delta.cpp:523-609 | on every file that points inside itself the loops find what the two bisections on the raw bytes find |
| `DeltaFiles.FoundIsAnswer` | src/property_delta.cpp:523-609 | in every accepted file whose direction bytes are 0 or 1 the two bisections find the newest version, after the least-commit prune |
| `DeltaFiles.PruningIff` | src/property_delta.cpp:532-536 | skipping a file by its header's least commit is right for every key and limit exactly when that bound holds of every record |
| `DeltaFiles.LookupIff` | src/property_delta.cpp:386-609 | an accepted file without repeated versions is searched correctly for every key and limit exactly when its direction bytes are 0 or 1 and its least commit is true |
| `DeltaFiles.StrangeByteIsMissed` | src/property_delta.cpp:455-492 | an accepted file with direction byte 2 whose record no lookup finds |
| `DeltaFiles.WrongBoundIsMissed` | src/property_delta.cpp:386-507 | an accepted file with a wrong least commit that a lookup at the record's own commit skips |
| `DeltaFiles.CreatedFileReadsLikeBatch` | src/property_delta.cpp:242-609 | end to end: every storable batch makes a file that opens, has true bounds, and answers every lookup like the batch |
| `ReadView.Lookup` | src/property_delta_store.cpp:54-107 | newest-first search with commit pruning returns the maximum over all records of all files, ties to the later file |
| `ReadView.SkippedFile` | src/property_delta_store.cpp:70-74 | a file skipped by its commit bounds cannot change the best candidate |
| `ReadView.FilesHoldChain` | src/property_delta_store.cpp:358-364 | the opened files of a chain hold the records the chain stands for, so the search is a read of the view |
| `ColumnChain.OpenAttachKeeps` | src/property_delta_store.cpp:256-282 | registering a chain keeps the column invariant |
| `ColumnChain.CreateFileKeeps` | src/property_delta_store.cpp:300-312 | creating the delta file, before it is committed, keeps the invariant |
| `ColumnChain.CommitAddKeeps` | src/property_delta_store.cpp:314-327 | the manifest addition keeps the invariant: the manifest names exactly the live files in order |
| `ColumnChain.PublishAddKeeps` | src/property_delta_store.cpp:328-346 | publishing the new view keeps the invariant, also in the middle of a merge |
| `ColumnChain.CaptureKeeps` | src/property_delta_store.cpp:454-474 | capturing a prefix, or releasing an idle chain, keeps the invariant |
| `ColumnChain.RenameBaseKeeps` | src/lsmstore.cpp:1018-1033 | replacing the base file before the manifest knows keeps the invariant |
| `ColumnChain.DropPrefixKeeps` | src/property_delta_store.cpp:488-491 | the manifest removal keeps the invariant: exactly the merged prefix leaves |
| `ColumnChain.PublishMergeKeeps` | src/property_delta_store.cpp:493-525 | the publisher finds its prefix unchanged; merged base plus remaining deltas keep the invariant |
| `ColumnChain.UnlinkKeeps` | src/property_delta.cpp:509-521 | unlinking a merged file keeps every file the manifest names |
| `ColumnChain.DiskHoldsCommitted` | src/property_delta_store.cpp:146-217 | at every moment the disk alone reads as all committed records over the original values |
| `ColumnChain.ReplayMergedPrefix` | src/property_delta_store.cpp:475-491 | replaying a prefix that is already in the base changes nothing |
| `ColumnChain.CrashKeeps` | src/property_delta_store.cpp:126-145 | a crash between any two durable steps leaves a recoverable column |
| `ColumnChain.ReopenKeeps` | src/property_delta_store.cpp:146-245 | recovery restores the invariant and reschedules chains at the threshold |
| `ColumnChain.ReadIsPublished` | src/property_delta_store.cpp:358-364 | a reader sees exactly the original values overwritten by everything published |
| `DeltaStore.NextKeeps` | src/property_delta_store.cpp:256-607 | every enabled step of attachers, workers, synchronous merges, promotion, crash and recovery keeps the store invariant |
| `DeltaStore.TakenJob` | src/property_delta_store.cpp:416-442 | the job a worker takes carries the only ownership of its chain |
| `DeltaStore.BarrierKeeps` | src/lsmstore.cpp:1036-1045 | raising and lowering the compaction barrier keeps the store invariant |
| `StoreRuns.ReachableInv` | src/property_delta_store.cpp:256-607 | the store invariant holds in every state of every run |
| `StoreRuns.MergingIsInvisible` | src/property_delta_store.cpp:444-529 | no step of attaching, promoting, scheduling or merging changes any read of any column; only publishing does |
| `StoreRuns.PublishingShowsTheBatch` | src/property_delta_store.cpp:328-338 | publishing a delta makes exactly the last write of each of its keys visible |
| `StoreRuns.CrashLosesNothingCommitted` | src/property_delta_store.cpp:126-245 | crash after any step, then recovery: every durable column reads the committed deltas over the base on disk, which is every committed record |
| `StoreRuns.RecoveryExists` | src/property_delta_store.cpp:126-245 | after a crash at any moment recovery is possible: the remaining columns open and the store comes up |
| `StoreRuns.OneMergeOwner` | src/property_delta_store.cpp:339-345 | each chain has at most one merge owner, exactly one when it is marked busy, and the prefix checks never fail |
| `StoreRuns.PersistentBelow` | src/property_delta_store.cpp:531-539 | a persistent chain of an idle store has fewer than threshold deltas |
| `StoreMarks.ToldIsPersistent` | src/property_delta_store.cpp:378-414 | in every run, once the store was told that a table is durable, by a mark, an attachment or recovery, the chains of that target are persistent until the next crash |
| `StoreMarks.IdleBelowThreshold` | src/property_delta_store.cpp:380-405 | an idle store has fewer than threshold deltas on every target it was told about since the last crash |
| `StoreMarks.NoFileIsLeftBehind` | src/property_delta_store.cpp:460-527 | in every state of a running store each delta file on disk is named by the manifest, being attached, being merged or waiting for its last reader |
| `StoreRuns.SynchronousMergeEmptiesChain` | src/property_delta_store.cpp:574-607 | in every run a synchronous merge publishes behind the barrier with its capture still the whole chain, and leaves the chain empty |
| `UpdateManager.GroupMembers` | src/property_update_manager.cpp:325-332 | a flush group holds exactly the records addressed to its target |
| `UpdateManager.GroupKeepsOrder` | src/property_update_manager.cpp:325-332 | a group is the records addressed to its target in submission order, first to last |
| `UpdateManager.GroupEndsWithLast` | src/property_update_manager.cpp:325-332 | of several updates of one record in a buffer, the last submitted is the last of its group |
| `UpdateManager.PublishAllCovers` | src/property_update_manager.cpp:100-111 | after publishing a batch every one of its keys has a pending value at least as new, and no other entry got older |
| `UpdateManager.LastSubmittedWins` | src/property_update_manager.cpp:100-111 | of several updates of one key in a batch, the pending map ends with the one submitted last |
| `UpdateManager.OtherKeysUntouched` | src/property_update_manager.cpp:100-111 | publishing a batch changes no key that the batch does not name |
| `UpdateManager.RetireAllKeepsNewer` | src/property_update_manager.cpp:113-125 | retiring a buffer never removes an entry a newer update wrote |
| `UpdateManager.FirstFree` | src/property_update_manager.cpp:165-170 | the scan finds the least free buffer, or there is none |
| `BufferObject.PropertyUpdateManager.constructor` | src/property_update_manager.cpp:43-64 | one active and otherwise free, empty buffers; commits start above the recovered ones |
| `BufferObject.PropertyUpdateManager.Create` | src/property_update_manager.cpp:52-57 | options with fewer than two buffers, without capacity or not enabled are refused, all others accepted |
| `BufferObject.PropertyUpdateManager.ActivateFree` | src/property_update_manager.cpp:138-145 | the scan activates the first free buffer, whatever is active already |
| `BufferObject.PropertyUpdateManager.QueueActiveBuffer` | src/property_update_manager.cpp:157-172 | a non-empty active buffer is queued and the first free one takes its place; an empty one stays |
| `BufferObject.PropertyUpdateManager.PublishPending` | src/property_update_manager.cpp:100-111 | the pending value is replaced unless a greater commit is there |
| `BufferObject.PropertyUpdateManager.RetirePending` | src/property_update_manager.cpp:113-125 | the loop erases exactly the entries whose commit is still the flushed one |
| `BufferObject.PropertyUpdateManager.BatchBytes` | src/property_update_manager.cpp:192-200 | the running sum is the batch cost, or the batch does not fit one buffer |
| `BufferObject.PropertyUpdateManager.PublishBatch` | src/property_update_manager.cpp:218-223 | every update of the batch gets the one commit and is visible afterwards |
| `BufferObject.PropertyUpdateManager.AppendToActive` | src/property_update_manager.cpp:224-227 | the batch goes to one buffer and the byte count stays exact |
| `BufferObject.PropertyUpdateManager.PlaceBatch` | src/property_update_manager.cpp:218-236 | one commit, published, buffered, and the buffer handed over when full |
| `BufferObject.PropertyUpdateManager.SubmitBatch` | src/property_update_manager.cpp:183-237 | every refusal with its exact condition and nothing changed; otherwise the reply and state that `SubmitSteps.SubmitRefines` shows to be those of the thread's moves |
| `BufferObject.PropertyUpdateManager.ResumeSubmit` | src/property_update_manager.cpp:135-146 | a submission that slept after handing over a buffer rescans whatever is active, then continues without a capacity check |
| `BufferObject.PropertyUpdateManager.RetrySubmit` | src/property_update_manager.cpp:135-146 | a submission that slept before any hand-over rescans and then does everything a new one would |
| `SubmitSteps.SubmitRefines` | src/property_update_manager.cpp:183-237 | every uninterrupted submission of one thread, from taking the mutex to giving it back, ends in the reply, manager and log that `SubmitBatch` computes, with nothing else changed |
| `SubmitSteps.RetryRefines` | src/property_update_manager.cpp:132-155 | so does a thread that slept before handing over a buffer, with `RetrySubmit` |
| `SubmitSteps.ResumeRefines` | src/property_update_manager.cpp:132-155 | so does a thread that slept after handing over a buffer, with `ResumeSubmit` |
| `SubmitSteps.SubmitExists` | src/property_update_manager.cpp:183-237 | from every state without the mutex held such a submission exists for every admissible batch of known records |
| `SubmitSteps.FatalAcceptsNothing` | src/property_update_manager.cpp:146-149 | a failed manager accepts no batch, at the first try or on waking up; a new submission leaves it unchanged, a wake-up moves no record |
| `SubmitSteps.FatalIsFinal` | src/property_update_manager.cpp:370-384 | once a flush failed, in every run of any number of threads no batch is given a commit or acknowledged again |
| `SubmitSteps.MutexAlways` | src/property_update_manager.cpp:132-237 | in every run one thread at a time holds the mutex, and a batch is under way exactly while a thread places it |
| `SubmitSteps.RestsWhenUnlocked` | src/property_update_manager.cpp:132-237 | a thread that finds the mutex free finds no batch half submitted |
| `BufferObject.AcceptedPlacement` | src/property_update_manager.cpp:202-236 | an accepted batch joins the active buffer exactly while it fits there, and that buffer is handed over exactly when it has no records or bytes to spare |
| `BufferObject.PropertyUpdateManager.BeginDrain` | src/property_update_manager.cpp:388-394 | a drain refuses after a failure and else hands the active buffer over |
| `BufferObject.PropertyUpdateManager.EndDrain` | src/property_update_manager.cpp:395-413 | a drain that waited reports a failure or leaves an active buffer behind if one is free |
| `BufferObject.PropertyUpdateManager.TakeBuffer` | src/property_update_manager.cpp:349-357 | the worker takes the buffer queued first |
| `BufferObject.PropertyUpdateManager.GroupBuffer` | src/property_update_manager.cpp:320-332 | the loop groups the buffer by target in submission order |
| `BufferObject.PropertyUpdateManager.FinishFlush` | src/property_update_manager.cpp:362-384 | a flushed buffer is emptied and freed or reactivated; a failed one is kept and the manager stops |
| `BufferObject.SubmitKeepsCapacity` | src/property_update_manager.cpp:183-237 | a submission that does not block after a hand-over keeps every buffer within both capacities |
| `BufferObject.ResumeKeepsCapacityIff` | src/property_update_manager.cpp:135-146 | told from the state before waking: the capacities hold exactly when a buffer is free, none is active, or the active one has room for the batch |
| `PipelineManager.StartKeeps` | src/property_update_manager.cpp:218-223 | taking a commit keeps the system invariant |
| `PipelineManager.PublishOneKeeps` | src/property_update_manager.cpp:100-111 | publishing one update of a running submission keeps the system invariant |
| `PipelineManager.AcknowledgeKeeps` | src/property_update_manager.cpp:224-236 | buffering and acknowledging a batch keeps the system invariant |
| `PipelineManager.RotateKeeps` | src/property_update_manager.cpp:157-172 | rotating buffers keeps the system invariant, FIFO order included |
| `PipelineManager.RescanKeeps` | src/property_update_manager.cpp:135-145 | the unguarded rescan keeps the system invariant |
| `PipelineManager.TakeKeeps` | src/property_update_manager.cpp:349-357 | handing a buffer to the worker keeps the system invariant |
| `PipelineManager.RetireKeeps` | src/property_update_manager.cpp:113-125 | retiring one flushed update keeps every acknowledged update visible |
| `PipelineManager.DoneKeeps` | src/property_update_manager.cpp:362-384 | finishing or failing a flush keeps the system invariant |
| `PipelineFlow.OpenGroupKeeps` | src/lsmstore.cpp:756-794 | relocating a group's records to their current files loses none of them |
| `PipelineFlow.SendKeeps` | src/lsmstore.cpp:795-813 | handing a relocated part to the delta store keeps the system invariant |
| `PipelineFlow.AttachedKeeps` | src/property_delta_store.cpp:328-346 | publication of a part makes its updates visible in their column |
| `PipelineFlow.CompactKeeps` | src/lsmstore.cpp:1036-1045 | moving records to a new file behind the barrier keeps every shown version |
| `PipelineFlow.InternalKeeps` | src/property_delta_store.cpp:366-607 | the store's own steps keep the system invariant |
| `Visibility.CanIsReady` | src/property_update_manager.cpp:318-344 | commit order along every chain follows from FIFO flushing; it is never assumed of a flush |
| `Visibility.ReachableSystem` | core/property_update_manager.h:45-52 | the system invariant holds in every state of every run, and every action does what the model says |
| `Visibility.AcknowledgedIsVisible` | src/graph_db.cpp:1639-1666 | an update acknowledged before a read began is seen by it, or a newer one is, when the read consults pending values first and the column later, in any interleaving |
| `Visibility.PendingReadIsOwn` | src/property_update_manager.cpp:263-289 | in every run what an exact lookup finds pending was submitted for the very record it asks for |
| `Visibility.AcknowledgedIsConserved` | src/property_update_manager.cpp:132-237 | in every reachable state the acknowledged updates are exactly the flushed ones plus those in the buffers, each once |
| `Visibility.FlushedInCommitOrder` | src/property_update_manager.cpp:346-386 | a buffer taken earlier carries only smaller commits than one taken later |
| `Submitters.ProgramRefines` | src/property_update_manager.cpp:132-237 | every state of every interleaving of submitting and draining threads, with their program counters and the mutex, ends a run of the pipeline |
| `Submitters.SoleSubmitterKeepsCapacity` | src/property_update_manager.cpp:132-237 | in every run with one submitting thread no buffer exceeds its capacities, no update is stranded, and a wake-up finds an empty active buffer or none |
| `Submitters.DrainPublishesAll` | src/property_update_manager.cpp:388-413 | with one submitting thread a drain that succeeds has flushed everything acknowledged before its call and left none of it pending; drained by that thread itself, nothing is pending and exactly what was acknowledged is flushed |
| `Submitters.DrainedIff` | src/property_update_manager.cpp:388-413 | with any number of submitters, when a drain may succeed everything acknowledged is flushed or in the active buffer exactly when nothing is stranded |
| `Submitters.RescanStrandsIff` | src/property_update_manager.cpp:135-145 | a wake-up beside a free buffer strands updates exactly when the active one holds any |
| `LostBuffers.LostCount` | src/property_update_manager.cpp:135-145 | in every run the buffers lost are as many as the wake-ups that found a free buffer beside an active one; they stay lost, and at least one buffer stays usable |
| `LostBuffers.OnlyWakingLoses` | src/property_update_manager.cpp:135-145 | only a woken submitter loses a buffer, never a drain or the worker |
| `TwoSubmitters.FlushOne` | src/property_update_manager.cpp:318-384 | from every reached calm state the worker can complete the flush of a queued update, down to the delta file and back to a free or active buffer |
| `TwoSubmitters.TwoSubmittersStrand` | src/property_update_manager.cpp:135-145 | a run of two submitters over two buffers that strands an acknowledged update |
| `TwoSubmitters.TwoSubmittersOverfill` | src/property_update_manager.cpp:213-216 | a run of two submitters over two buffers that fills one beyond its byte capacity |
| `TwoSubmitters.OneSubmitterLosesBuffer` | src/property_update_manager.cpp:135-145 | a run of one submitter that loses one of its two buffers |
| `ManifestFormat.AddRoundTrip` | src/property_delta_manifest.cpp:167-221 | an addition decodes to the entry that was encoded |
| `ManifestFormat.RemoveRoundTrip` | src/property_delta_manifest.cpp:223-259 | a removal decodes to the names that were encoded |
| `ManifestFormat.RemoveCanonical` | src/property_delta_manifest.cpp:238-259 | every payload that decodes as a removal is the encoding of what it decodes to |
| `ManifestFormat.EditRoundTrip` | src/property_delta_manifest.cpp:368-384 | a logged edit is read back as the edit that was written |
| `ManifestFormat.LogHeaderRoundTrip` | src/property_delta_manifest.cpp:24-32 | a 36-byte record header reads back as written |
| `ManifestLog.ReadWritten` | src/property_delta_manifest.cpp:327-388 | a complete record is read as its edit and sequence number, whatever follows |
| `ManifestLog.ReadTorn` | src/property_delta_manifest.cpp:324-349 | any strict prefix of a record ends the replay without an error |
| `ManifestLog.ParseLog` | src/property_delta_manifest.cpp:323-388 | replaying a log of complete records is the fold of its edits |
| `ManifestLog.RecoverLog` | src/property_delta_manifest.cpp:297-402 | recovery of complete records followed by a torn one is exact: entries, last sequence number and length |
| `ManifestLog.EventKeeps` | src/property_delta_manifest.cpp:297-474 | an append, or a cut of the last record at any byte and a restart, keeps memory equal to the replay of the disk |
| `ManifestLog.SessionsRecover` | src/property_delta_manifest.cpp:297-474 | after any number of appends, cuts, wrong bytes in the last record and restarts, memory and disk hold exactly the complete records, with strictly increasing sequence numbers |
| `ManifestLog.ParseIsReplay` | src/property_delta_manifest.cpp:297-402 | whatever the file holds, a recovery that succeeds is the replay of readable records with rising numbers, and keeps exactly their length |
| `ManifestLog.ReadIsWritten` | src/property_delta_manifest.cpp:331-402 | a record that is replayed has exactly the bytes an append writes for it, zero padding given |
| `ManifestLog.ReadDamaged` | src/property_delta_manifest.cpp:331-366 | a record with one byte changed outside its length field is never replayed: past that field it stops recovery at the end of the file and is an error before it |
| `ManifestLog.RecoverDamaged` | src/property_delta_manifest.cpp:357-364 | behind any good log a record with a wrong byte past its length field is cut off at the end of the file and fails recovery before it |
| `ManifestLog.ForeignIsBad` | src/property_delta_manifest.cpp:331-345 | a record with another magic, version or kind, or one that declares too much, is an error wherever it stands |
| `ManifestFormat.AddCanonical` | src/property_delta_manifest.cpp:115-153 | an addition that decodes names a plain file and, with zero padding, is the encoding of what it decodes to |
| `ManifestFormat.ValidNameIff` | src/property_delta_manifest.cpp:155-160 | an entry name is accepted exactly when, resolved part by part from any directory, it leads to an entry of that very directory under itself |
| `ManifestLog.AppendReadsBackIff` | src/property_delta_manifest.cpp:334-342 | an accepted append can be recovered exactly when its payload is at most 2^30 bytes |
| `ManifestLog.OversizedEditExists` | src/property_delta_manifest.cpp:411-441 | an edit that an append accepts and recovery refuses exists |
| `ManifestLog.AddIsUpdate` | src/property_delta_manifest.cpp:261-271 | an addition replaces the entry of its name in place or goes last; nothing else moves |
| `ManifestLog.RemoveIsFilter` | src/property_delta_manifest.cpp:273-281 | a removal drops exactly the named entries |
| `ManifestLog.AddTouchesOneColumn` | src/property_delta_manifest.cpp:261-271 | an addition changes the entries of its own column only |
| `ManifestLog.RemoveActsPerColumn` | src/property_delta_manifest.cpp:273-281 | a removal acts on each column's entries by itself |
| `Manifest.DecodeRemoval` | src/property_delta_manifest.cpp:238-259 | the decoding loop computes the decoded name list, or fails |
| `Manifest.DeltaManifest.OpenAndRecover` | src/property_delta_manifest.cpp:297-402 | the recovery loop returns the replay, cuts the torn tail, and restores exactly the complete records |
| `Manifest.DeltaManifest.AppendRecord` | src/property_delta_manifest.cpp:411-441 | one record is appended under the next sequence number, or nothing changes |
| `Manifest.DeltaManifest.AppendAdd` | src/property_delta_manifest.cpp:443-455 | a plain file name is logged and applied, anything else refused without effect |
| `Manifest.DeltaManifest.AppendRemove` | src/property_delta_manifest.cpp:457-474 | an empty removal succeeds without logging; invalid names are refused without effect |
| `Topology.Find` | src/SSTable.cpp:75-88 | the binary search finds the source's index entry, or there is none |
| `Topology.FindEdge` | src/lsmstore.cpp:157-198 | bisection plus scan returns what a plain scan for the first match returns |
| `Topology.FirstMatchIsNewest` | src/lsmstore.cpp:155-198 | the first match of a sorted group has the greatest sequence of all matches |
| `Topology.LocationIsInjective` | src/lsmstore.cpp:844-875 | no two topology records share a property slot, and none has two |
| `Topology.Locate` | src/lsmstore.cpp:844-875 | finds the slot of the newest live version with the given sequence, or there is none |
| `ColumnMerge.SlotRoundTripIff` | core/fixed_property_layout.h:87-119 | a slot gives back exactly the values that fit it and do not end in a zero byte |
| `ColumnMerge.TrimTrailingZero` | core/fixed_property_layout.h:104-109 | the loop removes exactly the trailing zero bytes |
| `ColumnMerge.WriteSlot` | core/fixed_property_layout.h:87-97 | the slot holds the padded or cut value and nothing else changes |
| `ColumnMerge.PatchedSlot` | core/fixed_property_layout.h:79-83 | writing one slot changes no other slot |
| `ColumnMerge.WriteRecords` | src/lsmstore.cpp:960-990 | one file's records are written in order, or the first record without a slot is reported |
| `ColumnMerge.MergeColumn` | src/lsmstore.cpp:877-990 | refuses foreign, empty and unlocatable requests and accepts exactly the others; then every slot holds the last record of its key, or what the column readers use now holds there, which is the table's own only before the first merge |
| `ColumnMerge.MergeRefinesOverlay` | src/lsmstore.cpp:956-990 | the merged bytes stand for the column overwritten by the records, for values a slot gives back |
| `ColumnMerge.MergesCompose` | src/lsmstore.cpp:910-990 | merging a second batch over the result of a first is merging both over the original column |
| `ColumnMerge.MergesAddUp` | src/lsmstore.cpp:910-990 | any number of merges, each over the result of the last, keeps every earlier one |
| `ColumnMerge.MergeRefinesRename` | src/property_delta_store.cpp:475-518 | the bytes a merge writes stand for the base that the store's rename and publication steps install |
| `ColumnBytes.BytesFollowTheStore` | src/property_delta_store.cpp:444-529 | in every run, through any number of merges, crashes and recoveries, the base file stands for the stored column and the mapped bytes for the base readers use |
| `ColumnBytes.ByteReadIsPublished` | src/property_delta_store.cpp:54-107 | in every such state reading a slot through mapped bytes and delta files gives the original value overlaid with everything published |
| `CompactionInputs.OverlappingAtZero` | src/compaction.cpp:99-133 | the restarting scan terminates with exactly the files meeting the least interval that contains the request and that no file crosses |
| `CompactionInputs.Overlapping` | src/compaction.cpp:99-133 | a deeper level gives exactly the files meeting the request |
| `CompactionInputs.GetRange` | src/compaction.cpp:79-97 | the range is the exact hull of the inputs |
| `CompactionInputs.MeetingGrows` | src/compaction.cpp:149-166 | a larger range that meets equally many files meets the same files |
| `CompactionInputs.SetupOtherInputs` | src/compaction.cpp:136-173 | the lower inputs are exact for the final range; the upper inputs grow to all files the whole range meets exactly when that adds upper files and no lower ones |
| `CompactionInputs.RestIsOutside` | src/compaction.cpp:136-173 | a lower file left out does not meet the merged range |
| `CompactionInputs.PickFile` | src/compaction.cpp:26-51 | picks the first file above the level's pointer, else the first of all; on level 0 with everything it overlaps directly or not |
| `CompactionInputs.ByMinRanged` | core/compaction.h:722-730 | sorting disjoint files by least source puts their ranges in order and loses none |
| `Subcompactions.SampleAnchors` | src/compaction.cpp:793-843 | each anchor is the shortest run of sources of its file above the sampling step, begins rise, and together they count every edge |
| `Subcompactions.ChooseBoundaries` | src/compaction.cpp:864-884 | each boundary is at the first anchor, after the one before, where the edges so far exceed the share of one more worker, until the planned number is reached |
| `Subcompactions.RangesBalanced` | src/compaction.cpp:864-884 | between two boundaries lies less than one worker's share, the first anchor not counted |
| `Subcompactions.LowBound` | src/SSTable.cpp:104-119 | the first index entry not below the key |
| `Subcompactions.CutFile` | src/compaction.cpp:888-946 | the pieces partition the file's sources, are cut at boundaries and nowhere else, and a boundary among its sources starts a piece |
| `Subcompactions.PlanPieces` | src/compaction.cpp:886-1013 | all pieces of all files in order of their first source, every source in one, clear of boundaries, apart within one lane |
| `Subcompactions.SourceInOnePiece` | src/compaction.cpp:886-1013 | every source of every input file lies in exactly one planned piece of that file |
| `Subcompactions.PlannedInputsQualify` | src/compaction.cpp:886-1013 | planned pieces meet everything the assignment and the assembly rely on |
| `Subcompactions.AssignShares` | src/compaction.cpp:1447-1478 | every piece goes to exactly one worker, the workers' source ranges are pairwise disjoint, and no boundary falls inside a share |
| `Subcompactions.PlanWorkers` | src/compaction.cpp:1421-1478 | planning and assignment together: every source is covered, every piece has one worker, and the workers' source ranges are pairwise disjoint |
| `Subcompactions.NewWayNeedsNewLane` | src/compaction.cpp:1167-1203 | a piece that fits no way overlaps the last piece of each, so all their files differ |
| `Subcompactions.AssembleWays` | src/compaction.cpp:1167-1203 | first fit puts every piece into exactly one way, each way sorted and disjoint, never more ways than lanes: level-0 inputs plus one |
| `CompactionPlan.PlanBoundaries` | src/compaction.cpp:789-884 | sampling counts every edge of every file, and the boundaries are the anchors that first exceed one, two, three … shares of the headers' total |
| `CompactionPlan.CollectAnchors` | src/compaction.cpp:789-843 | the samples of all files count every edge once, and the total is what the headers add up to |
| `CompactionPlan.PlanCompaction` | src/compaction.cpp:782-1203 | from the input files alone: the pieces partition every file, the workers' shares follow each other and are split at exactly those boundaries, and each share is assembled into at most level-0 inputs plus one sorted ways |
| `ParallelMerge.ReadPiece` | core/compaction.h:227-282 | reading a piece to its end gives exactly its edges |
| `ParallelMerge.PiecesHoldAll` | src/compaction.cpp:886-1013 | whatever the boundaries, the pieces together hold every edge of every input exactly once |
| `ParallelMerge.Work` | src/compaction.cpp:1160-1414 | one worker writes a sorted permutation of the edges of its share |
| `ParallelMerge.MergeInParallel` | src/compaction.cpp:1421-1484 | the workers together write every input edge exactly once, each sorted and each below the next |
| `ParallelMerge.PartsSorted` | src/compaction.cpp:1421-1484 | joined, their outputs are one sorted stream, as one merge over all inputs would give |
| `EdgeMerge.FindMin` | src/compaction.cpp:1133-1148 | the scan finds the least cached edge, the lowest way among equals |
| `EdgeMerge.MergeWays` | src/compaction.cpp:1017-1155 | the output is a sorted permutation of all input edges: it interleaves the ways, each in its own order, by the edge order with ties to the lower way |
| `EdgeMerge.MergeTwoLevels` | src/compaction.cpp:241-525 | the same for two levels of sorted files, ties to the upper level |
| `EdgeMerge.MergeIsSortedPermutation` | src/compaction.cpp:1079-1153 | such an output is sorted and holds every input record exactly once |
| `TableWriter.FileIsSortedTable` | core/compaction.h:456-551 | a written file has increasing sources and every index pair delimits exactly that source's edges |
| `TableStreams.Way.constructor` | core/compaction.h:108-195 | a way over an index range starts at its first edge |
| `TableStreams.Way.NextEdge` | core/compaction.h:227-282 | successive calls return exactly the edges of the index range, with their sources, then nothing |
| `TableStreams.SSTableWriter.Init` | core/compaction.h:419-446 | opens an empty output file |
| `TableStreams.SSTableWriter.Write` | core/compaction.h:456-515 | adds the edge, unless it starts a new source and the file has reached its size: then it publishes the file and refuses the edge |
| `TableStreams.SSTableWriter.WriteEnd` | core/compaction.h:517-571 | publishes the file with its sentinels, range and index |
| `TableStreams.BufferedIff` | core/compaction.h:506-509 | the body buffer is empty exactly after a multiple of its capacity |
| `TableStreams.FlushedFileIsLost` | core/compaction.h:1067-1069 | a sorted stream of two edges that is never published, however it is cut |
| `TableStreams.WriteMerged` | src/compaction.cpp:1079-1153 | the files hold consecutive stretches that split no source, each begun at the first source change that found the file before it full, numbered by the clock; the last one is published exactly when its edge count is not a multiple of the buffer capacity |
| `LevelIndex.LevelTable.RecordFile` | core/compaction.h:678-715 | the loop points every source of the new file at it and clears the replaced upper entries |
| `LevelIndex.LevelTable.MoveFile` | src/compaction.cpp:1520-1600 | the loop moves every entry of the file down one level |
| `LevelIndex.FileEffect` | core/compaction.h:678-715 | publishing a file changes the entries of its own sources on two levels and nothing else |
| `LevelIndex.InvalidMeansAbsent` | src/compaction.cpp:1589-1592 | an entry is invalid exactly when no file of the level holds the vertex |
| `CompactionRun.FileSources` | core/compaction.h:456-551 | a file's index lists exactly the sources of its edges |
| `CompactionRun.MergedSources` | src/compaction.cpp:1017-1155 | a merge has exactly the sources of its inputs |
| `CompactionRun.OutputsAreExact` | core/compaction.h:456-551 | no vertex is in two output files |
| `CompactionRun.OutputsCoverIff` | core/compaction.h:1067-1069 | the outputs hold every merged vertex exactly when the last file was published |
| `CompactionRun.OutputsRanged` | core/compaction.h:456-551 | the outputs come in order of disjoint source ranges within the range of the merge, and each stores sorted edges |
| `LevelRuns.MergedIsSortedPermutation` | src/compaction.cpp:1488-1517 | the merge of either kind of level is a sorted permutation of the edges of the selected files |
| `LevelRuns.CompactionKeepsDisjoint` | src/compaction.cpp:136-173 | selection, merge and writer together leave the level written to in order of disjoint ranges, and no file left out shares a merged vertex |
| `LevelRuns.MoveKeepsDisjoint` | src/compaction.cpp:1604-1619 | files that meet nothing below can be moved down with all ranges still disjoint |
| `LevelRuns.CompactIndex` | core/compaction.h:678-715 | a compaction that published its last files keeps the index exact on every level |
| `LevelRuns.MoveIndex` | src/compaction.cpp:1520-1619 | a level move keeps the index exact on every level |
| `LevelRuns.LevelsStayDisjoint` | src/compaction.cpp:1781-1950 | over any sequence of flushes, compactions and moves: every level below the first is in order of disjoint ranges, files store sorted edges, and no file id occurs twice |
| `LevelRuns.IndexAgreesWithFiles` | src/compaction.cpp:1781-1950 | over any such sequence whose compactions published their last files each entry names the file that holds the vertex, with exactly its range, and is invalid when none does |
| `EdgeConservation.StoredOnce` | core/compaction.h:456-551 | a table file determines the edges it stores |
| `EdgeConservation.EdgesAreConserved` | src/compaction.cpp:1781-1950 | after any sequence of flushes, compactions and moves the files of all levels and the unpublished last outputs together hold exactly the flushed edges, each as often as it was flushed |
| `EdgeConservation.LosesNothingIff` | core/compaction.h:1067-1069 | a compaction keeps every edge exactly when no worker's last file fills its buffer a whole number of times |
| `CompactionRun.LocatedIffNewest` | src/lsmstore.cpp:844-875 | a record is located in a stored file exactly where the newest version of its edge is, and only if that version is live and has its sequence |
| `CompactionStep.MergeInputs` | src/compaction.cpp:1488-1517 | reads the selected files and merges them the way their level calls for, in parallel when workers are planned |
| `CompactionStep.WriteParts` | src/compaction.cpp:1079-1153 | every worker writes its part; all file ids are fresh and different |
| `CompactionStep.Compactor.Select` | src/compaction.cpp:26-51 | picks and selects what the run model calls a selection, and moves the pointer |
| `CompactionStep.Compactor.RecordAll` | core/compaction.h:678-715 | records all published files in the level index |
| `CompactionStep.Compactor.MoveAll` | src/compaction.cpp:1604-1619 | moves the entries of all selected files down |
| `CompactionStep.Compactor.MergeDown` | src/compaction.cpp:1640-1668 | merge, write and record are together a step of the run model |
| `CompactionStep.Compactor.CompactLevel` | src/compaction.cpp:1815-1950 | one pass of the loop, merge or move, starts from the file the level's pointer chose, leaves the pointer at the end of its upper inputs and is a step of the run model, so it keeps levels disjoint, edges conserved and, with its last files published, the index exact |
| `SkipNodes.LinksVisitLevel` | core/neighbors.h:709-732 | following the links of a level visits exactly its nodes, in key order |
| `SkipNodes.LevelsNest` | core/neighbors.h:524-577 | each level is a subsequence of the one below |
| `SkipNodes.InsertKeepsLinks` | core/neighbors.h:569-572 | splicing a node in behind its predecessors keeps every level linked |
| `SkipList.FastPathAgrees` | core/neighbors.h:546-556 | when the key fits behind the last insert, the cached predecessors are what a full search finds |
| `SkipList.LevelsOfList` | core/neighbors.h:524-577 | in every built list level 0 visits all nodes in order and each level nests in the one below |
| `SkipList.MemSkipList.constructor` | core/neighbors.h:368-386 | an empty list |
| `SkipList.MemSkipList.FindLessThan` | core/neighbors.h:779-805 | the predecessors of a key on every level in use |
| `SkipList.MemSkipList.FindGreaterOrEqual` | core/neighbors.h:709-732 | the first node not before the key, early exit included |
| `SkipList.MemSkipList.Position` | core/neighbors.h:546-556 | cache or search, the predecessors are the same |
| `SkipList.MemSkipList.Raise` | core/neighbors.h:560-567 | new levels start at the head |
| `SkipList.MemSkipList.Splice` | core/neighbors.h:569-572 | the loop links the node in on each of its levels and changes no other link |
| `SkipList.MemSkipList.PutEdge` | core/neighbors.h:524-577 | the item goes to its place in key order, for any drawn height; everything else stays |
| `SkipList.MemSkipList.Get` | core/neighbors.h:450-465 | the answer of the first wanted item in key order |
| `SkipList.AnswerIsNewest` | core/neighbors.h:450-496 | that is the newest record of the direction and type, or its tombstone; missing exactly when there is none |
| `VersionCounts.UnrefKeepsCount` | src/SSTable.cpp:141-155 | dropping a held reference keeps counts exact and deletes the file exactly with the last one |
| `VersionCounts.DropVersion` | src/version_set.cpp:20-31 | a dying version's references become references to drop |
| `VersionCounts.AddVersion` | src/version_set.cpp:93-112 | a new version takes over the references taken for it |
| `VersionCounts.RingInsert` | src/version_set.cpp:104-110 | linking a version behind the head keeps the ring |
| `VersionCounts.RingRemove` | src/version_set.cpp:114-119 | unlinking a version keeps the ring of the others |
| `VersionCounts.SortNewestSorts` | src/version_set.cpp:174-177 | the list is sorted newest first and keeps every file |
| `VersionSet.LevelZeroVersions.constructor` | src/version_set.cpp:74-79 | one empty current version |
| `VersionSet.LevelZeroVersions.AddFile` | core/SSTable.h:33 | a new file starts with its base reference |
| `VersionSet.LevelZeroVersions.RetireFile` | src/SSTable.cpp:141-155 | without its base reference the file lives exactly while a version lists it |
| `VersionSet.LevelZeroVersions.TakeSnapshot` | src/superversion.cpp:21-24 | a snapshot holds the current version |
| `VersionSet.LevelZeroVersions.ReleaseSnapshot` | src/superversion.cpp:13-17 | letting go keeps all counts exact; afterwards exactly the files some version lists or their creator holds exist |
| `VersionSet.LevelZeroVersions.UnrefFiles` | src/version_set.cpp:20-22 | the loop drops one reference of each file; files held by others are never deleted |
| `VersionSet.LevelZeroVersions.UnrefVersion` | src/version_set.cpp:11-32 | the last holder takes the version, its references and its links along |
| `VersionSet.LevelZeroVersions.TakeFiles` | src/version_set.cpp:138-162 | the loop references and lists every file that is not deleted |
| `VersionSet.LevelZeroVersions.BuildList` | src/version_set.cpp:129-177 | the new list is newest first and has exactly the kept and added files |
| `VersionSet.LevelZeroVersions.AppendVersion` | src/version_set.cpp:93-112 | the switch keeps all counts; no file of the new version is lost when the old one dies |
| `VersionSet.LevelZeroVersions.LogAndApply` | src/version_set.cpp:129-184 | an edit gives the exact next version, newest first, with exact counts; every snapshot keeps its list and the files on it |

## Left out

- File, memory-map, sync, rename and directory calls: durable state changes in atomic steps; their error paths are not modelled.
- The delta store as objects: its chains, job queue and flags are modelled on values as a transition system, one step per critical section; aliasing of shared views is not captured.
- Skip-list nodes: addressed by allocation number in a sequence the list owns instead of by pointer; reserved nodes are those of height one.
- Version objects and table files: addressed by id in maps instead of by pointer.
- Records added to a memtable after its columns were registered: a column's key set is fixed when the column is added.
- Stopping and shutting down of threads, and fairness of wake-ups: a sleeping thread may wake at any moment, as condition variables allow; that it does wake is not claimed.
- Several shards and graph objects at once: targets carry kind and shard, but routing of properties to shards is not modelled.
- Byte offsets inside table files: offsets count edges, because every edge body has one size; body and property read buffers of a way are abstracted.
- The sort calls: modelled as insertion sorts; the order that an unstable sort gives to equal keys is not relied on.
- The planned merge with a 32-bit copy of the source id (src/compaction.cpp:1265): for ids below 2^32 it is the k-way merge over the assembled ways; larger ids are outside.
- The checksum's strength beyond one byte: that it composes and that any one changed byte changes it, nothing about several.
- `ManifestLog.ReadDamaged`: makes no claim for a changed length field, which moves the end of the record to other bytes, whatever they are.
- `DeltaFiles.Lookup`: the final bounds test on the value is left out, because validation makes it always succeed.
- `DeltaFiles.LookupIff`: for files that repeat a version only one direction holds (`DeltaFiles.FoundIsAnswer`); an identical copy can hide a strange direction byte, and whether it does depends on where the bisection probes.
- Cross-memtable reads, memtable recycling and the level-0 file filter: they depend on an order the code does not fix.
- Snapshot-sequence filtering of edge iterators, CSR rebuild, separate deletion records, in-place edge edits, and the unused neighbour and index variants.
- Parallel compaction threads above level 0, memtable flushes in the middle of a compaction, and the drain of such flushes before it: a compaction is one step of `LevelRuns`.
- Schema parsing, flags, statistics, printing, thread pool, allocators and the random height generator: plumbing.
