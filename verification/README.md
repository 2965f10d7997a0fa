# A model of eXplode

Dafny models of the model-checking and crash-checking core of eXplode, with proofs. One
module per component:

| file | component |
|---|---|
| `Basics.dfy` | options and facts about sequences that several modules use |
| `Sectors.dfy` | sector locations, disks and sector records |
| `Combination.dfy` | mixed-radix enumeration of version vectors |
| `VersionedCache.dfy` | the versioned buffer cache and the crashes it generates |
| `LinuxLog.dfy` | the per-sector state machine that turns kernel records into sector records |
| `Random.dfy` | systematic enumeration and replay of choices |
| `ModelChecker.dfy` | the search: checkpoints, traces, queue, reported bugs |
| `SparseData.dfy`, `RegionWrites.dfy`, `Bytes.dfy` | sparse file contents as regions, writes of regions, bytes |
| `ByteAccess.dfy`, `RegionMap.dfy` | reads, writes and truncations at any byte, on values and in place |
| `DataArchive.dfy` | file contents in archives: canonical data, storing and loading |
| `Hash.dfy` | the signature of no data |
| `Fsck.dfy` | the cache of recovery runs |
| `Powerset.dfy` | subsets of pending deltas with prefix pruning |
| `AbstFS.dfy` | the abstract file system |
| `StableFS.dfy` | pending deltas between the stable and the volatile file system |
| `StableCheck.dfy` | the subsets of pending deltas that a recovered file system is compared with |
| `Canon.dfy` | canonical archives of file systems |
| `Dangling.dfy` | the search for entries that name no object |
| `CompositeIterator.dfy` | stack iterators over component trees |
| `LogBuf.dfy` | the kernel log, its record format and its parser |

`dafny verify dfyconfig.toml` checks the whole project.

Objects that the program updates in place are classes whose methods are proved against
functions on values; the properties are lemmas about those functions, and invariants that
every method keeps. C++ pointers are indices or values: cache nodes are numbered, pages
and stacks are sequences, the ordered map of regions is the sequence of its regions. An
assertion or a panic in the code is a result that says so, or a precondition where the
program demands it of its caller. Calls into foreign code are parameters: the position
hash, the order of directory names, the layout of log records, the application of a
delta, the contents of memory past a buffer.

Where the code does not meet a property, the code is modelled as it is beside the property,
with a failing input and the exact condition:

* `write_region` copies from a wrong offset in two places: it fails at `CodedSplitFails` and
  `CodedMergeFails`, and is right exactly under the condition of `CodedWriteExact`. `pread`
  clears too little: `CodedReadFails`, `CodedReadExact`. For whole writes and truncations:
  `FailingRun`, `PutExact`, `TruncateExact`.
* `unmarshal_data` writes to the archive where it should read: `CopyFails`, `LoadExact`.
* `internal_check` in data.C demands both that neighbours of one kind are merged and that
  all regions are of one kind; the first is the invariant. Canonical data tells contents only
  under it: `CanonNeedsNormal`, `CanonDataIff`.
* `run_real` keeps only the first write of a recovery run: `SecondWriteLost`,
  `FirstOnlyExact`.
* `next` of the powerset tests the skip table before the bound, out of range exactly for ten
  deltas: `Powersets.Check`.
* `next` of the combinations counts in 32 bits: with 2^32 vectors or more it starts again,
  and the final assertion holds exactly when their number fits an int: `StartsAgain`,
  `TotalFails`, `Combination.Next`, `TotalExact`.
* `replay_enter_rename` reuses a name buffer without terminating it: `LongerRenameFails`,
  `RenameDeltasExact`.
* `check` permutes metadata deltas only: its last subset need not be the volatile file
  system, and is exactly when data deltas change nothing: `TouchedFileDiffers`,
  `MetadataGivesVolatile`.
* a new file keeps the signature 0 until it is truncated or written, so an object archive
  tells an empty file that was from one that was not: `CreatAndTruncateDiffer`,
  `ObjectsIff`.
* `replay` does not run trailing transitions that recorded no choice: `StopsEarly`,
  `RegeneratedExact`, and for the states of a search `KeptChoicesExact`.
* an unlock record may remove a sector of another block: `MixedGranularityLosesWrite`,
  `InFlightExact`.
* a crash disk is lost when a write reaches a sector that is not cached:
  `UnseenOverwriteLosesCrash`, `StepKeepsCrashes`, `CoverageExact`.
* `link` and `rename` do not look for cycles: `BelowItselfFails`, `LinkedExact`,
  `RenamedExact`.

## Model

| member | source | states |
|---|---|---|
| `Combinations.TotalExact` | explode-0.1pre/crash/Combination.C:129-134 | The 32-bit `total` is the number of vectors if and only if that number fits an int |
| `Combinations.TotalFails` | explode-0.1pre/crash/Combination.C:129-136 | Counterexample: one ceiling of INT_MAX, 2^31 vectors and a `total` of a million |
| `Combinations.ValueInjective` | explode-0.1pre/crash/Combination.C:82-90 | Vectors below the ceilings have different mixed-radix positions |
| `Combinations.ValueOfBumped` | explode-0.1pre/crash/Combination.C:84-90 | Carrying over positions that are at their ceilings moves to the next position |
| `Combinations.EnumerationIsExact` | explode-0.1pre/crash/Combination.C:72-101 | A complete enumeration holds every vector below the ceilings exactly once |
| `Combinations.Combination.constructor` | explode-0.1pre/crash/Combination.C:120-138 | Sets the ceilings and `total`, so that `total` is the product exactly when the product fits an int |
| `Combinations.Combination.Carry` | explode-0.1pre/crash/Combination.C:82-96 | The increment loop moves to the next position, and runs off the left end exactly at the last one |
| `Combinations.Combination.Next` | explode-0.1pre/crash/Combination.C:56-101 | Below the threshold yields the vectors in order of position and stops exactly after all of them, never when there are 2^32 or more; then `iter == total` if and only if their number fits an int. Above it yields `random_tries + 1` drawn vectors, all below the ceilings |
| `Combinations.StartsAgain` | explode-0.1pre/crash/Combination.C:72-101 | Two ceilings of 65535, 2^32 vectors: the enumeration does not end |
| `Combinations.Combination.RandSubset` | explode-0.1pre/crash/Combination.C:42-49 | A drawn vector is below the ceilings |
| `VersionedCaches.StepOk` | explode-0.1pre/crash/BufferCache.C:264-327 | Every record keeps each version list non-empty, duplicate-free and different from the sector on disk |
| `VersionedCaches.StepKeepsCrashes` | explode-0.1pre/crash/BufferCache.C:303-327 | A record keeps every crash disk possible if and only if it neither overwrites an uncached sector with new contents nor turns checking off, given that no check precedes it |
| `VersionedCaches.CheckedWasPossible` | explode-0.1pre/crash/BufferCache.C:75-104 | Every disk checked during a replay was a possible crash disk after some prefix of the log |
| `VersionedCaches.Coverage` | explode-0.1pre/crash/BufferCache.C:303-327 | Checking only when the cache shrinks and at the end covers every crash disk possible after any prefix, if no record overwrites an uncached sector or turns checking off while it is on |
| `VersionedCaches.CheckedIffPossible` | explode-0.1pre/crash/BufferCache.C:75-104 | Then the disks checked are exactly the disks possible after some prefix of the log |
| `VersionedCaches.CoverageExact` | explode-0.1pre/crash/BufferCache.C:303-327 | For every log: all disks possible after any prefix are checked if and only if those possible at the records that lose some are checked at another time |
| `VersionedCaches.CheckedAt` | explode-0.1pre/crash/BufferCache.C:75-104 | A disk possible before a record that shrinks the cache, or at the end, is checked |
| `VersionedCaches.CheckingStaysOn` | explode-0.1pre/crash/Permuter.C:75-110 | With all crashes wanted, checking that is on stays on |
| `VersionedCaches.UnseenOverwriteLosesCrash` | explode-0.1pre/crash/BufferCache.C:309-313 | Counterexample to coverage without its condition: an uncached write whose old contents are never checked |
| `VersionedCaches.CrashOfInjective` | explode-0.1pre/crash/BufferCache.C:211-225 | Different version vectors give different crash disks |
| `VersionedCaches.CrashDiskVector` | explode-0.1pre/crash/BufferCache.C:211-225 | Every crash disk comes from a version vector |
| `VersionedCaches.EnumerationIsBatch` | explode-0.1pre/crash/BufferCache.C:211-241 | Walking all version vectors lists every crash disk exactly once |
| `VersionedCaches.CrashesPossible` | explode-0.1pre/crash/BufferCache.C:211-225 | Any vectors below the numbers of versions give crash disks of the state |
| `VersionedCaches.BufferPermuter.WrSet` | explode-0.1pre/crash/BufferCache.C:211-225 | The write set of a vector: the chosen version of each sector, none for 0 |
| `VersionedCaches.BufferPermuter.CreateIterator` | explode-0.1pre/crash/BufferCache.C:229-240 | An iterator whose ceilings are the numbers of versions, in cache order |
| `VersionedCaches.BufferPermuter.CheckOneCrash` | explode-0.1pre/crash/Permuter.C:254-276 | Builds the current disk with the write set applied and checks it |
| `VersionedCaches.BufferPermuter.Permute` | explode-0.1pre/crash/Permuter.C:233-242 | Checks one crash disk for each vector of the iterator, in order, until it has yielded all |
| `VersionedCaches.BufferPermuter.CheckCrashes` | explode-0.1pre/crash/BufferCache.C:95-104 | If crashes are enabled, checks every crash disk of the state exactly once, as many as the product of versions plus one; above the threshold only disks that are crash disks of the state. Else none |
| `VersionedCaches.BufferPermuter.Add` | explode-0.1pre/crash/BufferCache.C:264-301 | Takes the abstract step of an add: skipped when on disk or latest, else moved or put at the end of the versions |
| `VersionedCaches.BufferPermuter.RemoveOrWrite` | explode-0.1pre/crash/BufferCache.C:303-327 | Takes the abstract step of a remove or write, after checking only crash disks that are due, and all of them when the cache is not above the threshold |
| `VersionedCaches.BufferPermuter.Replay` | explode-0.1pre/crash/BufferCache.C:75-86 | One record: the abstract step, and the checks that belong to it |
| `VersionedCaches.BufferPermuter.ReplayAll` | explode-0.1pre/crash/BufferCache.C:75-104 | A whole replay and finish check only disks of `IsChecked`, all of them as long as no cache is above the threshold, and leave the cache empty |
| `LinuxLogs.LinuxBlockRecParser.ParseSector` | explode-0.1pre/crash/LinuxLog.h:169-268 | One sector of one record: the sector's new flags and the records emitted, or the lock assertion that fails |
| `LinuxLogs.LinuxBlockRecParser.Parse` | explode-0.1pre/crash/LinuxLog.h:274-308 | A whole record takes the sector steps in order, and fails exactly when one of them fails |
| `LinuxLogs.MixedGranularityLosesWrite` | explode-0.1pre/crash/LinuxLog.h:187-190 | Counterexample with two block sizes: an unlock removes another sector whose write is in flight |
| `LinuxLogs.ParseKeepsDelayed` | explode-0.1pre/crash/LinuxLog.h:214-241 | With one block size, every delayed clear refers to the block of its own sector |
| `LinuxLogs.RecordSpares` | explode-0.1pre/crash/LinuxLog.h:169-257 | A record that does not complete a write in flight keeps it in flight, and emits no remove or write for its sector if and only if it is no unlock that makes up for a clear delayed at that distance |
| `LinuxLogs.LogSpares` | explode-0.1pre/crash/LinuxLog.h:169-257 | Over any log of any block sizes, a sector in flight is taken out of the write set before its completion if and only if some unlock is misdirected to it |
| `LinuxLogs.LogPending` | explode-0.1pre/crash/LinuxLog.h:169-257 | Replaying the emitted records keeps a pending signature if and only if it is on disk, or given to the sector with no misdirected unlock after that |
| `LinuxLogs.InFlightExact` | explode-0.1pre/crash/LinuxLog.h:169-257 | From the submit of a sector to its completion, for any block sizes: exactly when nothing removes the sector, and exactly when the submitted signature is pending or on disk after replay |
| `LinuxLogs.OneBlockDirects` | explode-0.1pre/crash/LinuxLog.h:178-193 | With one block size no unlock is misdirected to a sector in flight |
| `LinuxLogs.InFlightWritesSurvive` | explode-0.1pre/crash/LinuxLog.h:169-257 | In any log of one block size, from a submit to its completion nothing removes the sector, and after replay the submitted signature is pending or on disk |
| `Choices.RunsExact` | explode-0.1pre/mcl/Random.C:86-109 | The listed runs of a choice tree are exactly its runs |
| `Choices.RunsAscending` | explode-0.1pre/mcl/Random.C:129-155 | The listed runs are strictly ascending in lexicographic order |
| `Choices.RestStep` | explode-0.1pre/mcl/Random.C:129-155 | The choices after `repeat` lead to the next run, and `repeat` fails exactly after the last one |
| `Choices.EnumRandom.Random` | explode-0.1pre/mcl/Random.C:90-109 | Old choice points repeat their answers, new ones answer 0 and are recorded, and ceiling 1 is not recorded |
| `Choices.EnumRandom.Repeat` | explode-0.1pre/mcl/Random.C:129-155 | Advances the last choice that is below its ceiling, drops those behind it, stops when there is none, and never wraps 8 bits |
| `Choices.EnumRandom.Execute` | explode-0.1pre/mcl/Random.C:90-109 | One execution follows the recorded choices and then the first choice everywhere, recording the ceilings it met |
| `Choices.EnumRandom.Explore` | explode-0.1pre/mcl/Random.C:129-155 | The run-and-repeat loop yields every run of any finite choice tree once, in lexicographic order, and stops |
| `Choices.ConsumeRun` | explode-0.1pre/mcl/Random.C:56-83 | Answering from a trace that starts with a run reproduces the run and stops behind it |
| `Choices.ReplayRandom.Random` | explode-0.1pre/mcl/Random.C:56-73 | The next recorded choice, or failure exactly when there is none or it is at or above the ceiling |
| `Choices.ReplayRandom.Execute` | explode-0.1pre/mcl/Random.C:56-83 | One execution from a trace consumes exactly its run, and fails exactly when the trace holds none |
| `ModelCheckers.Replay` | explode-0.1pre/mcl/ModelChecker.C:558-565 | The replay loop runs the transitions of the trace up to the last one that recorded a choice, for every path |
| `ModelCheckers.RegeneratedExact` | explode-0.1pre/mcl/ModelChecker.C:558-565 | Replaying the choices of a path leads to its end if and only if the choice-free transitions after the last recorded choice lead back to where they begin |
| `ModelCheckers.StopsEarly` | explode-0.1pre/mcl/ModelChecker.C:558-565 | A harness and a path of two transitions on which the replay loop returns the state before the last |
| `ModelCheckers.KeptChoicesExact` | explode-0.1pre/mcl/ModelChecker.C:235-267 | The choices kept with a found state lead to it if and only if it has its own checkpoint or its last transition recorded a choice; else to a state with another signature |
| `ModelCheckers.DiscoverOk` | explode-0.1pre/mcl/ModelChecker.C:190-309 | Taking a new state keeps the search consistent: every stored state has its path, checkpoint and trace |
| `ModelCheckers.DiscoverReplayable` | explode-0.1pre/mcl/ModelChecker.C:269-311 | Every queued state can be regenerated, as long as states entered without a choice are checkpointed |
| `ModelCheckers.OtherAlong` | explode-0.1pre/mcl/ModelChecker.C:269-311 | States along the path of a found state have other signatures than it |
| `ModelCheckers.ChainTraceIsPath` | explode-0.1pre/mcl/ModelChecker.C:592-611 | The traces along the parent chain of a checkpoint are the choices of a path from the initial state |
| `ModelCheckers.Chain` | explode-0.1pre/mcl/ModelChecker.C:592-611 | Walking up the strictly decreasing parent chain collects the traces from checkpoint 0 on, in order |
| `ModelCheckers.StoredTrace` | explode-0.1pre/mcl/ModelChecker.C:588-630 | The stored trace is the choices of the state's whole path from the initial state |
| `ModelCheckers.AllRunsExpand` | explode-0.1pre/mcl/ModelChecker.C:516-538 | Dealing with every run of a transition leaves every successor signature visited and every failing run reported |
| `ModelCheckers.FinishedCovers` | explode-0.1pre/mcl/ModelChecker.C:492-556 | When the queue is empty every reachable signature is visited, and breadth-first on a path no longer than any other |
| `ModelCheckers.FinishedFindsBugs` | explode-0.1pre/mcl/ModelChecker.C:378-448 | When the queue is empty a bug that can be reached has been reported |
| `ModelCheckers.ModelChecker.SetState` | explode-0.1pre/mcl/ModelChecker.C:235-267 | Restoring a state's checkpoint and replaying its trace, empty or not, gives that state if and only if it has its own checkpoint or its last transition recorded a choice |
| `ModelCheckers.ModelChecker.GetState` | explode-0.1pre/mcl/ModelChecker.C:269-311 | A signature not seen gets the next number, a checkpoint or the parent's trace extended, and a place in the queue; a seen one changes nothing |
| `ModelCheckers.ModelChecker.ProcessReturn` | explode-0.1pre/mcl/ModelChecker.C:378-448 | A finished transition adds its state, a failed one is reported with its choices, an aborted one changes nothing |
| `ModelCheckers.ModelChecker.Transition` | explode-0.1pre/mcl/ModelChecker.C:519-538 | One round runs the next run of the state's transition and deals with its outcome |
| `ModelCheckers.ModelChecker.Expand` | explode-0.1pre/mcl/ModelChecker.C:516-538 | Expanding a state deals with all runs of its transition, each once |
| `ModelCheckers.ModelChecker.ModelCheck` | explode-0.1pre/mcl/ModelChecker.C:492-556 | The search ends with exactly the reachable signatures visited, reports a bug if and only if one can be reached, and breadth-first gives fewest transitions and non-decreasing depths |
| `SparseData.NormalFormUnique` | explode-0.1pre/driver/data.C:168-182 | Two containers of sorted, disjoint, merged regions of pure kinds with the same words are equal |
| `RegionWrites.WriteContents` | explode-0.1pre/driver/data.C:319-469 | A region write stores its words and changes no other word, in all overlap, split and merge cases |
| `RegionWrites.WriteNormal` | explode-0.1pre/driver/data.C:319-469 | A region write keeps the regions sorted, disjoint, merged, and of pure kinds without zero words |
| `RegionWrites.CodedWriteExact` | explode-0.1pre/driver/data.C:374-462 | The copies as coded do what is meant, whatever memory holds, if and only if the write neither splits a regular region that starts past 0 nor merges with a regular region that it overlaps from the left |
| `RegionWrites.CodedSplitFails` | explode-0.1pre/driver/data.C:383-385 | Counterexample: zeroing the middle word of a region at offset 1 |
| `RegionWrites.CodedMergeFails` | explode-0.1pre/driver/data.C:459-462 | Counterexample: a write over the head of a regular region at offset 1 |
| `RegionWrites.WriteAt` | explode-0.1pre/driver/data.C:319-469 | With the copies as meant or as coded, a region write stores its words and leaves what lies before it |
| `RegionWrites.RestKeeps` | explode-0.1pre/driver/data.C:374-462 | Past the region that a coded write copies wrongly, all words are kept |
| `RegionWrites.WriteShape` | explode-0.1pre/driver/data.C:319-469 | Where regions start and end, and their kinds, do not depend on which copies are made |
| `FlatBytes.SameBytesSameRegions` | explode-0.1pre/driver/data.C:168-182 | Two containers in normal form that show the same bytes have the same regions, and so the same canonical data |
| `RegionMaps.FileData.IntersectedRange` | explode-0.1pre/driver/data.C:195-267 | The regions that meet or touch a byte range, and the hull of the range and them |
| `RegionMaps.FileData.HandleFront` | explode-0.1pre/driver/data.C:353-372 | A region across the start of a write is cut, or set aside for merging when of the same kind |
| `RegionMaps.FileData.HandleAcross` | explode-0.1pre/driver/data.C:375-405 | A region across both ends is split in two, or overwritten in place when of the same kind |
| `RegionMaps.FileData.HandleBack` | explode-0.1pre/driver/data.C:408-429 | A region across the end of a write is trimmed, left alone when it only touches, or set aside for merging |
| `RegionMaps.FileData.SetAside` | explode-0.1pre/driver/data.C:335-430 | The loop leaves exactly the regions that stay, and the pieces set aside that belong to the write |
| `RegionMaps.FileData.Merge` | explode-0.1pre/driver/data.C:441-468 | The written region merges with the neighbours set aside, and takes its place in order |
| `RegionMaps.FileData.WriteRegion` | explode-0.1pre/driver/data.C:324-469 | The imperative write yields exactly the specified regions, with the copies as meant or as coded |
| `RegionMaps.FileData.GetType` | explode-0.1pre/driver/data.C:479-496 | Zero, or data of the first magic number whose position hash the word is, or regular data |
| `RegionMaps.FileData.NextRegion` | explode-0.1pre/driver/data.C:500-533 | The longest run of words of one kind |
| `RegionMaps.FileData.StoreRuns` | explode-0.1pre/driver/data.C:560-570 | Writes each run of the buffer as a region, in order, as meant or as coded |
| `RegionMaps.FileData.Align` | explode-0.1pre/driver/data.C:538-558 | The write rounded out to words, with what a read returns around it, as meant or as coded |
| `RegionMaps.FileData.CopyRegion` | explode-0.1pre/driver/data.C:594-614 | The bytes of a region, copied or generated from the position hash |
| `RegionMaps.FileData.Pread` | explode-0.1pre/driver/data.C:577-620 | Each byte from the region that holds it, else what the buffer was set to |
| `ByteAccess.ReadMeant` | explode-0.1pre/driver/data.C:577-620 | With the whole buffer cleared a read shows the contents |
| `ByteAccess.CodedReadExact` | explode-0.1pre/driver/data.C:586-588 | The read as coded shows the contents, whatever memory holds, if and only if every byte it leaves uncleared lies in a region |
| `ByteAccess.CodedReadFails` | explode-0.1pre/driver/data.C:586-588 | Counterexample: reading the word after a region of one word |
| `ByteAccess.StoreAt` | explode-0.1pre/driver/data.C:560-575 | With either copies, the loop over runs stores the words of the buffer and keeps those before it |
| `ByteAccess.StoreExact` | explode-0.1pre/driver/data.C:560-570 | The coded loop over runs does what is meant, whatever memory holds, if and only if no run copies a region wrongly that ends past the buffer |
| `ByteAccess.PutBytes` | explode-0.1pre/driver/data.C:535-575 | As meant, a write stores its bytes and changes no other byte |
| `ByteAccess.PutNormal` | explode-0.1pre/driver/data.C:535-575 | As meant, a write keeps the regions in normal form |
| `ByteAccess.HeadExact` | explode-0.1pre/driver/data.C:538-552 | The read of a write's first word is right if and only if the word is written whole, lies in a region, or the word before it lies in none |
| `ByteAccess.TailRight` | explode-0.1pre/driver/data.C:550-552 | The read of a write's last word is always right |
| `ByteAccess.PutExact` | explode-0.1pre/driver/data.C:535-575 | A coded write at any offset does what is meant, whatever memory holds, if and only if its first word is read rightly and no run copies a region wrongly that ends past it |
| `ByteAccess.TruncatedMeant` | explode-0.1pre/driver/data.C:627-639 | As meant, a truncation cuts the bytes off or leaves the file longer with zeroes, in normal form |
| `ByteAccess.TruncateExact` | explode-0.1pre/driver/data.C:627-639 | A coded truncation does what is meant, whatever memory holds, if and only if its last word is read rightly |
| `RegionMaps.FailingRun` | explode-0.1pre/driver/data.C:535-575 | Counterexample: a word and then the second byte of the next word, written to an empty file, leave the byte between them as memory held it |
| `RegionMaps.FileData.Pwrite` | explode-0.1pre/driver/data.C:535-575 | The regions are those of the write as meant or as coded; if they showed the flat array of all operations so far in normal form they still do, as meant always and as coded under the condition of `PutExact` |
| `RegionMaps.FileData.Truncate` | explode-0.1pre/driver/data.C:627-639 | The same for a truncation, as coded under the condition of `TruncateExact` |
| `RegionMaps.FileData.Read` | explode-0.1pre/driver/data.C:577-620 | A read returns what a zero-initialised flat array holds after the same writes and truncations, as coded when the bytes it leaves uncleared lie in regions |
| `FsckCaches.ExecIsWrites` | explode-0.1pre/crash/Fsck.C:205-257 | Running recovery changes the disk by the writes that follow from its first reads |
| `FsckCaches.ExtractTrace` | explode-0.1pre/crash/Fsck.C:226-252 | The loop over the log keeps first reads of unwritten sectors in order, and writes, up to the first write or all of them |
| `FsckCaches.ExtractIs` | explode-0.1pre/crash/Fsck.C:231-252 | What is extracted from the log of a run are exactly its first reads and its writes |
| `FsckCaches.HitIsRun` | explode-0.1pre/crash/Fsck.C:141-184 | A leaf reached by the reads of a disk holds the writes of the run on that disk |
| `FsckCaches.LinkLookup` | explode-0.1pre/crash/Fsck.C:113-136 | A new node changes only lookups that ended where it is put |
| `FsckCaches.CachedIsExec` | explode-0.1pre/crash/Fsck.C:155-166 | With all writes recorded a hit leaves the disk as running recovery does, for every program and disk |
| `FsckCaches.FirstOnlyExact` | explode-0.1pre/crash/Fsck.C:246-251 | With the first write only, a hit is right on a disk if and only if, in the log of the run, the first write is the last to its sector and every other sector written already holds what is last written to it |
| `FsckCaches.LogWrites` | explode-0.1pre/crash/Fsck.C:231-252 | The writes of a run are what its log writes last to each sector; cut at the first write, that one only |
| `FsckCaches.OneWriteRight` | explode-0.1pre/crash/Fsck.C:246-251 | With the first write only, a hit is right for recovery that writes at most once |
| `FsckCaches.SecondWriteLost` | explode-0.1pre/crash/Fsck.C:250 | Counterexample: recovery that writes two sectors |
| `FsckCaches.Fsck.Visit` | explode-0.1pre/crash/Fsck.C:84-129 | One step down the tree never meets a node for another sector, and extends the tree where it ends |
| `FsckCaches.Fsck.AddToCache` | explode-0.1pre/crash/Fsck.C:53-139 | Adding a missed run never panics, makes its disk hit, and keeps every earlier hit |
| `FsckCaches.Fsck.RunCached` | explode-0.1pre/crash/Fsck.C:141-184 | Hits exactly when the tree has a leaf for the disk, and then applies the cached writes |
| `FsckCaches.Fsck.RunReal` | explode-0.1pre/crash/Fsck.C:205-257 | Runs recovery and makes its disk hit from then on |
| `FsckCaches.Fsck.Run` | explode-0.1pre/crash/Fsck.C:186-203 | The disk is as after running recovery if and only if it missed, all writes are recorded, or the first write suffices; and it hits from then on |
| `Powersets.SubsetMeans` | explode-0.1pre/crash/Powerset.C:44-63 | The subset with a number holds exactly the positions of its ones, ascending |
| `Powersets.Generate` | explode-0.1pre/crash/Powerset.C:50-63 | Entry i of the generated table is the subset with number i |
| `Powersets.FindOrder` | explode-0.1pre/crash/Powerset.C:158-172 | The number of bits of its argument minus one |
| `Powersets.PrefixSteps` | explode-0.1pre/crash/Powerset.C:174-184 | A subset is an ascending prefix of another if and only if their numbers agree in the low bits |
| `Powersets.Powerset.SkipPrefix` | explode-0.1pre/crash/Powerset.C:174-184 | Marks exactly the subsets that have the current one as an ascending prefix |
| `Powersets.Powerset.Next` | explode-0.1pre/crash/Powerset.C:107-156 | The next subset not marked; an out-of-range test exactly when the subsets of ten elements run out |
| `Powersets.Check` | explode-0.1pre/driver/StableFS.C:169-193 | The pruned loop visits exactly the subsets whose deltas apply in order, each once, and tests out of range if and only if there are ten deltas |
| `AbstFs.LinkedCounted` | explode-0.1pre/driver/AbstFS.C:392-405 | A link keeps every count equal to the number of entries, and no entry dangling |
| `AbstFs.UnlinkedCounted` | explode-0.1pre/driver/AbstFS.C:407-418 | An unlink keeps the counts right, and removes the object if and only if its last entry goes |
| `AbstFs.LinkedAcyclic` | explode-0.1pre/driver/AbstFS.C:392-405 | A link to an object that does not lead to the parent keeps the graph acyclic |
| `AbstFs.LinkedExact` | explode-0.1pre/driver/AbstFS.C:392-405 | A link keeps the counts right, and the file system well formed if and only if the child does not lead to the parent |
| `AbstFs.CreatedWellFormed` | explode-0.1pre/driver/AbstFS.C:361-405 | A new object under a free name keeps the file system well formed |
| `AbstFs.UnlinkedWellFormed` | explode-0.1pre/driver/AbstFS.C:407-418 | Removing an entry keeps the file system well formed |
| `AbstFs.RenamedWellFormed` | explode-0.1pre/driver/AbstFS.C:452-467 | A rename keeps the file system well formed, keeps every object, and changes only the one entry |
| `AbstFs.RenamedExact` | explode-0.1pre/driver/AbstFS.C:452-467 | A rename keeps the counts right and every object, and the file system well formed if and only if what it moves does not lead to where it is moved |
| `AbstFs.BelowItselfFails` | explode-0.1pre/driver/AbstFS.C:440-467 | Counterexample: a directory linked or renamed below itself |
| `AbstFs.AbstFS.WalkPath` | explode-0.1pre/driver/AbstFS.C:300-359 | Follows the names of a path from the root |
| `AbstFs.AbstFS.Creat` | explode-0.1pre/driver/AbstFS.C:428-438 | Adds a file under a free name, with the signature of a file never truncated or written, and keeps the invariant, or fails unchanged |
| `AbstFs.AbstFS.Mkdir` | explode-0.1pre/driver/AbstFS.C:492-503 | Adds an empty directory under a free name and keeps the invariant, or fails unchanged |
| `AbstFs.AbstFS.Symlink` | explode-0.1pre/driver/AbstFS.C:480-490 | Adds a symbolic link under a free name and keeps the invariant, or fails unchanged |
| `AbstFs.AbstFS.Link` | explode-0.1pre/driver/AbstFS.C:440-450 | Adds an entry for any object but the root, for which an assertion fails, and keeps the invariant if and only if that makes no cycle; or fails unchanged |
| `AbstFs.AbstFS.Unlink` | explode-0.1pre/driver/AbstFS.C:469-478 | Removes an entry and keeps the invariant; exactly an object with one entry disappears |
| `AbstFs.AbstFS.Rmdir` | explode-0.1pre/driver/AbstFS.C:505-518 | Removes an empty directory and keeps the invariant, and fails unchanged on anything else |
| `AbstFs.AbstFS.Rename` | explode-0.1pre/driver/AbstFS.C:452-467 | Moves an entry to a free name and keeps every object, and the invariant if and only if it is not moved below itself; or fails unchanged |
| `AbstFs.AbstFS.Truncate` | explode-0.1pre/driver/AbstFS.C:529-538 | Sets a file's length, cutting or zero-filling its bytes, gives it the signature of its bytes, and keeps the invariant |
| `AbstFs.AbstFS.Pwrite` | explode-0.1pre/driver/AbstFS.C:582-592 | Writes bytes into a file, extending it with zeroes, gives it the signature of its bytes, and keeps the invariant |
| `StableFs.FitsCounted` | explode-0.1pre/driver/StableFS.C:1001-1092 | A delta that fits applies and keeps the counts right |
| `StableFs.CopyIsRelinked` | explode-0.1pre/driver/AbstFS.C:1414-1443 | A copy rebuilt by making all delayed links again, in any order, has the same objects and entries, and every count is the number of entries |
| `StableFs.CopyOfCounted` | explode-0.1pre/driver/AbstFS.C:257-271 | Copying a file system whose counts are right gives the same file system |
| `StableFs.MadeLeads` | explode-0.1pre/driver/StableFS.C:841-883 | With a file's final contents in place, the deltas on other objects lead to the same file system |
| `StableFs.FsyncExplained` | explode-0.1pre/driver/StableFS.C:841-883 | After fsync of a file, the remaining deltas still lead from a copy of the stable to the volatile file system |
| `StableFs.ExplainedApplies` | explode-0.1pre/driver/StableFS.C:171-187 | Applying all pending deltas in order to a copy of the stable file system succeeds and gives exactly the volatile one |
| `StableFs.RenameDeltasExact` | explode-0.1pre/driver/StableFS.C:738-763 | The deltas of any rename do what it did if and only if the new leaf is not longer than the old one |
| `StableFs.WrongUnexplained` | explode-0.1pre/driver/StableFS.C:738-763 | After a rename to a longer leaf the pending deltas do not explain the volatile file system |
| `StableFs.RenamedNames` | explode-0.1pre/driver/StableFS.C:738-763 | After a rename the old directory is where it was, and the new one too unless the way to it leads through what was moved |
| `StableFs.LongerRenameFails` | explode-0.1pre/driver/StableFS.C:759-763 | Counterexample: the deltas of renaming /a to /bb do not apply |
| `StableChecks.SetApart` | explode-0.1pre/driver/StableFS.C:118-131 | The loop sorts the pending deltas into metadata and data, in order |
| `StableChecks.MetadataLeads` | explode-0.1pre/driver/StableFS.C:118-187 | Without the data deltas the other deltas still fit in order, and lead to the same objects, entries, counts and modes |
| `StableChecks.PlayedIs` | explode-0.1pre/driver/StableFS.C:1001-1092 | A file's final content is its data deltas applied in order to what it starts with |
| `StableChecks.MetadataApplies` | explode-0.1pre/driver/StableFS.C:118-187 | The pending metadata deltas apply to a copy of the stable file system and give the volatile one but for the contents of files, which are those before the pending data deltas |
| `StableChecks.MetadataGivesVolatile` | explode-0.1pre/driver/StableFS.C:118-187 | They give exactly the volatile file system if and only if the pending data deltas leave the bytes of every file as they were, and touch none that was never truncated or written |
| `StableChecks.TouchedFileDiffers` | explode-0.1pre/driver/StableFS.C:126-127 | A pending creat and any data delta on the new file, a truncation to 0 included, for which they do not |
| `StableChecks.CheckSubsets` | explode-0.1pre/driver/StableFS.C:152-193 | Gives up on more than ten metadata deltas, and else compares exactly the subsets of them that apply in order to the copy and leave no dangling entry, each once, unless one that applies is too deep to be searched |
| `StableChecks.LastSubset` | explode-0.1pre/driver/StableFS.C:169-193 | The last subset applies, leaves no dangling entry, and has the metadata of the volatile file system; it is the volatile file system if and only if the pending data deltas change nothing, signatures included |
| `Danglings.LookSays` | explode-0.1pre/driver/AbstFS.C:919-940 | The search finds a dangling entry if and only if some path from the root ends at one, and gives up only when some path is too long |
| `Danglings.DetectDangling` | explode-0.1pre/driver/AbstFS.C:808-940 | The walk as coded: stops at the first dangling entry, or when it is too deep |
| `Danglings.CountedWhole` | explode-0.1pre/driver/AbstFS.C:919-940 | A file system whose counts are right has no dangling entry |
| `StableFs.StableFS.constructor` | explode-0.1pre/driver/StableFS.C:43-53 | Both file systems are empty and nothing is pending |
| `StableFs.StableFS.Creat` | explode-0.1pre/driver/StableFS.C:346-379 | Creates the file in the volatile file system and appends its two deltas, which keep it explained by the pending ones; a failed call changes nothing |
| `StableFs.StableFS.Ftruncate` | explode-0.1pre/driver/StableFS.C:407-431 | Truncates the file and appends one delta that keeps the volatile file system explained |
| `StableFs.StableFS.Pwrite` | explode-0.1pre/driver/StableFS.C:463-488 | Writes the file and appends one delta that keeps the volatile file system explained |
| `StableFs.StableFS.Mkdir` | explode-0.1pre/driver/StableFS.C:521-552 | Creates the directory and appends its two deltas, which keep the volatile file system explained |
| `StableFs.StableFS.Unlink` | explode-0.1pre/driver/StableFS.C:571-601 | Removes the entry and appends one delta that keeps the volatile file system explained |
| `StableFs.StableFS.Rmdir` | explode-0.1pre/driver/StableFS.C:620-648 | Removes the empty directory and appends one delta that keeps the volatile file system explained |
| `StableFs.StableFS.Link` | explode-0.1pre/driver/StableFS.C:667-691 | Adds the entry and appends one delta that keeps the volatile file system explained; the invariant is kept if and only if that makes no cycle |
| `StableFs.StableFS.Rename` | explode-0.1pre/driver/StableFS.C:710-766 | Renames in the volatile file system and appends the deltas with the name left in the reused buffer, which explain it if and only if the new leaf is not longer; records nothing exactly where looking up the new name fails an assertion, which only a rename below itself does |
| `StableFs.StableFS.Sync` | explode-0.1pre/driver/StableFS.C:826-833 | Nothing is pending and the stable file system is the volatile one |
| `StableFs.StableFS.Fsync` | explode-0.1pre/driver/StableFS.C:841-883 | The file is made stable, exactly its own deltas are dropped, and the volatile file system stays explained; on anything else nothing changes |
| `Canons.OrderIs` | explode-0.1pre/driver/AbstFS.C:808-855 | The numbering holds exactly the objects that the root reaches, each once |
| `Canons.DfsMaps` | explode-0.1pre/driver/AbstFS.C:808-855 | The walk of an isomorphic file system is the image of the walk |
| `Canons.ArchiveInjective` | explode-0.1pre/driver/AbstFS.C:1085-1152 | Equal archives hold equal records, of metadata, and of contents when what is written for a file tells its content |
| `Canons.CanonIff` | explode-0.1pre/driver/AbstFS.C:1322-1349 | Two archives are equal if and only if the reachable parts are isomorphic, preserving type, count, mode, names and link text, and contents when they are written in a way that tells them |
| `Canons.MapsCanon` | explode-0.1pre/driver/AbstFS.C:1322-1349 | Isomorphic file systems have equal archives, whatever the ids |
| `Canons.FilesTold` | explode-0.1pre/driver/AbstFS.C:1113-1123 | Size, stored signature and canonical data of a file tell its bytes and whether it was ever truncated or written, whatever follows |
| `Canons.PutKeeps` | explode-0.1pre/driver/data.C:535-575 | Writing some bytes to an empty file leaves regions in normal form that show just those bytes |
| `Canons.ObjectsIff` | explode-0.1pre/driver/AbstFS.C:1341-1344 | Two object archives are equal if and only if the reachable parts are isomorphic, files hold the same bytes, and no empty file was truncated or written on one side and never on the other |
| `Canons.TouchedDiffers` | explode-0.1pre/driver/AbstFS.C:98-135 | No isomorphism makes up for a file that is truncated or written for the first time |
| `Canons.EmptiedFileDiffers` | explode-0.1pre/driver/AbstFS.C:127-135 | Truncating any reachable new file to 0 leaves an isomorphic file system with the same bytes and another object archive |
| `Canons.CreatAndTruncateDiffer` | explode-0.1pre/driver/AbstFS.C:127-135 | Counterexample: creat of one file, with and without a truncation to 0 |
| `Hashes.NothingIsNotZero` | explode-0.1pre/mcl/lookup2.c:210-267 | The signature of no data is 0xbd49d10d |
| `Canons.VisitOrder.AddToOrder` | explode-0.1pre/driver/AbstFS.C:212-223 | Numbers an object the first time it is seen |
| `Canons.VisitOrder.Walk` | explode-0.1pre/driver/AbstFS.C:808-847 | The recursive walk numbers as specified, and fails exactly when it is too deep |
| `Canons.IdMapToOrder` | explode-0.1pre/driver/AbstFS.C:859-881 | The ids in order of their numbers |
| `Canons.CanonHelper` | explode-0.1pre/driver/AbstFS.C:1322-1339 | Writes the canonical archive, unless the file system is too deep |
| `DataArchives.CellsInjective` | explode-0.1pre/driver/AbstFS.C:1191-1224 | The cells of tagged runs are uniquely readable |
| `DataArchives.ExpandData` | explode-0.1pre/driver/AbstFS.C:1226-1249 | The runs written for a file stand for the bytes of its regions and the gaps between them |
| `DataArchives.CanonDataIff` | explode-0.1pre/driver/AbstFS.C:1226-1249 | Canonical data of two files is equal if and only if they hold the same bytes |
| `DataArchives.CanonNeedsNormal` | explode-0.1pre/driver/AbstFS.C:1191-1249 | Counterexample for regions with zero words at their end |
| `DataArchives.CanonRegion` | explode-0.1pre/driver/AbstFS.C:1197-1224 | The nested loops write a region as runs of other bytes and of zeroes, or as its magic number |
| `DataArchives.CanonAll` | explode-0.1pre/driver/AbstFS.C:1226-1249 | The loop over regions writes gaps and regions in order |
| `DataArchives.LoadMeant` | explode-0.1pre/driver/AbstFS.C:1043-1078 | As meant, the regions stored are the regions loaded, and nothing more is read |
| `DataArchives.LoadExact` | explode-0.1pre/driver/AbstFS.C:1058-1078 | As coded, loading gives back what was stored, whatever memory holds, if and only if no region is regular |
| `DataArchives.CopyFails` | explode-0.1pre/driver/AbstFS.C:1071-1074 | One regular region: what is loaded is what memory held, and the stored data is left to be read as the next field |
| `DataArchives.MarshalData` | explode-0.1pre/driver/AbstFS.C:1043-1056 | Writes the number of regions and each region in order |
| `DataArchives.UnmarshalData` | explode-0.1pre/driver/AbstFS.C:1058-1078 | Loads as many regions as the archive says, and fails exactly where reading or memory fails |
| `CompositeIterators.PreIterator.Next` | explode-0.1pre/crash/composit_iterator.h:182-197 | Moves on by one node of recursive pre-order |
| `CompositeIterators.PreIterator.FindNext` | explode-0.1pre/crash/composit_iterator.h:209-220 | Leaves finished levels without skipping or repeating a node |
| `CompositeIterators.PostIterator.constructor` | explode-0.1pre/crash/composit_iterator.h:251-257 | Starts at the first node of recursive post-order |
| `CompositeIterators.PostIterator.Next` | explode-0.1pre/crash/composit_iterator.h:279-301 | Moves on by one node of recursive post-order |
| `CompositeIterators.PostIterator.PushLeftMost` | explode-0.1pre/crash/composit_iterator.h:313-321 | Goes down to the first node of a subtree's post-order |
| `CompositeIterators.MountAll` | explode-0.1pre/crash/Component.C:99-104 | Mounts the components in exactly recursive post-order |
| `CompositeIterators.UmountAll` | explode-0.1pre/crash/Component.C:106-111 | Unmounts the components in exactly recursive pre-order |
| `CompositeIterators.MountedLast` | explode-0.1pre/crash/Component.C:99-104 | Each component comes right after the post-order of all its descendants |
| `CompositeIterators.UnmountedFirst` | explode-0.1pre/crash/Component.C:106-111 | Each component comes right before the pre-order of all its descendants |
| `LogBuffers.EkmLog.AddBuf` | explode-0.1pre/ekm-common/ekm_log_buf.c:73-107 | Appends the bytes to the concatenation of the pages, all but the last of which are full |
| `LogBuffers.EkmLog.CopyLogBuffer` | explode-0.1pre/ekm-common/ekm_log_buf.c:120-151 | Returns all bytes in order and empties the log, or changes nothing when they do not fit |
| `LogBuffers.EkmLog.EmptyLog` | explode-0.1pre/ekm-common/ekm_log_buf.c:153-166 | Drops the pages and restarts the sequence numbers |
| `LogBuffers.RecordRoundTrip` | explode-0.1pre/crash/Log.C:32-42 | A record of ints, integers of any other width and sized buffers is read back as it was written, whatever follows it |
| `LogBuffers.NumRoundTrip` | explode-0.1pre/ekm-common/ekm_log_buf.h:58-61 | An integer is read back from as many bytes as it was written in |
| `LogBuffers.Parse` | explode-0.1pre/crash/LogMgr.C:48-76 | The parse loop returns all records, or fails exactly when some record cannot be read |
| `LogBuffers.LogRoundTrip` | explode-0.1pre/crash/LogMgr.C:48-76 | Parsing what any sequence of records wrote returns the same records |
| `LogBuffers.SyscallParser.PairAll` | explode-0.1pre/crash/Log.h:1707-1867 | With a table that is kept from log to log, each exit gets the last enter parsed with the number it carries |
| `LogBuffers.OwnEnter` | explode-0.1pre/crash/Log.h:1707-1731 | Within numbers that increase, an exit is paired with an entry if and only if it carries the number that entry got, whatever comes between |
| `LogBuffers.OwnEnterAfter` | explode-0.1pre/crash/Log.h:1707-1731 | After older records whose numbers may be the same, an exit gets its own entry if that was logged since, and else the last older one with its number |
| `LogBuffers.Logger.WriteRecord` | explode-0.1pre/ekm-linux-2.6/ekm_log.c:188-204 | Appends the bytes of one record field by field |
| `LogBuffers.Logger.LogApp` | explode-0.1pre/ekm-linux-2.6/ekm_log.c:174-186 | Writes a record numbered after counting up, in 32 bits, and keeps the other numbers strictly increasing until they wrap around |
| `LogBuffers.Logger.LogOther` | explode-0.1pre/ekm-linux-2.6/ekm_log.c:536-546 | Writes a record numbered before counting up, hands the number out, and keeps the numbers strictly increasing until they wrap around |
| `LogBuffers.Logger.Drain` | explode-0.1pre/ekm-common/ekm_log_buf.c:120-151 | Copying the log out and parsing it returns exactly the records appended since the last copy |
| `LogBuffers.Logger.DrainCalls` | explode-0.1pre/crash/LogMgr.C:48-76 | Copied out, parsed and paired over any number of copies: each exit gets its own entry if that was logged since the log was emptied and numbers did not wrap around, and else the last entry with its number |

## Left out

- Kernel hooks, ioctl dispatch, mounting, RAM disks, remote hosts, monitoring and persistence of the model checker: foreign calls and I/O.
- Test drivers, options and generated vnode headers: no logic of their own.
- The regular `Cache`, `TreeCanon`, the priority queue and the random branches of `Powerset` and `Random`: no exact statement holds of them or none is hard.
- `skip_rest`, bug and state limits, heart beats and trace files on disk: they only cut a search short.
- Crashes during recovery (`check_recovery_crashes`): the same enumeration on another log.
- `check_data`, `fix_refcnts` and the comparison with a recovered file system: the loop is modelled up to the subsets that are compared.
- Calls on synchronous mounts and on files opened O_SYNC, fsync of directories, and renames onto a name that is taken, which the volatile file system refuses.
- System calls with their two deltas each: the pending deltas are one list in call order, without those that are cleared.
- File descriptors: data calls name their file by the path that the descriptor table holds.
- Symbolic links are not followed, as in the code.
- File contents inside the abstract file system are flat bytes; regions and archives of them are modelled apart.
- Signatures are injective: two sectors, states or files with the same signature are the same.
- Byte order differs between machines: log fields are written least significant byte first, for writer and reader. Data whose length is in an earlier field is a buffer with its own length.
- Archives of regions count in words: sizes and offsets take one, as magic numbers do.
- Locks of the kernel log: a record is appended as one step.
- Pointers that the log considers invalid: their data is skipped with a message.
- ModelCheckers.ModelChecker.ModelCheck: requires of the reachable states finitely many signatures, equal signatures to behave alike, and those entered without a choice to be checkpointed, which `KeptChoicesExact` shows to be needed; does not cover the priority queue.
- RegionMaps.FileData.Pwrite: does not cover writes past EXPLODE_OFF_MAX, which fail an assertion.
- RegionMaps.FileData.Truncate: does not cover lengths past EXPLODE_OFF_MAX.
- VersionedCaches.BufferPermuter.ReplayAll: does not cover caches below the threshold with 2^32 crash disks or more, whose enumeration does not end; above the threshold it says that what is checked is possible, and not which disks are drawn.
- AbstFs.AbstFS.Unlink: does not cover the last entry of a directory that still has entries, whose deletion goes on with an iterator that it has erased.
- StableFs.StableFS.Unlink: does not cover that case either; the system call refuses directories.
- StableFs.CopyOfCounted: copies contents as they are; as coded `LoadExact` says when that is so.
- StableChecks.CheckSubsets: removing the last entry of a directory that has entries, which subsets can do, leaves its children unreachable, where the code goes on with an erased iterator.
- FsckCaches.Fsck.Run: does not cover recovery that reads nothing before its first recorded write, which fails an assertion.
- `write_sig`, which stores a signature without data: nothing calls it.
