# Verified models of the native daemon, boot tools and policy tools

This project models the algorithms and state machines on the native side of the
repository and proves what they promise, for all inputs, all runs or all reachable
states. `dafny verify dfyconfig.toml` checks everything.

| file | models |
|---|---|
| `ThreadPool.dfy` | the daemon's thread pool as a state machine: one task slot, two condition variables, idle timeouts, core threads |
| `Overlay.dfy`, `ModuleList.dfy`, `BinDirs.dfy` | the module overlay engine: collecting the trees of all modules, choosing where to inject files, deciding where to rebuild directories, emitting mounts |
| `CpioFormat.dfy`, `CpioForeign.dfy` | the newc cpio reader and writer (cpio(5), "New ASCII Format"), on its own files and on those of other tools |
| `CpioBackup.dfy`, `BackupExact.dfy` | the backup and restore commands, for any names |
| `Chunker.dfy`, `Lz4.dfy` | the LZ4 block archive (the "Legacy frame" section of the LZ4 Frame Format description, and the LG variant), and the walk that tells the two apart |
| `Xperm.dfy`, `XpermRules.dfy`, `XpermText.dfy` | extended ioctl permissions of a policy key and of the whole policy, and their printer, tokenizer and parser |
| `AvRules.dfy` | access-vector rules with wildcards and attributes, and the expansion of rule arguments |
| `RuleLines.dfy` | whole rule lines, from their text to what they set |
| `Denylist.dfy`, `DenyLookup.dfy`, `DenyRequests.dfy` | the denylist in memory, its reverse index and its table, over whole runs, what the check finds, and what the requests come to |
| `DenyOverlap.dfy`, `DenyOrder.dfy` | the denylist with overlapping requests that write the table behind the lock |
| `BootImage.dfy` | the section layout of boot images: the parsing walk and the repacking sequence |
| `FstabStrip.dfy`, `BootConfig.dfy`, `BootStages.dfy` | in-place stripping of fstab flags, the key-value parser, the boot stages over many boots |
| `Bytes.dfy`, `LittleEndian.dfy`, `Option.dfy` | byte strings, their order, UTF-8, little-endian words, options |

Code that changes things in place is modelled by classes and methods with loops, each
proved against a function of the old state; the results about whole runs and round
trips are lemmas about those functions.

Places where the code does something else than a comment or a document says; the
models follow the code:

- The comment on `strip_av` has its two cases the wrong way round. The macro strips for
  `auditdeny` when the rule is not inverted, and for other effects when it is.
- The grammar comment of `parse_xperms` makes the lone number zero a reset. The parser
  leaves it a plain item, so that it grants every ioctl (`XpermText.ZeroGrantsAll`).
- The grammar comment of `parse_xperm` has ranges with a dash between two numbers. The
  tokenizer never makes that dash, so that only ranges in one word are read
  (`RuleLines.SpacedRangeFails`, `RuleLines.TokenizeHasNoDash`).
- A tilde list reads as if it excluded all its items. Each reset starts over, so only the
  last item counts (`Xperms.ResetListIsLast`, with the exact condition in
  `Xperms.ResetListExcludesAllIff`).
- A wildcard in an extended permission rule stands for attributes only, also when the rule
  takes away, so that what plain types hold stays (`XpermRules.ResetLeavesPlainTypes`, with
  the exact condition in `XpermRules.ResetEverywhereIff`).
- A range over several ioctl drivers is widened to whole drivers (`Xperms.ExactIff`).
- A driver-level policy node with a lone driver prints as one number and is read back as a
  function-level node (`XpermText.DriverNodeRoundTripIff`).
- `boot_stage_handler` says that each stage runs once. Late-start runs on every request
  behind a pass that is not cut short (`BootStages.LateStartRunsTwice`, with the exact
  condition in `BootStages.LateOnceIff`).
- `backup` compares data only, some names do not survive the removal list or the backup
  directory, and `restore` without a difference empties the archive
  (`BackupExact.SlashInitStays`, with the exact condition in `BackupExact.RestoreIsExactIff`).
- A comment says that a directory with `su` gets the binaries first. An empty directory in
  front of it gets them instead (`ModuleLists.EmptyDirectoryWins`, with the exact condition
  in `ModuleLists.SuWinsIff`).
- Behind the thread pool's back a timed-out thread still counts as idle, so that a task can
  wait behind busy core threads although the pool would start a thread when it sees nobody
  idle (`ThreadPools.TimeoutCanSwallowNotification`, with the exact condition in
  `ThreadPools.PlacementReachesWorkerIff`).
- A replaced directory shows its own module's subdirectories only, so that files of other
  modules below them vanish (`Overlays.FileBelowReplaceVanishes`, with the exact condition
  in `Overlays.ModuleNodeWinsIff`).
- An empty first write to the LZ4 encoder writes the magic twice, and the decoder then sees
  an empty stream (`Lz4.EmptyWriteLosesData`, with the exact condition in
  `Lz4.RoundTripIff`); the block walk takes such a stream for LG in both forms
  (`Lz4.LegacyTakenForLg`, `Lz4.WalkTellsTheForms`). The block walk uses wrapping 32-bit sums and need
  not end (`Lz4.WalkCanGoRound`, with the exact condition in `Lz4.UndecidedIff`).
- Stripping fstab flags can put together a new flag (`FstabStrip.VerityStripIsNotIdempotent`,
  with the exact condition in `FstabStrip.StripTwiceIff`).
- A scan does not index locked packages. They are not found afterwards, nor when they are
  unlocked again, until the next scan or the next process added to them
  (`DenyLookup.UnlockedIsNotFound`, with the exact condition in `DenyLookup.RunFindsIff`). A
  sentinel row left behind blocks the next lock
  (`Denylist.RelockFails`), and an app uninstalled before its removal leaves the reverse
  index with an entry whose lookup is undefined (`Denylist.UninstalledStaysIndexed`, with
  the exact condition in `Denylist.RunKeepsLookupsIff`).
- Denylist requests write the table after they release the lock, so that overlapping ones
  can leave it different from memory (`DenyOrder.RemoveOvertakesAdd`, with the exact
  condition in `DenyOverlap.OverlapInSyncIff`).
- A missing extra or recovery dtbo file leaves the old size in the header, and a component
  without a header field is written without being recorded
  (`BootImage.MissingDtboIsNotRecovered`, with the exact condition in
  `BootImage.RepackRecoveredIff`).

## Model

| member | source | states |
|---|---|---|
| `ThreadPools.EveryRunKeepsInv` | native/src/core/thread.rs:35-100 | Over every run of calls, wake-ups, timeouts and spurious wake-ups: both counters are exact, the core is min(3, total), a full slot has an awake worker, a free slot is offered to some woken caller, and placed tasks are the taken ones in order followed by the slot |
| `ThreadPools.StepCounted` | native/src/core/thread.rs:43-61 | No event breaks the idle and total counters or the number of core threads, also when threads outside the core expire |
| `ThreadPools.SomebodyAwake` | native/src/core/thread.rs:84-97 | When a notification reaches nobody although threads count as idle, some thread is awake and so is every core thread; unless one is already notified, the core is complete |
| `ThreadPools.StepAttended` | native/src/core/thread.rs:35-97 | A full slot always has a starting, notified or running worker, even when an idle timeout races with a submit |
| `ThreadPools.StepOffered` | native/src/core/thread.rs:59-86 | An empty slot with blocked callers always has one of them already woken |
| `ThreadPools.StepConserved` | native/src/core/thread.rs:59-86 | No event loses, duplicates, overwrites or reorders a task |
| `ThreadPools.ReachableInv` | native/src/core/thread.rs:35-100 | Everything above holds of every pool reachable from the empty one |
| `ThreadPools.TaskCanAlwaysBeTaken` | native/src/core/thread.rs:59-66 | In every reachable pool with a full slot some existing worker can take what is in it without being notified first |
| `ThreadPools.BlockedCallersProgress` | native/src/core/thread.rs:82-86 | In every reachable pool with a free slot and a blocked caller, a woken caller can place its task next |
| `ThreadPools.TimeoutCanSwallowNotification` | native/src/core/thread.rs:49-57 | A reachable pool in which a task waits behind three busy core threads with nobody idle, because the notified thread had timed out |
| `ThreadPools.PlacementReachesWorkerIff` | native/src/core/thread.rs:86-97 | After a placement some thread is starting or notified exactly when nobody counted as idle or some thread was starting, notified or asleep before |
| `ThreadPools.ComingStays` | native/src/core/thread.rs:43-97 | A starting or notified thread is not lost: until the slot is emptied there is one |
| `ThreadPools.StuckUntil` | native/src/core/thread.rs:43-97 | Without one, the task waits for a thread that returns from its own task; only a spurious wake-up brings another |
| `ThreadPools.ThreadPool.PoolLoopEnter` | native/src/core/thread.rs:43-61 | The first locked stretch of a worker's turn is the Enter event of the model |
| `ThreadPools.ThreadPool.PoolLoopResume` | native/src/core/thread.rs:49-61 | Waking from the wait, by notification or timeout, is the Resume or Expire event |
| `ThreadPools.ThreadPool.ExecTask` | native/src/core/thread.rs:81-99 | The locked stretch of a submit is the Submit event |
| `ThreadPools.EveryTaskRunsOnce` | native/src/core/thread.rs:35-100 | Over every run from the empty pool: the tasks the workers started, followed by the one in the slot, are the tasks that were placed, in order; none is started twice; and of every caller the task was placed or the caller is still at it |
| `ThreadPools.TakerRunsTheTask` | native/src/core/thread.rs:59-66 | A worker that finds the slot full, coming in or waking up, runs exactly that task and leaves the slot empty |
| `ThreadPools.OthersKeepTheirJobs` | native/src/core/thread.rs:43-97 | What a worker is running it was running before, except for the one that takes a task in this event |
| `ThreadPools.SlotIsHandedOn` | native/src/core/thread.rs:59-66 | What was in the slot and what a caller puts there is what a worker starts and what is left there; only a caller who finds the slot free puts anything |
| `CpioFormat.LoadJoined` | native/src/boot/cpio.rs:229-316 | Any sequence of dumps of legal archives, each followed by a multiple of four zero bytes, loads as the archives overriding one another in turn |
| `CpioFormat.LoadDump` | native/src/boot/cpio.rs:229-325 | Loading a dump of an archive the format can carry gives the archive back |
| `CpioFormat.LoadDumpIff` | native/src/boot/cpio.rs:229-325 | For 32-bit numbers and names that are text, loading a dump gives the archive back if and only if no entry is named like one of the three control words |
| `CpioFormat.HexRoundTrip` | native/src/boot/cpio.rs:832-843 | Eight lower-case hexadecimal digits read back as the 32-bit number they were written from |
| `CpioFormat.X8u` | native/src/boot/cpio.rs:832-843 | The field reader returns the value of eight hexadecimal digits and fails on anything else |
| `CpioFormat.LoadFromData` | native/src/boot/cpio.rs:229-267 | The reading loop with its offsets, the search for a concatenated archive and all failures, against the recursive reader |
| `CpioFormat.Find` | native/src/boot/cpio.rs:246-252 | The next header magic behind a trailer, first occurrence, or none |
| `CpioFormat.Dump` | native/src/boot/cpio.rs:275-316 | The writing loop with alignment and inode numbers produces the dump of the archive in name order |
| `CpioFormat.NamesInOrder` | native/src/boot/cpio.rs:275-300 | The entries are visited in the order of their names, each once |
| `CpioFormat.Align4` | native/src/boot/cpio.rs:845-847 | The least multiple of four that is not below |
| `CpioForeign.ForeignLoads` | native/src/boot/cpio.rs:229-267 | An archive written by any tool, in any order, with digits of either case and anything in the fields that are not read, loads as its entries |
| `CpioForeign.LoadUpperDump` | native/src/boot/cpio.rs:229-267 | In particular a dump with all its digits in upper case loads as the archive |
| `CpioForeign.SameHexValue` | native/src/boot/cpio.rs:832-843 | Two fields whose digits agree up to case have the same value |
| `CpioForeign.DigitValueIff` | native/src/boot/cpio.rs:832-843 | A byte is read as a digit exactly when it stands for it in the lower-case or the upper-case list of digits |
| `CpioForeign.LoadRefuses` | native/src/boot/cpio.rs:229-245 | A file without a whole header, without the magic or with a bad digit in its name size is refused, each with its error |
| `CpioForeign.DotsAreSkipped` | native/src/boot/cpio.rs:240-245 | An entry without data that is named by one or two dots is passed over in front of an archive |
| `CpioForeign.DumpWritesTheRest` | native/src/boot/cpio.rs:275-316 | What a written header holds in the fields the reader does not look at: the inode number, one link, and zeros |
| `Bytes.Utf8Iff` | native/src/boot/cpio.rs:240 | A name is taken for text exactly when it is the UTF-8 encoding of some characters (section 3 of RFC 3629) |
| `CpioBackup.Merge` | native/src/boot/cpio.rs:622-684 | The two-sided merge ends and picks exactly the differing and the added names, each once and in order |
| `CpioBackup.SmallerIsMissing` | native/src/boot/cpio.rs:643-666 | The smaller head of the merge is missing on the other side |
| `CpioBackup.EqualIsPassed` | native/src/boot/cpio.rs:655-661 | Heads with the same name may both be passed: what is behind stays below what is to come on the other side |
| `CpioBackup.UnstoredStored` | native/src/boot/cpio.rs:704-739 | An entry put into the backup and taken out again is the same under the same name exactly when it was compressed or does not look compressed |
| `CpioBackup.BackupKeeps` | native/src/boot/cpio.rs:604-684 | A missing or changed entry of the original is kept under its name in the backup directory, compressed and with the ending .xz exactly when it is a regular file, compression was not switched off and worked, so long as it meets no other name there |
| `CpioBackup.ConfigIsNotRestored` | native/src/boot/cpio.rs:568-587 | The configuration kept in the backup directory is not put back, whatever it holds |
| `CpioBackup.RmListNames` | native/src/boot/cpio.rs:568-600 | Normalised names leave the removal list as they entered it |
| `CpioBackup.Cpio.Rm` | native/src/boot/cpio.rs:318-334 | Removal takes the path and, recursively, everything below it, and nothing else |
| `CpioBackup.Cpio.Backup` | native/src/boot/cpio.rs:603-700 | The whole command on the map in place leaves the archive the merge describes |
| `CpioBackup.Cpio.Restore` | native/src/boot/cpio.rs:568-601 | The whole command on the map in place leaves what is recovered, or clears the archive |
| `CpioBackup.Cpio.ExtractBackups` | native/src/boot/cpio.rs:568-587 | The entries of the backup subtree, renamed and unpacked, without the special files |
| `BackupExact.RestoreIsExactIff` | native/src/boot/cpio.rs:568-700 | For archives with any names, the round trip gives the original back if and only if the added names are normal paths, the differing entries keep apart in the backup directory and do not look compressed or special there, no entry changed its metadata alone, and something differs or nothing was there |
| `BackupExact.RestoreRecoversIff` | native/src/boot/cpio.rs:568-700 | The same for getting the original back up to metadata of entries whose data never changed |
| `BackupExact.SlashInitStays` | native/src/boot/cpio.rs:568-601 | An entry added as /init is listed for removal as init, so that the round trip does not give the original back |
| `BackupExact.RestoreThroughFileIff` | native/src/boot/cpio.rs:229-325 | The same with the dump and the load that lie between the two commands |
| `BackupExact.BackupIsLegal` | native/src/boot/cpio.rs:603-700 | What backup leaves can be dumped when the archives could be and the sizes it adds fit |
| `BackupExact.TakenAwayIff` | native/src/boot/cpio.rs:318-334 | The removal list takes away all the names it was made of exactly when these are normal paths, and then nothing else |
| `BackupExact.NormTwice` | native/src/boot/cpio.rs:850-855 | A normalised path is its own normal form |
| `BackupExact.PlacesNeeded` | native/src/boot/cpio.rs:604-684 | All differing entries can only come back if each has a place of its own in the backup directory |
| `BackupExact.NoneLooksCompressed` | native/src/boot/cpio.rs:568-587 | and if none of them looks compressed there |
| `Overlays.ModulesShowOverlayIff` | native/src/core/module.rs:276-458 | The tree visible after all mounts is the overlay of every partition if and only if, wherever a mount is made in place, files lie over files, directories over directories, and a file node without a file behind it over an empty file |
| `Overlays.CompatibleIsByKind` | native/src/core/module.rs:276-290 | When every file node has a file behind it, the kinds alone decide |
| `Overlays.PartitionShowsOverlayIff` | native/src/core/module.rs:296-352 | The same for one partition and the part of its virtual tree a partition root can take |
| `Overlays.CommittedIsOverlayIff` | native/src/core/module.rs:296-352 | The mixture of mounts in place and rebuilt directories equals the uniform recursive overlay exactly for kind-compatible trees |
| `Overlays.ModuleNodesWin` | native/src/core/module.rs:356-458 | A file, link or whiteout of the virtual tree is what is visible at its path, and a whiteout makes everything at and below it vanish, unless the path enters a subdirectory of a replaced directory |
| `Overlays.ModuleNodeWinsIff` | native/src/core/module.rs:367-386 | Such a node decides what its path shows if and only if no directory above its parent is replaced, or the replacing module shows the same there |
| `Overlays.NodeShows` | native/src/core/module.rs:356-458 | What each kind of node comes to at its path: a whiteout to nothing, a link to that link, a file to the module's file or what its symlink leads to, a link of the program's own by its name, a directory to a directory |
| `Overlays.RestIsReal` | native/src/core/module.rs:388-416 | At a path that leaves the virtual tree without crossing a real symlink or a replacement, the real entry is what is shown, or nothing where there is none |
| `Overlays.LinkIsFollowed` | native/src/core/module.rs:388-416 | Where a module directory lies over a real symlink to a directory, the entries behind the symlink are shown |
| `Overlays.ReplacedIsRaw` | native/src/core/module.rs:370-382 | A subdirectory of a replaced directory shows what the replacing module itself has there |
| `Overlays.FileBelowReplaceVanishes` | native/src/core/module.rs:370-382 | A file one module has below a subdirectory of a directory that another module replaces is not visible |
| `Overlays.NothingBelowLeaf` | native/src/core/module.rs:356-458 | Below a file, a link or a whiteout nothing is visible |
| `Overlays.PathCases` | native/src/core/module.rs:356-458 | Every path is one of these: at a node, below a leaf, inside a replaced subdirectory, or leaving the virtual tree |
| `Overlays.RestIsMirrored` | native/src/core/module.rs:388-416 | At every path that leaves the virtual tree, the real tree is visible unchanged, through real symlinks where a module directory lies over one; where it leaves at a replaced directory, nothing is |
| `Overlays.Mounts.Commit` | native/src/core/module.rs:296-352 | The emitted mounts change exactly the subtree at the path, to what the node commits; none lands on the path itself for a partition root, and siblings in the worker tree are untouched |
| `Overlays.Mounts.CommitTmpfs` | native/src/core/module.rs:356-458 | Rebuilding a node in the worker tree, which never makes anything twice, yields the overlay of the node on the real path |
| `Overlays.Mounts.CommitReplaced` | native/src/core/module.rs:367-386 | With a replace file only the module's children appear, its directories as they are in the module |
| `Overlays.Mounts.CommitMirrored` | native/src/core/module.rs:388-431 | Without one, the real entries are mirrored and the children committed, in any order with framework first |
| `Overlays.Mounts.MirrorDir` | native/src/core/module.rs:388-416 | Mirroring a real directory file by file shows that directory |
| `Overlays.Mounts.Retain` | native/src/core/module.rs:302-325 | A directory is rebuilt if and only if a child needs it or a replacement is asked for; a partition root drops such children instead |
| `Overlays.Mounts.ApplyModules` | native/src/core/module.rs:931-961 | Each partition is committed over its own root and no mount lands on a partition root |
| `Overlays.Mounts.ExtractRoots` | native/src/core/module.rs:931-945 | Secondary partitions that are real directories are split off the system tree |
| `Overlays.Mounts.MountDummy` | native/src/core/module.rs:57-70 | A dummy with a bind mount on it shows the source, where a symlink stands for what it leads to, when the kinds agree and the dummy otherwise |
| `Overlays.Mounts.HandleModules` | native/src/core/module.rs:37-38 | The same for the vendor, product and system_ext partitions |
| `Overlays.Collect` | native/src/core/module.rs:224-270 | Collecting a module's tree by directory reads equals the recursive merge |
| `Overlays.EarlierNodesStay` | native/src/core/module.rs:224-270 | A file, link or whiteout of an earlier module stays what it is |
| `Overlays.NewNodesAppear` | native/src/core/module.rs:224-270 | Where no earlier module has a node, the new module's file, link or whiteout appears |
| `Overlays.GatherSourced` | native/src/core/module.rs:224-270 | Every file node of a collected tree points at an existing file of the modules |
| `BinDirs.CollectCandidates` | native/src/core/module.rs:505-555 | The loop over the search path keeps the suitable directories that can be walked, and stops at the first that has su |
| `BinDirs.SortIsOrdered` | native/src/core/module.rs:558 | The sort keeps every candidate and puts fewer files first |
| `BinDirs.CandidatesIff` | native/src/core/module.rs:505-555 | A directory is a candidate exactly when it lies on one of the four partitions, not in an apex and on an emulator not under xbin, has su or can be walked, and no such directory before it has su; it is named without its leading /system |
| `ModuleLists.ModuleListShowsOverlayIff` | native/src/core/module.rs:864-961 | From the list of modules to what is visible: every partition shows the overlay of the collected and injected tree if and only if, wherever a mount is made in place, files lie over files, directories over directories, and missing files over empty ones |
| `ModuleLists.ShippedIsByKind` | native/src/core/module.rs:466-651 | With the injected files there, the kinds alone decide |
| `ModuleLists.CollectedNameByName` | native/src/core/module.rs:864-903 | Collecting module by module comes to the same as merging name by name: the first module that has a name decides what it is, and directories merge |
| `ModuleLists.FirstModuleDecides` | native/src/core/module.rs:864-903 | What the collected tree has at a path is decided, name by name on the way down, by the first of the modules that still count |
| `ModuleLists.FirstModuleShows` | native/src/core/module.rs:224-270 | The file or link of the module that decides on a path is what the path shows, and a whiteout of it makes the path vanish, unless a replaced directory lies above |
| `ModuleLists.ModuleCounts` | native/src/core/module.rs:880-901 | A module counts with its system tree, in its place in the list, unless it is to be skipped or has none |
| `ModuleLists.SkippedAddsNothing` | native/src/core/module.rs:889-893 | With a module that is to be skipped the whole virtual tree is what it would be without it |
| `ModuleLists.CollectAll` | native/src/core/module.rs:864-903 | The loop over the modules, without those that ask to be skipped, equals that merge |
| `ModuleLists.CollectedSourced` | native/src/core/module.rs:224-270 | Every file node collected from the list points at an existing file |
| `ModuleLists.InjectMagiskBins` | native/src/core/module.rs:467-590 | The candidates of the search path are collected, sorted and tried in turn; the binaries go into the first that can be reached, else into the default one |
| `ModuleLists.BinsGoToBest` | native/src/core/module.rs:505-590 | That is the candidate with the fewest files among those that can be reached, and the earliest of them |
| `ModuleLists.SuWinsIff` | native/src/core/module.rs:526-558 | A directory that has su gets the binaries if and only if it can be reached and no earlier candidate that can be reached is empty |
| `ModuleLists.EmptyDirectoryWins` | native/src/core/module.rs:526-558 | An empty directory in front of one that has su gets them instead |
| `ModuleLists.InjectedIsThere` | native/src/core/module.rs:466-500 | What is injected is at its path whatever the modules have there |
| `ModuleLists.InjectionKeepsRest` | native/src/core/module.rs:466-500 | Every other file, link and whiteout stays what it is |
| `ModuleLists.InjectZygiskBins` | native/src/core/module.rs:593-651 | The library directories are made where they are missing and get the library where they are directories |
| `ModuleLists.LibrariesShow` | native/src/core/module.rs:593-651 | Which library lies in lib and lib64 afterwards, by build, linkers and the 32-bit binary; all else there stays |
| `ModuleLists.ApplyModules` | native/src/core/module.rs:864-961 | Collecting, injecting, splitting and committing in one, with no mount on a partition root |
| `Chunking.Chunker.AddData` | native/src/base/misc.rs:234-258 | Pending bytes, chunk and remaining input keep the order of the stream; a chunk that comes out is full |
| `Chunking.Chunker.GetAvailable` | native/src/base/misc.rs:260-264 | Hands out what is pending and leaves nothing pending |
| `Lz4.RoundTripIff` | native/src/boot/compress.rs:77-221 | For every split into writes and every choice of read buffers, the stream reads back as the data if and only if the first write was not empty and an LG trailer does not spell the magic; without data, if and only if it is LG or there was not exactly one write |
| `Lz4.Encode` | native/src/boot/compress.rs:121-150 | The stream depends on the split into writes only through the number of magics in front |
| `Lz4.NoDataReads` | native/src/boot/compress.rs:140-149 | Without data a lone magic is an error in the legacy form, and everything else reads back as nothing |
| `Lz4.EmptyWriteLosesData` | native/src/boot/compress.rs:121-126 | After an empty write and one with data nothing of the data is read back |
| `Lz4.OneHeaderIff` | native/src/boot/compress.rs:121-126 | Data is announced by a single magic exactly when the first write brings some |
| `Lz4.ChunkedIs` | native/src/boot/compress.rs:128-146 | There is only one way to cut the data into full blocks and a shorter last one |
| `Lz4.ReadRest` | native/src/boot/compress.rs:176-220 | Any sufficiently long sequence of non-empty buffers delivers exactly the data that is left, and then the end, or an error if the trailer spells the magic |
| `Lz4.ManyMagicsEnd` | native/src/boot/compress.rs:187-194 | A second magic is taken for a block size and ends the stream at once |
| `Lz4.CutReads` | native/src/boot/compress.rs:176-220 | A stream cut off anywhere in its blocks is read without an error exactly when the cut is right behind a block size, or before or inside that of a later block than the first; then the whole blocks are read and nothing tells of the cut |
| `Lz4.Encoder.WriteAll` | native/src/boot/compress.rs:121-136 | Takes in the data, keeps the stream well formed and writes a magic whenever the running 32-bit total is zero |
| `Lz4.Encoder.Finish` | native/src/boot/compress.rs:140-149 | The finished stream is magics, blocks of the data and, in the LG form, the total |
| `Lz4.Decoder.Read` | native/src/boot/compress.rs:176-220 | One read with its buffers, for every size the underlying reader hands over at once, against the value step |
| `Lz4.WalkTellsTheForms` | native/src/boot/bootimg.cpp:401-416 | However the data was split into writes, absent 32-bit wrap: behind an empty first write a stream shorter than 8 plus the magic is taken for LG once there is another write, and every other stream exactly when the trailer was written and there is data |
| `Lz4.LegacyTakenForLg` | native/src/boot/bootimg.cpp:401-416 | A legacy stream with data that is taken for LG because an empty write came first |
| `Lz4.WalkCanGoRound` | native/src/boot/bootimg.cpp:406-413 | With a block size of 2^32 - 4 the wrapping walk never decides |
| `Lz4.UndecidedIff` | native/src/boot/bootimg.cpp:401-416 | On every buffer the walk never decides if and only if it comes back to an offset where it has been |
| `Lz4.ComingBackWraps` | native/src/boot/bootimg.cpp:406-413 | Coming back takes a sum that wraps at 2^32 |
| `Lz4.WalkEnds` | native/src/boot/bootimg.cpp:401-416 | On every buffer a walk whose sums do not wrap is decided after a quarter of the buffer length |
| `Xperms.AppliedGrants` | native/src/sepolicy/sepolicy.cpp:479-530 | A plain call adds exactly its range widened to whole drivers; a reset leaves exactly the complement whatever came before |
| `Xperms.ExactIff` | native/src/sepolicy/sepolicy.cpp:479-489 | The widening adds nothing exactly within one driver, for whole drivers, and for a backward range |
| `Xperms.PlainListGrants` | native/src/sepolicy/sepolicy.cpp:479-501 | A plain list grants what was granted and what any of its items says |
| `Xperms.ResetListIsLast` | native/src/sepolicy/sepolicy.cpp:449-459 | A reset list comes to its last item |
| `Xperms.ResetListExcludesAllIff` | native/src/sepolicy/sepolicy.cpp:449-530 | A reset list excludes all it lists exactly when its last item covers the others |
| `Xperms.ResetListKeepsFirst` | native/src/sepolicy/sepolicy.cpp:449-530 | A concrete two-item reset list that still grants its first item |
| `Xperms.Key.Add` | native/src/sepolicy/sepolicy.cpp:429-532 | On one key, the call on the nodes in place, with its loops over bits, yields the nodes of the model |
| `Xperms.AddAll` | native/src/sepolicy/api.cpp:68-74 | A list of items is applied to the key one after another |
| `Xperms.Key.Forget` | native/src/sepolicy/sepolicy.cpp:449-459 | A reset removes every function node and empties the driver node where there is one |
| `Xperms.Ranges` | native/src/sepolicy/sepolicy.cpp:1082-1099 | The scan finds every bit in maximal ranges, in order, disjoint and with gaps between them |
| `XpermText.FunctionNodeRoundTrip` | native/src/sepolicy/sepolicy.cpp:1082-1124 | Printing a function node, tokenizing, parsing and applying the line to an empty key gives the same bitmap back |
| `XpermText.DriverNodeRoundTripIff` | native/src/sepolicy/sepolicy.cpp:1082-1124 | For a driver node the same holds if and only if each maximal range has at least two drivers |
| `XpermText.PrintNode` | native/src/sepolicy/sepolicy.cpp:1082-1124 | The printed line holds the maximal ranges as words; a node without bits prints nothing |
| `XpermText.LineReadsIff` | native/src/sepolicy/statement.rs:250-304 | A printed line reads back as the statement with the same names and items if and only if the tokenizer takes the three names as they are |
| `XpermText.StatementsArePlain` | native/src/sepolicy/statement.rs:250-304 | The names in the statement of any line are ones the tokenizer takes as they are |
| `XpermText.HexRoundTrip` | native/src/sepolicy/statement.rs:131-133 | A number printed with four digits is read back, and the word has nothing the tokenizer splits at |
| `XpermText.RangeWord` | native/src/sepolicy/statement.rs:135-138 | A printed range is one plain word that splits at its dash into its two numbers |
| `XpermText.WordsOfLine` | native/src/sepolicy/statement.rs:298-304 | Splitting a printed line at white space gives its words |
| `XpermText.ParseSterm` | native/src/sepolicy/statement.rs:107-129 | The loop over names ends and returns them, or a wildcard where a star occurs |
| `XpermText.ParseXpermList` | native/src/sepolicy/statement.rs:195-206 | The loop over items ends and returns them in order, or fails |
| `XpermText.ExecLine` | native/src/sepolicy/statement.rs:393-412 | The parser accepts the tokens of a printed line with nothing left over |
| `XpermText.ZeroGrantsAll` | native/src/sepolicy/statement.rs:214-229 | Outside braces the number zero becomes the whole range without reset, so that every ioctl is granted |
| `RuleLines.XpermLineGrants` | native/src/sepolicy/statement.rs:182-240 | From the text of a line to what its key grants, for ioctls in braces, behind a tilde, as a star or alone and in any spelling of the numbers: braces add, a star and a lone zero grant all, and behind a tilde the key grants exactly what the last item, widened, does not cover |
| `RuleLines.XpermLineReads` | native/src/sepolicy/statement.rs:393-412 | Such a line reads as that rule, with names alone, in braces or as a star |
| `RuleLines.IoctlsParse` | native/src/sepolicy/statement.rs:182-240 | The four forms of ioctls are read as what they mean, behind a tilde with the reset flag on every item |
| `RuleLines.NumberReads` | native/src/sepolicy/statement.rs:131-133 | A number is read with digits of either case, leading zeros or a plus sign, and as one word |
| `RuleLines.TildeNeedsBrace` | native/src/sepolicy/statement.rs:184-194 | A tilde that no brace follows is a syntax error |
| `RuleLines.SpacedRangeFails` | native/src/sepolicy/statement.rs:143-158 | A range written with blanks around its dash is a syntax error in a list |
| `RuleLines.TokenizeHasNoDash` | native/src/sepolicy/statement.rs:250-296 | No line has the token the parser looks for there |
| `RuleLines.AvLineReads` | native/src/sepolicy/statement.rs:373-386 | The text of an access-vector rule reads as that rule |
| `RuleLines.AvLineSets` | native/src/sepolicy/api.cpp:76-106 | From the text of a line to the table: allow and auditallow set the named permissions at the named keys, deny and dontaudit clear them, each for its own kind of node, and nothing else changes; only a deny reaches plain types through a star |
| `RuleLines.StarAmongNames` | native/src/sepolicy/statement.rs:107-129 | Names in braces with a star among them are a wildcard |
| `RuleLines.RunAvLine` | native/src/sepolicy/statement.rs:360-391 | Carrying out a line changes the table as its statement says, and a line that is no such rule changes nothing |
| `XpermRules.Policydb.AddXpermRule` | native/src/sepolicy/sepolicy.cpp:409-428 | The recursion over wildcards applies the rule to every key of its block of attributes and classes and to no other |
| `XpermRules.ResetEverywhereIff` | native/src/sepolicy/sepolicy.cpp:409-532 | After a reset for all sources and targets a pair of types holds an ioctl if and only if it held it through a plain type on one side, or the ioctl is outside the widened range and both sides have an attribute |
| `XpermRules.GrantEverywhereIff` | native/src/sepolicy/sepolicy.cpp:409-532 | After a plain rule for all sources and targets exactly the pairs with an attribute on both sides gain the widened range |
| `XpermRules.ResetLeavesPlainTypes` | native/src/sepolicy/sepolicy.cpp:415-423 | An ioctl that a rule names for two plain types is still held after a reset of everything for all types |
| `AvRules.DenyEverywhere` | native/src/sepolicy/sepolicy.cpp:265-321 | After a deny with wildcard source and target no pair of types keeps the permission, directly or through attributes |
| `AvRules.AllowEverywhereIff` | native/src/sepolicy/sepolicy.cpp:265-321 | After an allow with wildcard source and target exactly the pairs gain the permission in which each side is or has an attribute |
| `AvRules.Policydb.AddRule` | native/src/sepolicy/sepolicy.cpp:265-321 | The whole block of keys the arguments stand for is changed and nothing else, and no key of it keeps a redundant node |
| `AvRules.Policydb.AddOne` | native/src/sepolicy/sepolicy.cpp:298-320 | One key is set or cleared from its default, and its node removed when it says what a missing one says |
| `AvRules.Policydb.AddNamed` | native/src/sepolicy/sepolicy.cpp:329-380 | Names are resolved, empty ones as wildcards; an unknown name or a permission without a class changes nothing |
| `AvRules.HitsNamed` | native/src/sepolicy/sepolicy.cpp:329-380 | A rule touches a permission of a key exactly when source, target, class and permission name it, each on its own; unknown names count for nothing and a permission needs a class |
| `AvRules.FirstRule` | native/src/sepolicy/sepolicy.cpp:298-320 | The first rule for a key makes a node with that permission alone, a dontaudit one with all permissions but that one, and one that repeats a missing node none |
| `AvRules.Policydb.Expand` | native/src/sepolicy/api.cpp:41-82 | Exactly the permissions named by some combination of the lists are set or cleared, an empty list standing for a wildcard, and a table without redundant nodes stays so |
| `Denylist.RunInSync` | native/src/core/deny/utils.cpp:191-416 | Over every sequence of add, remove, lock, unlock, list, query, zygote restart and daemon restart, one after the other, memory is what reading the table again would give |
| `Denylist.LockedLosesNothing` | native/src/core/deny/utils.cpp:208-416 | Over every run without its unlock a locked package stays locked and loses no entry |
| `Denylist.RunIndexSound` | native/src/core/deny/utils.cpp:78-91 | With stable app ids every indexed package has that id and some process, so that the unchecked lookup is defined |
| `Denylist.RunKeepsLookupsIff` | native/src/core/deny/utils.cpp:208-367 | Over every run with app ids that may change at any time: every lookup is defined at every moment if and only if no request removes the last process of a package indexed under an id it does not have then |
| `Denylist.StepKeepsLookupsIff` | native/src/core/deny/utils.cpp:208-416 | The same for one request of any kind |
| `Denylist.SteadyRunsAreDefined` | native/src/core/deny/utils.cpp:78-91 | Enough for callers: every lookup is defined if no package has one id at a request and another when it is removed later |
| `Denylist.UninstalledStaysIndexed` | native/src/core/deny/utils.cpp:78-91 | An app uninstalled between add and remove stays in the index without an entry |
| `Denylist.ScanFindsUnlocked` | native/src/core/deny/utils.cpp:525-549 | Right after a scan the check agrees with a search through all unlocked packages, for uids that are not isolated |
| `Denylist.AddedIsTarget` | native/src/core/deny/utils.cpp:291-316 | With app ids that did not change, a process just added is found at once for every uid of its app |
| `Denylist.LockFailsIff` | native/src/core/deny/utils.cpp:377-416 | Locking a valid package fails exactly when all the table has of it is an unlocked sentinel row |
| `Denylist.RelockFails` | native/src/core/deny/utils.cpp:377-416 | Lock, add, unlock and remove lead to that row |
| `Denylist.AddInSync` | native/src/core/deny/utils.cpp:291-316 | Adding keeps memory and table in step and never meets a primary key conflict |
| `Denylist.DenyList.EnsureData` | native/src/core/deny/utils.cpp:249-288 | Loading row by row and scanning yields the packages and locks of the table |
| `Denylist.DenyList.ScanDenyApps` | native/src/core/deny/utils.cpp:208-239 | The loop drops uninstalled unlocked packages from memory and table and rebuilds the index; nothing happens while nothing is loaded |
| `Denylist.DenyList.AddList` | native/src/core/deny/utils.cpp:291-316 | Validation, duplicates, index and insert, as in the model |
| `Denylist.DenyList.RmList` | native/src/core/deny/utils.cpp:326-367 | Locks, missing items, the last process and the two forms of delete, as in the model |
| `Denylist.DenyList.ChangeLock` | native/src/core/deny/utils.cpp:377-416 | Sentinel rows and the flag of all rows, as in the model |
| `Denylist.DenyList.Matches` | native/src/core/deny/utils.cpp:525-549 | The two searches, by prefix for isolated uids and through the index for others; the lookup is undefined only where a package under the app id is gone from memory |
| `Denylist.ValidateNames` | native/src/core/deny/utils.cpp:154-187 | The loops over both names accept exactly the valid ones; behind a colon an isolated name is not looked at |
| `DenyRequests.RunListsIff` | native/src/core/deny/utils.cpp:191-416 | At every moment of every run: a process is listed, in the table and in loaded memory, if and only if it was listed or added and no remove and no scan has taken it since |
| `DenyRequests.StepListsIff` | native/src/core/deny/utils.cpp:191-416 | The same for one request: which requests put a process and which take it, by the state before |
| `DenyRequests.RemoveTakes` | native/src/core/deny/utils.cpp:326-367 | A remove that answers OK takes exactly the processes and rows it names; any other answer takes nothing |
| `DenyRequests.RemoveAnswers` | native/src/core/deny/utils.cpp:326-367 | When each answer to a remove is given |
| `DenyRequests.AddPuts` | native/src/core/deny/utils.cpp:291-316 | An add that answers OK puts exactly that process and an unlocked row; any other answer puts nothing |
| `DenyRequests.AddAnswers` | native/src/core/deny/utils.cpp:291-316 | When each answer to an add is given; the database never refuses |
| `DenyRequests.LockSets` | native/src/core/deny/utils.cpp:377-416 | A lock change that answers OK gives every row of the package the new flag and leaves all processes and other packages alone; any other answer changes nothing |
| `DenyRequests.LockAnswers` | native/src/core/deny/utils.cpp:377-416 | When each answer to a lock change is given |
| `DenyRequests.RunLocksIff` | native/src/core/deny/utils.cpp:377-416 | At every moment of every run: a package is locked if and only if it was or was made so, and has not been unlocked since |
| `DenyRequests.RunFindsIsolatedIff` | native/src/core/deny/utils.cpp:525-540 | Over every run the process of an isolated uid is taken for a target if and only if some beginning of its name is listed as isolated |
| `DenyRequests.RunFindsAppIff` | native/src/core/deny/utils.cpp:525-549 | With app ids that do not change, over every run the process of an app is taken for a target if and only if it was listed or added for an installed package of that app id, nothing has taken it since, and the package was not locked at the last scan or was added to after it |
| `DenyLookup.RunFindsIff` | native/src/core/deny/utils.cpp:525-549 | With app ids that do not change, at every moment of every run: a process is taken for a target if and only if it is listed for an installed app with the app id of the uid that was not locked at the last scan or was added to since |
| `DenyLookup.StepEntersIff` | native/src/core/deny/utils.cpp:208-416 | A listed app is in the index after a request if and only if the request adds a process of it, or it scans and the app is not locked, or it does not scan and the app was there |
| `DenyLookup.UnlockedIsNotFound` | native/src/core/deny/utils.cpp:208-239 | After add, lock, list and unlock the process is listed for an installed app that is not locked, and is not found until the next scan |
| `DenyOverlap.OverlapInSyncIff` | native/src/core/deny/utils.cpp:291-416 | Requests overlap, each writing the table after it released the lock, and the daemon may restart at any time: at every moment of every such run memory is what reading the table again would give if and only if, on every row with a process and on every lock, the order in which the statements reached the table ends as the order of the sections; once nothing is pending the two are reorderings of each other |
| `DenyOverlap.RowEndsIff` | native/src/core/deny/utils.cpp:309-366 | A row is in the table at the end if and only if it was there or was put there and nothing took it away behind that |
| `DenyOverlap.FlagEndsIff` | native/src/core/deny/utils.cpp:377-416 | It is locked at the end if and only if its flag was up or went up while it was there, and nothing took it away or lowered the flag behind that |
| `DenyOverlap.SectionThenStatement` | native/src/core/deny/utils.cpp:291-416 | The stretch under the lock followed by its statement is the whole request |
| `DenyOrder.OverlapRefines` | native/src/core/deny/utils.cpp:291-416 | Overlapping requests come to what the same requests do one after the other, in every run where a statement overtakes only independent ones and what a section writes itself concerns packages with nothing pending |
| `DenyOrder.OrderlyEndsAlike` | native/src/core/deny/utils.cpp:291-416 | In such a run, once nothing is pending, the two orders end alike and memory and table agree |
| `DenyOrder.CommuteIff` | native/src/core/deny/utils.cpp:309-416 | Two statements may change places on every table if and only if they are not an insert and a delete or locking of its row, nor opposite lock changes |
| `DenyOrder.RemoveOvertakesAdd` | native/src/core/deny/utils.cpp:309-366 | A remove whose statement overtakes that of the add leaves a row that memory does not have |
| `BootImage.RepackRecoveredIff` | native/src/boot/bootimg.cpp:616-671 | Walking the repacked image gives back every section byte for byte if and only if each component with data has a header field, no extra or recovery dtbo file is missing, and the table size fits its entries |
| `BootImage.MissingDtboIsNotRecovered` | native/src/boot/bootimg.cpp:1073-1078 | An image with a recovery dtbo repacked without that file keeps the old size, and the walk does not give the sections back |
| `BootImage.RecoveredIff` | native/src/boot/bootimg.cpp:616-669 | The walk recovers what was written exactly when the header gives the size of each section |
| `BootImage.WrittenAt` | native/src/boot/bootimg.cpp:889-893 | Every section lies at its page-aligned offset in the written file |
| `BootImage.EntriesTile` | native/src/boot/bootimg.cpp:1011-1037 | The entries of the vendor ramdisk table tile the section without gap or overlap, and each shows its own ramdisk |
| `BootImage.Repack` | native/src/boot/bootimg.cpp:951-1103 | Sections, sizes and table after the writing sequence; the recorded dtbo offset is where that file lies |
| `BootImage.FilesLie` | native/src/boot/bootimg.cpp:962-1103 | Every component file lies in the repacked image byte for byte: the kernel behind the header, its device tree right behind it, the others in order, each at the first page boundary behind the one before |
| `BootImage.LayoutSections` | native/src/boot/bootimg.hpp:568-707 | Which sections the headers of each version have |
| `BootImage.WriteRamdisks` | native/src/boot/bootimg.cpp:1011-1037 | The loop over the table writes the ramdisks one after another and records offset and size of each |
| `BootImage.WalkIff` | native/src/boot/bootimg.cpp:608-667 | Any image is taken apart exactly when its last section ends, rounded up to a page, within the mapping, and then gives every section at its offset and as long as the header says |
| `BootImage.GetBlocks` | native/src/boot/bootimg.cpp:608-667 | The walk with its bounds check, against the recursive form |
| `BootImage.AlignToIs` | native/src/boot/bootimg.hpp:431-444 | The rounding formula is the least multiple that is not below |
| `FstabStrip.RemovePattern` | native/src/boot/patch.rs:43-68 | The in-place loop leaves the stripped text followed by zeros and returns its length |
| `FstabStrip.Compact` | native/src/boot/patch.rs:43-63 | The two indices compact the buffer without disturbing unread input |
| `FstabStrip.PatchVerity` | native/src/boot/patch.rs:70-86 | The stripping with the six verity flags |
| `FstabStrip.PatchEncryption` | native/src/boot/patch.rs:88-94 | The stripping with the three encryption flags |
| `FstabStrip.MatchPatterns` | native/src/boot/patch.rs:10-41 | The matcher finds the first pattern, with a comma before it and its value behind it |
| `FstabStrip.Match` | native/src/boot/patch.rs:10-41 | A match stays within the text and takes at least one byte |
| `FstabStrip.MatchIff` | native/src/boot/patch.rs:10-41 | Something is taken out at a place exactly when a pattern stands there, or behind the comma there |
| `FstabStrip.FlagTaken` | native/src/boot/patch.rs:10-41 | What is taken is the comma, the first pattern that fits, and all from an equals sign to the next blank, newline or zero |
| `FstabStrip.FirstFlagGoes` | native/src/boot/patch.rs:43-68 | The first flag of a text goes with its comma and value, and what is before it stays |
| `FstabStrip.StripIsSameIff` | native/src/boot/patch.rs:43-63 | The text is left as it is exactly when no flag begins anywhere in it |
| `FstabStrip.VerityStripIsNotIdempotent` | native/src/boot/patch.rs:70-86 | A removal can put together a new flag, so that stripping again removes more |
| `FstabStrip.StripTwiceIff` | native/src/boot/patch.rs:43-68 | Stripping again changes nothing if and only if no pattern lies across a removed stretch of the text, read on the bytes that are kept |
| `FstabStrip.PatchTwiceIff` | native/src/boot/patch.rs:70-94 | The same for the verity flags and for the encryption flags |
| `FstabStrip.StripTwiceIsSafe` | native/src/boot/patch.rs:43-68 | Enough for callers: no removed stretch has on its two sides bytes that a pattern has next to each other |
| `BootConfig.FormsRoundTrip` | native/src/init/getinfo.cpp:108-120 | For the three forms, any list of keys alone and keys with bare or quoted values, with padding around the sign and delimiters at the end, is read back as it was |
| `BootConfig.ParseText` | native/src/init/getinfo.cpp:85-105 | The same for every form whose special characters differ |
| `BootConfig.Parse` | native/src/init/getinfo.cpp:85-105 | The loop ends on every input and returns all pairs |
| `BootConfig.ExtractQuotedStrUntil` | native/src/init/getinfo.cpp:46-69 | The scan by pieces equals the character-wise text up to the stop without its quotes |
| `BootStages.EveryRunKeepsInv` | native/src/core/bootstages.rs:132-254 | Over all boots and request orders: at most one post-fs-data pass per daemon life, late-start only after one that was not cut short, the bootloop count is that of the counted passes since the last boot-complete, and the third in a row is in safe mode |
| `BootStages.ThirdPassDisables` | native/src/core/bootstages.rs:152-168 | A usable pass after two counted ones ends in safe mode with modules and Zygisk disabled |
| `BootStages.RunSettingIff` | native/src/core/bootstages.rs:152-168 | At every moment of every run, in terms of the requests: Zygisk or the modules are switched on if and only if they were or were switched on, and neither the user nor a pass in safe mode has switched them off since |
| `BootStages.RunZygiskIff` | native/src/core/bootstages.rs:170-180 | Zygisk runs exactly in the lives whose pass was not cut short and found it switched on, from that pass on |
| `BootStages.AbortsIff` | native/src/core/bootstages.rs:132-150 | A pass is cut short without being counted exactly when the environment or the secure directory is missing, and then leaves the settings |
| `BootStages.SafeLifeHasNoLate` | native/src/core/bootstages.rs:224-254 | In the rest of a life in safe mode late-start never runs |
| `BootStages.LateStartRunsTwice` | native/src/core/bootstages.rs:237-244 | Two late-start requests in one life run it twice |
| `BootStages.LateOnceIff` | native/src/core/bootstages.rs:224-254 | Over every run, late-start runs at most once in each daemon life if and only if no life holds two requests for it behind a post-fs-data pass that is not cut short |
| `BootStages.Daemon.Handle` | native/src/core/bootstages.rs:224-254 | The dispatcher on the flags and settings in place is the step of the model |
| `BootStages.Daemon.PostFsDataStage` | native/src/core/bootstages.rs:132-180 | The stage with its aborts, the count and safe mode, as in the model |

## Left out

- Kernel and library calls (mounts as system calls, sockets, processes, `mmap`, file attributes, SELinux contexts) appear only as the steps, parameters or values they stand for.
- The compressors (XZ, LZ4 and the others), SQLite, libsepol, hashing and signing are abstract, with the contract each model states.
- ThreadPools.EveryRunKeepsInv: thread creation is taken to succeed, and the exit of a forked worker is not modelled.
- CpioFormat.LoadDump: proved for names and numbers the format can carry; `CpioFormat.LoadDumpIff` says which of the text names are left out.
- The other cpio commands (`add`, `mkdir`, `ln`, `mv`, `extract`, `ls`, `patch`, `test`) would only add easy members.
- Overlays.Mounts.CommitTmpfs: what a real symlink lists when opened as a directory is a fixed parameter; that an earlier mount may change it is not modelled.
- Overlays.Mounts.Commit: children are committed in any order with `framework` first, which includes the order of the source; failures other than a mismatch of kinds are not modelled.
- Overlays.Mounts.ApplyModules: the virtual tree is a parameter; `ModuleLists.ApplyModules` builds it.
- ModuleLists.ApplyModules: the partition root of `system` is taken to be a real directory; the entries of the search path, with their number of files, are a parameter; properties and scripts of modules are left out.
- ModuleLists.InjectMagiskBins: which directories can be walked, and whether they have `su`, is part of the search path given.
- ModuleLists.InjectZygiskBins: which libraries there are is given; `ModuleLists.Libraries` reads it off the build and the linkers of the device.
- Lz4.RoundTripIff: data of 2^32 bytes or more, where the running total wraps, is left out; input and output errors of the underlying streams are left out.
- Lz4.Encode: nothing is said from 2^32 bytes on.
- Lz4.Encoder.Finish: nothing is said where the running total has wrapped.
- Lz4.WalkTellsTheForms: the walk is a function with a step budget, since the loop of the source need not end; nothing is said where stream and data together reach 2^32 bytes, or where a stream with several magics is so long that the walk lands inside its blocks.
- Xperms.Key.Add: one key with at most one node of each kind; `XpermRules` has the expansion of wildcards to keys, and the check of the policy version is left out.
- XpermText.ParseSterm: statements other than access-vector and extended permission rules are not parsed.
- RuleLines.RunAvLine: lines of extended permission rules are read, but carried out only on a key (`RuleLines.XpermLineGrants`) and on resolved names (`XpermRules`).
- AvRules.Policydb.AddRule: type aliases and the order of the hash tables are left out.
- Denylist.RunInSync: requests run one after the other here, `DenyOverlap` has the overlapping ones; database calls are taken to work, except that an insert meets the primary key; killing processes is left out.
- DenyOverlap.OverlapInSyncIff: the scan on a zygote restart, which takes no lock in the source, is one step like the others, and so is the load together with its scan.
- DenyOrder.OverlapRefines: proved for orderly runs; `DenyOverlap.OverlapInSyncIff` has every run.
- BootStages.EveryRunKeepsInv: database writes are taken to work and the 32-bit overflow of the count is left out.
- BootImage.Repack: headers are values, so their encoding and checksums are left out; component data stands for what goes into the image after recompression; zImage, MTK, DHTB, BLOB, Nook, Amonet, ChromeOS, AVB and vendor trailers are left out.
- `dtb.rs`, `payload.rs`, `sign.rs`, `find_preinit_device`, `revert_unmount`, argument parsing, sockets, persistent properties and resetprop are left out: mostly library calls or easier members.
