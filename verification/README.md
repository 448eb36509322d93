# The LevelDB and nanopb cores, verified

This project models the two libraries under `anissagram/Pods` that hold the repository's hard code, the
LevelDB storage engine and the nanopb encoder and decoder, and proves what they promise.

**The store as a state machine.** `Engine` describes the store by its memtable, immutable memtable, version
(seven levels of tables), logs, manifest and snapshots, and by thirteen steps: append a group to the log, apply it,
skip the numbers of one whose log write failed, switch memtables, flush, move, compact, install a version, take or
release a snapshot, delete obsolete files, lose a record that was being written, and crash and recover. `history` is
the set of acknowledged writes, and `floor` the oldest sequence number that is still promised to readers.
`EngineProofs` proves, over every run, that levels stay sorted and disjoint, that newer data lies above older, that
live logs and tables hold what they must, and that reads from memory and from disk agree with the history. `DbImpl` is
the class with the source's fields whose methods are shown to take these steps.

**Under the state machine.** `CompactionInputs` (which files a compaction takes), `CompactionWork` (the drop rules and
the output loop), `CompactionReads` (what a compaction means for readers), `VersionBuilder`, `VersionEdits`,
`VersionSearch`, `SortedRuns`, `Recovery`. `EditCodec`, `Manifests`, `VersionSets` and `ManifestRuns` carry the
manifest from the engine's steps down to the bytes of its records and back, and `LogRecovery` does so for the logs:
from the bytes a crash leaves of all of them to the recovery step of the engine.

**Readers.** `DbIter`, `Merger`, `TwoLevel` and `BlockIter` are the cursors, each proved against a list of entries;
`IteratorStack` shows that a merging iterator, a two-level iterator and the iterator over a block's bytes cannot be told
from a cursor by any sequence of calls, which is what `DbIter` and the layers between run on. `TableIterator` carries
this from the entries added to a `TableBuilder`, through the bytes of the file, to the iterator of the finished table
and to lookups in it, and `TableFilter` builds the filter block beside the table. `StoreScan` ties the walk to the
acknowledged history. `SkipList` relinks nodes one store at a time with readers in between; `MemTables` is the encoding
on top of it.

**Formats and structures.** `LogWriter`, `LogReader`, `LogProofs`; `BlockFormat`, `BlockBuilder`, `TableBuilder`,
`TableLookup`, `Comparators`; `FilterBlock`, `Bloom`; `WriteBatch`, `Coding`; `HandleTables`, `LruLists`, `LruCache`.

**Writers in groups.** `GroupCommit` is the protocol of the writer queue; `GroupRefinement` shows that it runs on the
engine, through failed log writes and any number of crashes, so that success for a writer means durability.

**nanopb.** `Nanopb` defines messages, their encoding and their pieces; `NanopbEncode`, `NanopbStream`,
`NanopbCommon`, `NanopbDecode` and `NanopbPieces` are the two libraries' loops and the round trip. The wire form is that
of the Protocol Buffers encoding, sections "Base 128 Varints" and "Length-Delimited Records".

Objects that the source updates in place are classes with the source's fields; algorithms that only compute are
functions; and each method is tied to a specification function or states its result outright. Clocks, randomness and
sizes that only steer choices (memtable full, output big enough, height of a node, level to compact) are parameters.

To check it: `dafny verify dfyconfig.toml`.

## Findings

| source | what happens | members |
|---|---|---|
| anissagram/Pods/leveldb-library/db/version_set.cc:1407 | `SetupOtherInputs` searches for boundary files on `level` only, not on `level + 1`. When a compaction output was cut between a deletion and the older value of its user key, a later compaction can take the file with the deletion, drop the deletion, and leave the file with the value: the deleted key reads as present again. The comment at lines 1364-1377 gives the reason for the search, which holds on `level + 1` as well. | `CompactionReads.UnsealedParentCanResurface` (the version and the inputs the code chooses), `ResurfacingRun.DeletedKeyComesBack` (a whole run from the empty store), `CompactionReads.CompactionMeaning` and `CompactionReads.ReadsKeptIffBoundariesShowNothing` (exactly when a compaction preserves reads), `EngineProofs.ReadsInRunIffBoundariesShowNothing` (exactly when a run keeps all promised reads), `CompactionReads.SealedParentsAreSafe` and `EngineProofs.SealedRunsKeepHistory` (a condition on file ranges under which it always does) |
| anissagram/Pods/leveldb-library/db/version_set.cc:650-754 | One save after several edits is not the same as saving after each: a file of the base that is deleted and added again is listed twice (unless assertions are on, which then stop the program), and a number given to another file after a deletion brings the deleted file back. The engine never writes such edits. | `VersionBuilder.BaseFileAddedAgain`, `VersionBuilder.NumberUsedAgain`, `VersionBuilder.SavesAgreeIff` (when the two agree), `ManifestRuns.EveryManifest` (the engine's edits are allowed) |
| anissagram/Pods/leveldb-library/db/db_impl.cc:939-955 | The greatest sequence number stands for "no entry of this user key yet", so a compaction whose oldest snapshot is that number drops every entry. The engine's last sequence number stays below it. | `CompactionWork.ShouldDrop`, `CompactionWork.DoCompactionWork` |
| anissagram/Pods/leveldb-library/db/version_edit.cc:26-39 | `Clear` leaves the compaction pointers, so decoding into a used edit puts the old ones in front. | `EditCodec.EditRoundTrip` |
| anissagram/Pods/nanopb/pb_common.c:78-95 | In an empty table, a search for tag 0 finds the terminator. Decoding never searches for it, since a zero tag ends the message before. | `NanopbCommon.FieldIter.Find` |

## Model

| member | source | states |
|---|---|---|
| `EngineProofs.EveryRun` | anissagram/Pods/leveldb-library/db/db_impl.cc:1185-1256 | After any number of appends, applies, failed log writes, memtable switches, flushes, moves, compactions, installs, snapshots, clean-ups, crashes with or without the record being written, and recoveries, in any order, every structural invariant holds; if no compaction resurfaced anything, every promised snapshot reads the acknowledged history, both in memory and on disk |
| `EngineProofs.CrashLosesNothing` | anissagram/Pods/leveldb-library/db/db_impl.cc:280-369 | After a crash in any reachable state of a safe run, recovery reads, at every promised snapshot and at its own last sequence number, exactly the acknowledged writes plus at most the group in flight |
| `EngineProofs.StepKeeps` | anissagram/Pods/leveldb-library/db/db_impl.cc:535-566 | Each single step keeps all invariants, and keeps the promised reads unless it is a compaction that exposes something below a deletion it drops |
| `EngineProofs.SealedRunsKeepHistory` | anissagram/Pods/leveldb-library/db/version_set.cc:1378-1401 | If in every compaction the files taken from level + 1 leave no boundary file behind, a condition on file ranges alone, then in every reachable state every promised snapshot reads the acknowledged history |
| `EngineProofs.SealedCrashLosesNothing` | anissagram/Pods/leveldb-library/db/version_set.cc:1378-1401 | For such runs a crash at any moment loses no acknowledged write |
| `EngineProofs.SealedStepIsSafe` | anissagram/Pods/leveldb-library/db/version_set.cc:1403-1447 | In a reachable state, a compaction with sealed inputs on level + 1 exposes nothing to any reader |
| `EngineProofs.SealedRunIsSafe` | anissagram/Pods/leveldb-library/db/version_set.cc:1403-1447 | A run whose compactions are all sealed meets the hypothesis of the durability theorem |
| `EngineProofs.SafeIffBoundariesShowNothing` | anissagram/Pods/leveldb-library/db/version_set.cc:1403-1447 | In a reachable state a compaction is safe if and only if no boundary file that it leaves on level + 1 shows a value below a deletion that it drops |
| `EngineProofs.ReplayedMeaning` | anissagram/Pods/leveldb-library/db/db_impl.cc:346-362 | Replaying the live logs yields exactly the two memtables and the group in flight: nothing flushed comes back, nothing unflushed is lost |
| `EngineProofs.ReplayKeepsInstalled` | anissagram/Pods/leveldb-library/db/db_impl.cc:491-533 | Adding replayed tables to level 0 keeps levels disjoint, numbers unique, and newer data above older |
| `EngineProofs.LoseKeeps` | anissagram/Pods/leveldb-library/db/db_impl.cc:1208-1222 | A crash before all of the record in flight is in the log leaves every invariant and every promised read as they were |
| `EngineProofs.OldestIsPromised` | anissagram/Pods/leveldb-library/db/db_impl.cc:890-894 | The snapshot a compaction drops for, the oldest or the last sequence number, is not below what readers were promised |
| `EngineProofs.RecoveredLastCovers` | anissagram/Pods/leveldb-library/db/db_impl.cc:364-366 | The sequence number recovery ends with is at least that of every acknowledged write and of the group in flight, whatever numbers failed writes used up |
| `EngineProofs.CompactKeeps` | anissagram/Pods/leveldb-library/db/db_impl.cc:860-876 | Installing a compaction keeps every structural invariant whatever the drop rules drop, and keeps the promised reads when it is safe |
| `EngineProofs.NewWritesKeepSameReads` | anissagram/Pods/leveldb-library/db/db_impl.cc:1205-1236 | Two stores that read alike still read alike after both receive the same newer writes |
| `EngineProofs.ReadsKeptIffSafe` | anissagram/Pods/leveldb-library/db/db_impl.cc:929-998 | From a reachable state whose promised reads are right, a step leaves them right if and only if it is not a compaction that exposes something below a deletion it drops |
| `EngineProofs.ReadsInRunIffSafe` | anissagram/Pods/leveldb-library/db/db_impl.cc:929-998 | Over whole runs: every promised read is right in every state if and only if every compaction is safe |
| `EngineProofs.ReadsInRunIffBoundariesShowNothing` | anissagram/Pods/leveldb-library/db/version_set.cc:1403-1447 | Over whole runs, in terms of files: every promised read is right in every state if and only if no compaction leaves a boundary file on level + 1 that shows a value below a deletion it drops |
| `CompactionReads.CompactionMeaning` | anissagram/Pods/leveldb-library/db/db_impl.cc:929-998 | A compaction of a valid version gives a valid version with no new entries, and it preserves every read at every snapshot from the oldest on if and only if no deletion it drops hides a value that stays behind |
| `CompactionReads.ReadsKeptIffBoundariesShowNothing` | anissagram/Pods/leveldb-library/db/version_set.cc:1321-1401 | The same equivalence in terms of files: reads are preserved if and only if no boundary file left on level + 1 shows a value below a dropped deletion |
| `CompactionReads.SealedParentsAreSafe` | anissagram/Pods/leveldb-library/db/version_set.cc:1364-1401 | With no boundary file left on level + 1, nothing resurfaces, whatever the rest of the store holds |
| `CompactionReads.UnsealedParentCanResurface` | anissagram/Pods/leveldb-library/db/version_set.cc:1407 | A version that meets every invariant, with the inputs the code chooses for it, on which a key that reads as deleted reads as present after the compaction |
| `CompactionReads.VisibleBelowIsBoundary` | anissagram/Pods/leveldb-library/db/version_set.cc:1533-1552 | Whatever a reader at the oldest snapshot can see of the user key of a dropped deletion, outside the inputs, lies in a boundary file on level + 1 |
| `CompactionReads.ReadBelowDeletion` | anissagram/Pods/leveldb-library/db/version_set.cc:1533-1552 | So the answer exposed by a dropped deletion is the answer of those boundary files alone |
| `CompactionReads.OlderLeftIsBoundary` | anissagram/Pods/leveldb-library/db/version_set.cc:1364-1377 | An entry left behind that is not newer than an input entry of the same user key is in a boundary file of level + 1 |
| `CompactionReads.MoveMeaning` | anissagram/Pods/leveldb-library/db/db_impl.cc:718-726 | A trivial move keeps all invariants and exactly the same entries |
| `CompactionReads.CompactionContents` | anissagram/Pods/leveldb-library/db/db_impl.cc:860-876 | A compaction splits the entries into those it leaves and those it takes, disjointly, and replaces the latter by a subset |
| `ResurfacingRun.DeletedKeyComesBack` | anissagram/Pods/leveldb-library/db/version_set.cc:1403-1447 | There is a run from the empty store, of writes, flushes, a move, a snapshot taken and released, and two compactions with the inputs the code chooses, after which a key deleted by an acknowledged write reads as present |
| `ResurfacingRun.DeletionIsCutOff` | anissagram/Pods/leveldb-library/db/version_set.cc:1378-1401 | The same run halfway: a compaction output cut between a deletion and the value under it leaves them in adjacent files of one level |
| `ResurfacingRun.BeforeTheCompaction` | anissagram/Pods/leveldb-library/db/version_set.cc:1403-1447 | The state before the second compaction is reached from the empty store by steps of the engine |
| `CompactionWork.DoCompactionWork` | anissagram/Pods/leveldb-library/db/db_impl.cc:878-1036 | However the output is cut into tables, the tables concatenated are exactly the entries of the input that rules (A) and (B) keep, or nothing when the oldest snapshot is the greatest sequence number there is, each table is sorted with its true range, the tables are disjoint, and they take consecutive file numbers |
| `CompactionWork.ShouldDrop` | anissagram/Pods/leveldb-library/db/db_impl.cc:948-974 | The decision from the variables the loop carries is the decision the two drop rules make for that entry of the merged input; with the greatest sequence number as the oldest snapshot every entry is dropped |
| `CompactionWork.CompactionKeepsReadsIff` | anissagram/Pods/leveldb-library/db/db_impl.cc:953-970 | The drop rules preserve every read from the oldest snapshot on if and only if no dropped deletion hides something outside the input |
| `CompactionWork.NewestSurvives` | anissagram/Pods/leveldb-library/db/db_impl.cc:953-970 | An entry that is newest for some reader and is not an obsolete deletion keeps its answer |
| `CompactionWork.DroppedDeletionExposes` | anissagram/Pods/leveldb-library/db/db_impl.cc:957-970 | When the newest entry is a dropped deletion, readers get what is left outside the input, at every snapshot |
| `CompactionWork.NothingSurvivesBelow` | anissagram/Pods/leveldb-library/db/db_impl.cc:961-967 | Below a dropped deletion no older entry of the input is kept: point (3) of the source comment |
| `CompactionWork.AddEntry` | anissagram/Pods/leveldb-library/db/db_impl.cc:986-1010 | Writing one entry opens and closes outputs as needed and appends just this entry to what was written |
| `CompactionWork.FinishOutput` | anissagram/Pods/leveldb-library/db/db_impl.cc:811-858 | A finished output records the first and the last key written as its range |
| `CompactionWork.BaseLevelCursor.constructor` | anissagram/Pods/leveldb-library/db/version_set.cc:1497-1507 | The pointers start at the front of every level and no key has been asked about |
| `CompactionWork.BaseLevelCursor.IsBaseLevelForKey` | anissagram/Pods/leveldb-library/db/version_set.cc:1533-1552 | For keys asked in ascending order, the pointers that never move back give the answer of a full scan of the levels below |
| `CompactionWork.CutsAreDisjoint` | anissagram/Pods/leveldb-library/db/db_impl.cc:811-858 | Cutting a sorted run into consecutive tables gives a sorted, disjoint level |
| `SortedRuns.MergeAllMeaning` | anissagram/Pods/leveldb-library/db/version_set.cc:1237-1268 | The merge of sorted inputs with distinct keys is sorted and holds exactly their entries |
| `CompactionInputs.GetOverlappingInputs` | anissagram/Pods/leveldb-library/db/version_set.cc:519-559 | Terminates; above level 0 the result is the files that meet the request, and on level 0 it is the files that meet the least range that contains the request and every chosen file |
| `CompactionInputs.SetupOtherInputs` | anissagram/Pods/leveldb-library/db/version_set.cc:1403-1462 | The inputs on the level are the candidate and its boundary files, or a larger choice that takes in everything the whole range meets, just when it is small enough and leaves the files of level + 1 as they were; these are exactly the files that meet the range of the choice; the next pointer is the largest key taken |
| `CompactionInputs.AddBoundaryInputs` | anissagram/Pods/leveldb-library/db/version_set.cc:1378-1401 | Extends the candidate by boundary files only, each starting with the user key the file before ends with, until no file of the level does; on level 0 nothing is added |
| `CompactionInputs.Expand` | anissagram/Pods/leveldb-library/db/version_set.cc:1416-1424 | The grown choice is sealed, contains the one before, and has every file of the level that meets the range of all inputs |
| `CompactionInputs.MayUse` | anissagram/Pods/leveldb-library/db/version_set.cc:1426-1446 | A grown choice is taken exactly when it is larger, within the byte limit, and meets the same files on level + 1 |
| `CompactionInputs.SealedLeavesNewer` | anissagram/Pods/leveldb-library/db/version_set.cc:1364-1377 | Whatever a sealed choice leaves on its level is newer than all it takes, for every user key they share |
| `CompactionInputs.NextIsFirstBoundary` | anissagram/Pods/leveldb-library/db/version_set.cc:1344-1362 | On a sorted level the smallest boundary file is the next file |
| `CompactionInputs.FindSmallestBoundaryFile` | anissagram/Pods/leveldb-library/db/version_set.cc:1344-1362 | Finds the least boundary file, or there is none |
| `CompactionInputs.GetRange` | anissagram/Pods/leveldb-library/db/version_set.cc:1205-1224 | Bounds that inputs attain and none exceeds |
| `CompactionInputs.PickCompaction` | anissagram/Pods/leveldb-library/db/version_set.cc:1270-1318 | The candidate contains the file due next, the first past the pointer or, after the last, the first of the level, or the file that used up its seeks; on level 0 it fills a closed range |
| `CompactionInputs.FirstAfter` | anissagram/Pods/leveldb-library/db/version_set.cc:1282-1296 | The first file whose largest key is past the pointer, wrapping around to the front |
| `CompactionInputs.CompactRange` | anissagram/Pods/leveldb-library/db/version_set.cc:1464-1495 | Nothing is chosen exactly when nothing meets the range; on level 0 all that meets it is chosen, and above it a prefix that is everything or reaches the size limit |
| `CompactionInputs.CutToSize` | anissagram/Pods/leveldb-library/db/version_set.cc:1473-1487 | The shortest prefix of the files that reaches the limit, or all of them |
| `CompactionInputs.MeetingIsRun` | anissagram/Pods/leveldb-library/db/version_set.cc:519-559 | On a sorted level the files that meet a range are neighbours |
| `CompactionInputs.WiderKeepsMeeting` | anissagram/Pods/leveldb-library/db/version_set.cc:1417-1430 | A wider range chooses no fewer files, and the same files if it chooses as many |
| `VersionEdits.FlushKeepsInstalled` | anissagram/Pods/leveldb-library/db/version_set.cc:491-516 | A flushed table at any level the overlap tests allow keeps levels disjoint, newer data above older and numbers unique, and adds exactly its entries |
| `VersionEdits.ReplaceKeepsInstalled` | anissagram/Pods/leveldb-library/db/version_set.cc:1403-1462 | Replacing sealed, covering inputs by outputs cut from them keeps all structural invariants of the version |
| `VersionEdits.ApplyOneEdit` | anissagram/Pods/leveldb-library/db/version_set.cc:650-754 | The builder on one edit with fresh numbers gives exactly the edited file sets, sorted |
| `VersionEdits.LeftParentIsApart` | anissagram/Pods/leveldb-library/db/version_set.cc:1403-1447 | A file left on level + 1 lies entirely before or entirely after all inputs in internal-key order |
| `VersionEdits.OneHome` | anissagram/Pods/leveldb-library/db/version_set.cc:326-421 | An entry of a valid version is in one file of one level only |
| `VersionSearch.Get` | anissagram/Pods/leveldb-library/db/version_set.cc:326-421 | The search that stops at the first level with an answer returns the newest visible entry of the whole version, or none exists |
| `VersionSearch.GetLevelZero` | anissagram/Pods/leveldb-library/db/version_set.cc:349-363 | On level 0, files tried newest first give the newest visible entry of the level |
| `VersionSearch.GetSortedLevel` | anissagram/Pods/leveldb-library/db/version_set.cc:364-382 | On a sorted level the one file found by binary search decides |
| `VersionSearch.FindFile` | anissagram/Pods/leveldb-library/db/version_set.cc:88-106 | The first file whose largest key is not below the key |
| `VersionSearch.SomeFileOverlapsRange` | anissagram/Pods/leveldb-library/db/version_set.cc:122-158 | Both the scan and the binary search decide whether any file meets the range |
| `VersionSearch.TableGetIsNewest` | anissagram/Pods/leveldb-library/db/version_set.cc:263-276 | A seek for the lookup key and one comparison of user keys find the newest visible entry of a sorted table, or there is none |
| `InternalKeys.CompareMeaning` | anissagram/Pods/leveldb-library/db/dbformat.cc:14-67 | Comparing packed numbers is ordering by user key, then by descending sequence number and type; the packed number holds both parts in 64 bits |
| `InternalKeys.LookupKeySplits` | anissagram/Pods/leveldb-library/db/dbformat.cc:121-137 | A lookup key separates the entries too new for the snapshot from the visible ones |
| `InternalKeys.NewestExists` | anissagram/Pods/leveldb-library/db/dbformat.cc:51-67 | If any entry is visible there is a newest one |
| `DbImpl.DBImpl.Get` | anissagram/Pods/leveldb-library/db/db_impl.cc:1100-1145 | Memtable, immutable memtable, then the version, stopping at the first hit, is the read of everything in memory; at a promised snapshot it is the read of the acknowledged history |
| `DbImpl.DBImpl.Write` | anissagram/Pods/leveldb-library/db/db_impl.cc:1185-1256 | A valid store stays valid; one group is one append step followed by one apply step of the engine, after which its updates are acknowledged, or, if the log write fails, just uses up its numbers |
| `DbImpl.DBImpl.CompactMemTable` | anissagram/Pods/leveldb-library/db/db_impl.cc:535-566 | A valid store stays valid through flush, installation and clean-up, after which the frozen memtable is gone |
| `DbImpl.DBImpl.CompactAndInstall` | anissagram/Pods/leveldb-library/db/db_impl.cc:688-767 | A valid store stays valid through a whole compaction or move with its installation, dropping only for the oldest snapshot or the last sequence number |
| `DbImpl.DBImpl.Open` | anissagram/Pods/leveldb-library/db/db_impl.cc:280-369 | Opening what a crash of any valid store left gives a valid store, by one recovery step |
| `DbImpl.DBImpl.StaysValid` | anissagram/Pods/leveldb-library/db/db_impl.cc:127-151 | Any step of the engine that the object represents leaves it valid |
| `DbImpl.DBImpl.AppendRecord` | anissagram/Pods/leveldb-library/db/db_impl.cc:1205-1222 | The group reaches the log before any reader can see it |
| `DbImpl.DBImpl.ApplyRecord` | anissagram/Pods/leveldb-library/db/db_impl.cc:1223-1236 | The group reaches the memtable, and the last sequence number moves once past all of it |
| `DbImpl.DBImpl.MakeRoomForWrite` | anissagram/Pods/leveldb-library/db/db_impl.cc:1310-1370 | The writer waits exactly when it needs room and the frozen memtable is still there or level 0 is full; otherwise the memtable is switched exactly when it needs room |
| `DbImpl.DBImpl.FlushMemTable` | anissagram/Pods/leveldb-library/db/db_impl.cc:535-566 | CompactMemTable up to the manifest write is the engine's flush step, at a level the overlap tests allow |
| `DbImpl.DBImpl.InstallVersion` | anissagram/Pods/leveldb-library/db/db_impl.cc:535-566 | Installing the manifest's version is the engine's install step |
| `DbImpl.DBImpl.BackgroundCompaction` | anissagram/Pods/leveldb-library/db/db_impl.cc:688-767 | For any candidate, a step of the engine on this level that takes all of the candidate: a trivial move only when not manual and the grandparents allow it, and a rewriting compaction only when it is not a single file without parents or one of these fails; its snapshot is the oldest one or the last sequence number, so none that readers were promised is lost by it |
| `DbImpl.DBImpl.DeleteObsoleteFiles` | anissagram/Pods/leveldb-library/db/db_impl.cc:223-278 | Exactly the tables of the version and the live logs stay |
| `DbImpl.DBImpl.Recover` | anissagram/Pods/leveldb-library/db/db_impl.cc:280-369 | Opening what a crash left is the engine's recovery step: the tables named by the manifest and the replay of its logs |
| `DbImpl.DBImpl.SmallestSnapshot` | anissagram/Pods/leveldb-library/db/db_impl.cc:890-894 | No snapshot is older, and it is one of them or the last sequence number |
| `DbImpl.DBImpl.GetSnapshot` | anissagram/Pods/leveldb-library/db/db_impl.cc:1166-1169 | The snapshot is taken at the last sequence number |
| `DbImpl.DBImpl.ReleaseSnapshot` | anissagram/Pods/leveldb-library/db/db_impl.cc:1171-1174 | Just this snapshot goes |
| `DbImpl.DBImpl.constructor` | anissagram/Pods/leveldb-library/db/db_impl.cc:127-151 | A new store is the engine's initial state |
| `DbImpl.PickLevelForMemTableOutput` | anissagram/Pods/leveldb-library/db/version_set.cc:491-516 | The level is the first from which the table may not go down, because it overlaps the next level or too many bytes of the one after, at most 2, and 0 if it overlaps anything on level 0; so no file at the level or above it overlaps the table |
| `DbImpl.HitIsNewest` | anissagram/Pods/leveldb-library/db/db_impl.cc:1119-1135 | Because layers hold ascending stretches of sequence numbers, the first layer that answers has the newest entry of all |
| `DbImpl.ReplayDisk` | anissagram/Pods/leveldb-library/db/db_impl.cc:280-369 | Recovery from disk replays exactly the live records into tables and names them in the next version |
| `DbImpl.RewriteInputs` | anissagram/Pods/leveldb-library/db/db_impl.cc:878-1036 | Merging, dropping and cutting the planned inputs gives the outputs and the edited version |
| `DbImpl.MergedInputs` | anissagram/Pods/leveldb-library/db/version_set.cc:1237-1268 | The merge of all input tables is the input of the compaction |
| `Recovery.RecoverLogFile` | anissagram/Pods/leveldb-library/db/db_impl.cc:371-489 | After log k the level-0 tables hold exactly the entries of all records of logs 0 to k, wherever the memtable was cut, and the maximum sequence number is theirs |
| `Recovery.ReplayLogs` | anissagram/Pods/leveldb-library/db/db_impl.cc:346-362 | All live logs together: tables with exactly the replayed entries, and the greatest sequence number |
| `Recovery.LiveLogs` | anissagram/Pods/leveldb-library/db/db_impl.cc:331-350 | All logs numbered at least the manifest's log number, and the previous log, ascending |
| `LogRecovery.OpenStore` | anissagram/Pods/leveldb-library/db/db_impl.cc:280-489 | After a crash at any moment of any run: from the bytes of the manifest and of the live logs, each cut off anywhere behind its acknowledged records, opening the store succeeds and is a recovery step of the store with the group in flight, or without any of it |
| `LogRecovery.OpenedStoreReads` | anissagram/Pods/leveldb-library/db/db_impl.cc:280-489 | If the run sealed its compactions, the opened store reads at every promised snapshot exactly the acknowledged writes, with all of the group in flight or nothing of it |
| `LogRecovery.RecoverLogs` | anissagram/Pods/leveldb-library/db/db_impl.cc:317-369 | From the bytes of the live logs on, recovery loses no acknowledged record |
| `LogRecovery.CrashKeepsAcknowledged` | anissagram/Pods/leveldb-library/db/db_impl.cc:317-369 | What is read after such a recovery is right at every promised snapshot, and its last sequence number covers every acknowledged write |
| `LogRecovery.EveryFile` | anissagram/Pods/leveldb-library/db/db_impl.cc:1205-1212 | In every run the file of each live log holds exactly the encoded batches of its records |
| `LogRecovery.ReadLiveLogs` | anissagram/Pods/leveldb-library/db/db_impl.cc:331-356 | For any files: exactly the live ones are read, and it fails exactly when one of them is damaged or holds a record that is not a batch |
| `LogRecovery.ReadLogFile` | anissagram/Pods/leveldb-library/db/db_impl.cc:371-446 | For any bytes: the records that the log reader and the batch decoder find, or a failure |
| `LogRecovery.CutLogReads` | anissagram/Pods/leveldb-library/db/db_impl.cc:425-446 | A log cut off behind its acknowledged records reads as these and whatever else is whole after them, and nothing is reported |
| `Recovery.WriteLevel0Table` | anissagram/Pods/leveldb-library/db/db_impl.cc:491-533 | The memtable becomes one table with its entries; an empty one leaves no table but takes a number |
| `Recovery.ReplayIsRecovery` | anissagram/Pods/leveldb-library/db/db_impl.cc:364-366 | What was replayed is what the engine's recovery step asks for |
| `Recovery.LiveLogsAscend` | anissagram/Pods/leveldb-library/db/db_impl.cc:346-350 | In any reachable store, replaying logs in number order is replaying in sequence order |
| `Recovery.InsertInto` | anissagram/Pods/leveldb-library/db/write_batch.cc:118-137 | Update i of a record enters the memtable under the record's number plus i, and nothing else changes |
| `VersionBuilder.BuilderRefinesSequentialEdits` | anissagram/Pods/leveldb-library/db/version_set.cc:650-754 | Applying a list of edits to a builder and saving once lists the same sorted files as saving after every edit, when no file is added where it already is, numbers are new to the base, and a number stands for one file |
| `VersionBuilder.SavesAgreeIff` | anissagram/Pods/leveldb-library/db/version_set.cc:650-754 | For such numbers, one save agrees with saving after each edit, after every prefix of the edits, if and only if no file is added where it already is |
| `VersionBuilder.AddedTwiceDiffers` | anissagram/Pods/leveldb-library/db/version_set.cc:650-754 | Adding a file where it already is makes the two differ |
| `VersionBuilder.BaseFileAddedAgain` | anissagram/Pods/leveldb-library/db/version_set.cc:739-754 | A file of the base that is deleted and added again is listed twice by one save, and once by successive saves |
| `VersionBuilder.NumberUsedAgain` | anissagram/Pods/leveldb-library/db/version_set.cc:666-692 | A number given to another file after a deletion makes one save list the deleted file again |
| `VersionBuilder.SaveLevelMeaning` | anissagram/Pods/leveldb-library/db/version_set.cc:695-754 | A saved level lists exactly the live files, in order and once each |
| `VersionBuilder.ApplyEditMeaning` | anissagram/Pods/leveldb-library/db/version_set.cc:650-692 | Applying an edit has the effect of the edit on the set of live files |
| `VersionBuilder.ApplyAllMeaning` | anissagram/Pods/leveldb-library/db/version_set.cc:650-692 | So do any number of edits, one after the other |
| `VersionBuilder.Builder.Apply` | anissagram/Pods/leveldb-library/db/version_set.cc:650-692 | Deletions before additions, and an addition takes its number off the deleted set |
| `VersionBuilder.Builder.SaveTo` | anissagram/Pods/leveldb-library/db/version_set.cc:695-754 | The merge of base and added files, skipping deleted numbers, level by level |
| `ManifestRuns.EveryManifest` | anissagram/Pods/leveldb-library/db/version_set.cc:801-884 | In every reachable state the records written since the live manifest was started rebuild its version, and the last of them sets its numbers; each edit the engine makes is allowed by those before it |
| `ManifestRuns.ManifestIsReplayed` | anissagram/Pods/leveldb-library/db/version_set.cc:924-1000 | For every reachable state, a builder applied to the edits of the records and saved once gives the live version, and the latest records give the log number, next file number and last sequence number |
| `ManifestRuns.RecoverManifest` | anissagram/Pods/leveldb-library/db/version_set.cc:886-1011 | From the bytes of the manifest file of any reachable state, through the log reader, the edit decoder and the builder, recovery finds exactly the manifest the engine goes by |
| `ManifestRuns.FlushIsAllowed` | anissagram/Pods/leveldb-library/db/db_impl.cc:535-566 | A flush adds a number no earlier edit used |
| `ManifestRuns.MoveIsAllowed` | anissagram/Pods/leveldb-library/db/db_impl.cc:718-726 | A move takes a file down to a level that no earlier edit put it on |
| `ManifestRuns.OutputsAreAllowed` | anissagram/Pods/leveldb-library/db/db_impl.cc:860-876 | Compaction outputs have numbers no earlier edit used, each its own |
| `ManifestRuns.RecoveredIsAllowed` | anissagram/Pods/leveldb-library/db/db_impl.cc:491-533 | Replayed tables have numbers the snapshot record does not use |
| `ManifestRuns.NewManifestWrites` | anissagram/Pods/leveldb-library/db/version_set.cc:831-850 | A new manifest, a snapshot of the version and one edit, describes the next version |
| `Manifests.Grows` | anissagram/Pods/leveldb-library/db/version_set.cc:650-754 | One more allowed edit keeps the record list rebuilding the version |
| `Manifests.SavedOnce` | anissagram/Pods/leveldb-library/db/version_set.cc:695-754 | Applying all edits to an empty builder and saving once gives the version, level by level |
| `Manifests.SnapshotGrows` | anissagram/Pods/leveldb-library/db/version_set.cc:1088-1116 | The snapshot record rebuilds the version by itself |
| `VersionSets.VersionSet.LogAndApply` | anissagram/Pods/leveldb-library/db/version_set.cc:801-884 | The edit is completed with the current numbers, one record is appended, after a snapshot record if no manifest was open, and the current version becomes the edited one; the compaction pointers of the edit are set; the records in the file rebuild version, log numbers and pointers |
| `VersionSets.VersionSet.OpenManifest` | anissagram/Pods/leveldb-library/db/version_set.cc:831-840 | A new manifest starts with the snapshot of the current version and pointers, and an open one is left alone |
| `VersionSets.VersionSet.Recover` | anissagram/Pods/leveldb-library/db/version_set.cc:886-1011 | Records that make a version make it current again with the numbers of the latest ones and the pointers of all; missing numbers or another comparator leave version and numbers |
| `VersionSets.VersionSet.CompleteEdit` | anissagram/Pods/leveldb-library/db/version_set.cc:802-816 | Numbers the edit leaves open are filled in from the set, and nothing else changes |
| `VersionSets.Reopen` | anissagram/Pods/leveldb-library/db/version_set.cc:886-1011 | Closing a version set and recovering from its manifest gives back the version, both log numbers, the compaction pointers, and the next file number and last sequence number of the last LogAndApply |
| `VersionSets.ListPointers` | anissagram/Pods/leveldb-library/db/version_set.cc:1088-1107 | Setting the listed pointers one after the other on empty ones gives these pointers |
| `VersionSets.PointedTwice` | anissagram/Pods/leveldb-library/db/version_set.cc:650-656 | Setting an edit's pointers again, as the record of a new manifest does, changes nothing |
| `VersionSets.SaveAll` | anissagram/Pods/leveldb-library/db/version_set.cc:924-976 | Applying every edit to a builder and saving gives the saved levels |
| `VersionSets.SnapshotRecord` | anissagram/Pods/leveldb-library/db/version_set.cc:1088-1116 | The record of a version is that of an edit that adds exactly its files and sets exactly the pointers there are |
| `EditCodec.EditRoundTrip` | anissagram/Pods/leveldb-library/db/version_edit.cc:41-205 | Decoding an encoded edit restores it, in whatever order deleted files were written; compaction pointers already there stay in front, since Clear leaves them |
| `EditCodec.Recover` | anissagram/Pods/leveldb-library/db/version_set.cc:924-990 | From the records of edits the loop hands over exactly those edits in order with the latest numbers, and fails exactly when log number, next file number or last sequence number was never set; nothing it accepts names another comparator |
| `EditCodec.VersionEdit.EncodeTo` | anissagram/Pods/leveldb-library/db/version_edit.cc:41-85 | The bytes are the tagged entries of the edit, deleted files in ascending order of level and number |
| `EditCodec.VersionEdit.DecodeFrom` | anissagram/Pods/leveldb-library/db/version_edit.cc:107-205 | For any bytes, result and status are those of replaying the entries one after the other |
| `EditCodec.VersionEdit.Clear` | anissagram/Pods/leveldb-library/db/version_edit.cc:26-39 | Everything is cleared but the compaction pointers |
| `EditCodec.ReplayItems` | anissagram/Pods/leveldb-library/db/version_edit.cc:107-205 | Written entries are applied in turn and nothing is left over |
| `EditCodec.BodyRoundTrip` | anissagram/Pods/leveldb-library/db/version_edit.cc:120-195 | Each kind of entry is read back, and what follows it is left |
| `EditCodec.ReplayLevelsFit` | anissagram/Pods/leveldb-library/db/version_edit.cc:97-105 | However a record is damaged, no file with a level past the last one gets into an edit |
| `DbIter.LivePairsMeaning` | anissagram/Pods/leveldb-library/db/db_iter.cc:34-38 | The list the iterator walks is ascending and holds exactly the pairs a read at the snapshot finds |
| `DbIter.DBIter.Next` | anissagram/Pods/leveldb-library/db/db_iter.cc:141-166 | Moves to the next live pair, from either direction, or ends after the last |
| `DbIter.DBIter.Prev` | anissagram/Pods/leveldb-library/db/db_iter.cc:200-225 | Moves to the live pair before, from either direction, or ends before the first |
| `DbIter.DBIter.Seek` | anissagram/Pods/leveldb-library/db/db_iter.cc:269-281 | The first live pair not below the target, or none |
| `DbIter.DBIter.SeekToFirst` | anissagram/Pods/leveldb-library/db/db_iter.cc:283-292 | The first live pair, or none |
| `DbIter.DBIter.SeekToLast` | anissagram/Pods/leveldb-library/db/db_iter.cc:294-299 | The last live pair, or none |
| `DbIter.DBIter.FindNextUserEntry` | anissagram/Pods/leveldb-library/db/db_iter.cc:168-198 | Ends at the first entry that is the newest visible one of its key, is a value, and is past the key to skip |
| `DbIter.DBIter.FindPrevUserEntry` | anissagram/Pods/leveldb-library/db/db_iter.cc:227-267 | Ends with the last live entry before the bound saved, standing before all entries of its key |
| `DbIter.SwitchedForward` | anissagram/Pods/leveldb-library/db/db_iter.cc:144-160 | After switching to forward, the scan starts where nothing live is skipped |
| `DbIter.BackFound` | anissagram/Pods/leveldb-library/db/db_iter.cc:227-267 | A saved value with nothing visible of its key before it is the entry to yield |
| `StoreScan.IteratorWalksHistory` | anissagram/Pods/leveldb-library/db/version_set.cc:230-250 | In every reachable state whose promised reads hold, an iterator at a promised snapshot walks in ascending order exactly the keys of the acknowledged history that have a value there |
| `StoreScan.ScanContents` | anissagram/Pods/leveldb-library/db/db_impl.cc:1062-1087 | The merge of memtables, level-0 tables and one run per level is sorted and is exactly what readers of memory see |
| `StoreScan.LevelIterator` | anissagram/Pods/leveldb-library/db/version_set.cc:223-228 | The concatenating iterator of a sorted level runs over all its entries, and its seeks are sound |
| `Merger.MergingIterator.constructor` | anissagram/Pods/leveldb-library/table/merger.cc:14-25 | Starts outside the merge |
| `Merger.MergingIterator.Seek` | anissagram/Pods/leveldb-library/table/merger.cc:47-53 | The first merged entry not below the target |
| `Merger.MergingIterator.SeekToFirst` | anissagram/Pods/leveldb-library/table/merger.cc:31-37 | The first merged entry |
| `Merger.MergingIterator.SeekToLast` | anissagram/Pods/leveldb-library/table/merger.cc:39-45 | The last merged entry |
| `Merger.MergingIterator.Next` | anissagram/Pods/leveldb-library/table/merger.cc:55-79 | The next merged entry, whatever the direction before: the other children are moved past the current key |
| `Merger.MergingIterator.Prev` | anissagram/Pods/leveldb-library/table/merger.cc:81-108 | The merged entry before, whatever the direction before: the other children are moved before the current key |
| `Merger.MergingIterator.FindSmallest` | anissagram/Pods/leveldb-library/table/merger.cc:148-161 | With all children just after a cut of the merge, the iterator stands at the cut |
| `Merger.MergingIterator.FindLargest` | anissagram/Pods/leveldb-library/table/merger.cc:163-174 | With all children just before a cut, the iterator stands before it |
| `Merger.SmallestIsAt` | anissagram/Pods/leveldb-library/table/merger.cc:148-161 | The smallest current key of forward children is the next entry of the merge |
| `Merger.LargestIsAt` | anissagram/Pods/leveldb-library/table/merger.cc:163-174 | The largest current key of reverse children is the entry of the merge before the cut |
| `Merger.OtherCutMoves` | anissagram/Pods/leveldb-library/table/merger.cc:55-108 | Keys being distinct, when the current child leaves an entry the other children need not move |
| `TwoLevel.TwoLevelIterator.constructor` | anissagram/Pods/leveldb-library/table/two_level_iterator.cc:71-78 | Starts outside the concatenation |
| `TwoLevel.TwoLevelIterator.Seek` | anissagram/Pods/leveldb-library/table/two_level_iterator.cc:82-87 | The first entry of the concatenated blocks not below the target |
| `TwoLevel.TwoLevelIterator.SeekToFirst` | anissagram/Pods/leveldb-library/table/two_level_iterator.cc:89-94 | The first entry, past empty blocks |
| `TwoLevel.TwoLevelIterator.SeekToLast` | anissagram/Pods/leveldb-library/table/two_level_iterator.cc:96-101 | The last entry, past empty blocks |
| `TwoLevel.TwoLevelIterator.Next` | anissagram/Pods/leveldb-library/table/two_level_iterator.cc:103-107 | The next entry, across block ends |
| `TwoLevel.TwoLevelIterator.Prev` | anissagram/Pods/leveldb-library/table/two_level_iterator.cc:109-113 | The entry before, across block ends |
| `TwoLevel.TwoLevelIterator.SkipEmptyDataBlocksForward` | anissagram/Pods/leveldb-library/table/two_level_iterator.cc:115-126 | Skipping exhausted blocks keeps the place in the concatenation |
| `TwoLevel.TwoLevelIterator.SkipEmptyDataBlocksBackward` | anissagram/Pods/leveldb-library/table/two_level_iterator.cc:128-139 | An exhausted block stands for the place before its first entry |
| `TwoLevel.TwoLevelIterator.InitDataBlock` | anissagram/Pods/leveldb-library/table/two_level_iterator.cc:146-161 | The block under the index position is open, and is not opened twice |
| `TwoLevel.SeekSplits` | anissagram/Pods/leveldb-library/table/two_level_iterator.cc:82-87 | An index seek and a block seek split the whole concatenation at the target |
| `IteratorStack.MergingIsCursor` | anissagram/Pods/leveldb-library/table/merger.cc:31-108 | For any sequence of valid calls a merging iterator and a cursor over the merged entries end at the same place |
| `IteratorStack.TwoLevelIsCursor` | anissagram/Pods/leveldb-library/table/two_level_iterator.cc:82-139 | For any sequence of valid calls a two-level iterator and a cursor over the concatenated blocks end at the same place, which is where the calls lead in that list |
| `TableIterator.BuiltTableIsCursor` | anissagram/Pods/leveldb-library/table/table.cc:155-214 | For any entries added to a builder and any sequence of valid calls, the iterator of the finished table, read from the bytes of its file, and a cursor over the entries that were added end at the same place and the same entry |
| `TableIterator.TableSeparates` | anissagram/Pods/leveldb-library/table/table_builder.cc:94-123 | In a built table the index keys separate the blocks, so index seeks are sound, and the blocks one after the other stand for exactly the entries of the table |
| `TableIterator.NewTableIterator` | anissagram/Pods/leveldb-library/table/table.cc:155-214 | The two-level iterator over a stored table starts outside it, separates, and runs over exactly the entries of the table |
| `TableIterator.FinishAndOpen` | anissagram/Pods/leveldb-library/table/table_builder.cc:198-253 | Finishing a builder and opening its table gives an iterator over exactly the entries added |
| `TableIterator.OwnBlock` | anissagram/Pods/leveldb-library/table/table_builder.cc:104-110 | The index key of a block is not below any key in it |
| `TableIterator.LaterBlock` | anissagram/Pods/leveldb-library/table/table_builder.cc:104-110 | The index key of a block is below every key of every later block |
| `TableIterator.BlockEntries` | anissagram/Pods/leveldb-library/table/block.cc:203-251 | Walking the bytes of a block from the first entry gives exactly the entries put into it |
| `TableIterator.OpenBlock` | anissagram/Pods/leveldb-library/table/table.cc:155-208 | The block an index value names is read from the file and gives the entries it was built from |
| `TableIterator.ScanIsTableGet` | anissagram/Pods/leveldb-library/db/version_set.cc:263-276 | What a linear scan of the bytes for a lookup key finds, kept when the user key agrees, is what the search of the store gets from the entries |
| `TableIterator.GetFromTable` | anissagram/Pods/leveldb-library/db/table_cache.cc:100-112 | A lookup in the bytes of a table file, through index, filter block and data block, gives the newest entry of the key that the snapshot may see, as the search of the store does on the entries |
| `TableFilter.FinishAndGet` | anissagram/Pods/leveldb-library/db/table_cache.cc:100-112 | A lookup in a table just finished, through the filter block built with it, gives what the store gets from the entries added |
| `TableFilter.FilteredTableBuilder.Finish` | anissagram/Pods/leveldb-library/table/table_builder.cc:198-253 | The file holds a good table of exactly the entries added, and the reader of its filter block rules out no block that has a key |
| `TableFilter.FilteredTableBuilder.Add` | anissagram/Pods/leveldb-library/table/table_builder.cc:94-139 | The entry joins the table, and its user key joins the filter of the block offset at which its block will be written |
| `TableFilter.FilteredTableBuilder.Flush` | anissagram/Pods/leveldb-library/table/table_builder.cc:125-139 | The open block is written; keys from here on go to the filter of the next block offset |
| `TableFilter.EveryKeyIsThere` | anissagram/Pods/leveldb-library/table/table.cc:221-229 | If every key of every block is in the filter of the block offset, the filter rules out no block that has the key |
| `IteratorStack.BlockIsCursor` | anissagram/Pods/leveldb-library/table/block.cc:137-251 | For any sequence of valid calls the iterator over the bytes of a block and a cursor over the entries put into it end at the same place, with key bytes standing for the same internal key |
| `IteratorStack.SeekOnBytes` | anissagram/Pods/leveldb-library/table/block.cc:163-201 | A seek that compares bytes ends where a seek that compares internal keys does |
| `IteratorStack.SeekIsUnique` | anissagram/Pods/leveldb-library/table/two_level_iterator.cc:82-87 | What a seek promises determines where it ends |
| `SkipList.SkipList.constructor` | anissagram/Pods/leveldb-library/db/skiplist.h:325-334 | An empty list of one level |
| `SkipList.SkipList.Insert` | anissagram/Pods/leveldb-library/db/skiplist.h:337-368 | A new node of the height asked for is linked at its place on every level below that height, and no other level and no other node changes; every level stays a sorted sublist of the one below, also after every single store |
| `SkipList.SkipList.FindGreaterOrEqual` | anissagram/Pods/leveldb-library/db/skiplist.h:261-281 | The first node not below the key, and on every level the node before it |
| `SkipList.SkipList.FindLessThan` | anissagram/Pods/leveldb-library/db/skiplist.h:284-301 | The last node below the key, or the head |
| `SkipList.SkipList.FindLast` | anissagram/Pods/leveldb-library/db/skiplist.h:304-322 | The last node, or the head |
| `SkipList.SkipList.Contains` | anissagram/Pods/leveldb-library/db/skiplist.h:371-378 | Decides whether a node has the key |
| `SkipList.SkipList.RaiseHeight` | anissagram/Pods/leveldb-library/db/skiplist.h:347-359 | New levels start at the head, and no list changes |
| `SkipList.SkipList.PublishLink` | anissagram/Pods/leveldb-library/db/skiplist.h:362-367 | The publishing store adds the node to one level, at its place, and changes no other |
| `SkipList.SkipList.PrepareLink` | anissagram/Pods/leveldb-library/db/skiplist.h:362-367 | The store into the new node changes no list |
| `SkipList.SkipList.LinkLevel` | anissagram/Pods/leveldb-library/db/skiplist.h:362-367 | Both stores of one level keep the list valid in between |
| `SkipList.SkipList.ReaderStepIsSound` | anissagram/Pods/leveldb-library/db/skiplist.h:261-281 | Whatever the list is at the time of a load, one step of a search keeps the reader placed, and the last one gives what a linear scan at that moment gives |
| `SkipList.SkipList.ReaderSurvives` | anissagram/Pods/leveldb-library/db/skiplist.h:337-368 | A store by the writer between two loads does not disturb a reader, wherever it is |
| `SkipList.Iterator.Seek` | anissagram/Pods/leveldb-library/db/skiplist.h:224-226 | The first node not below the target |
| `SkipList.Iterator.Next` | anissagram/Pods/leveldb-library/db/skiplist.h:207-210 | The next node of the bottom list |
| `SkipList.Iterator.Prev` | anissagram/Pods/leveldb-library/db/skiplist.h:213-221 | The node before, found by searching, since there are no back links |
| `SkipList.Iterator.SeekToFirst` | anissagram/Pods/leveldb-library/db/skiplist.h:229-231 | The first node |
| `SkipList.Iterator.SeekToLast` | anissagram/Pods/leveldb-library/db/skiplist.h:234-239 | The last node |
| `MemTables.MemTable.Add` | anissagram/Pods/leveldb-library/db/memtable.cc:75-98 | Exactly the new entry joins the contents, encoded, at its place in the order |
| `MemTables.MemTable.Get` | anissagram/Pods/leveldb-library/db/memtable.cc:100-134 | The newest entry of the key the snapshot may see, a value or a deletion, or nothing is visible |
| `MemTables.EntryRoundTrip` | anissagram/Pods/leveldb-library/db/memtable.cc:75-98 | Internal key and value are read back from an encoded entry |
| `MemTables.InternalOrder` | anissagram/Pods/leveldb-library/db/memtable.cc:28-34 | The table's order on encoded entries is the order by user key and descending tag |
| `MemTables.StopIsNewest` | anissagram/Pods/leveldb-library/db/memtable.cc:100-134 | Where the seek stops is the newest visible entry of the key, if it has one |
| `LogProofs.LogRoundTrip` | anissagram/Pods/leveldb-library/db/log_reader.cc:56-174 | Reading back a log gives the records written, whatever their lengths, and reports nothing |
| `LogProofs.TruncatedLog` | anissagram/Pods/leveldb-library/db/log_reader.cc:189-271 | Cutting the log at any byte gives exactly the records whose last fragment is complete, in order, and no corruption |
| `LogProofs.ReadOneRecord` | anissagram/Pods/leveldb-library/db/log_reader.cc:56-174 | From any place in a record the reader returns all of it if it is in the file, and otherwise finds the end silently |
| `LogProofs.ReadLog` | anissagram/Pods/leveldb-library/db/log_reader.cc:56-174 | For any file, the records and the reports are those of calling the parser until it ends |
| `LogProofs.LogAppend` | anissagram/Pods/leveldb-library/db/log_writer.cc:34-80 | Appending a record to a log gives the log of all of them |
| `LogProofs.ReadAligned` | anissagram/Pods/leveldb-library/db/log_reader.cc:189-271 | A fragment is read if it is all there, and is the end of the file if it is cut |
| `LogReader.Reader.ReadRecord` | anissagram/Pods/leveldb-library/db/log_reader.cc:56-174 | For any file, result, position and reports are those of a parser on byte positions |
| `LogReader.Reader.ReadPhysicalRecord` | anissagram/Pods/leveldb-library/db/log_reader.cc:189-271 | Reading block by block agrees with that parser at every position |
| `LogReader.Reader.TakeFragment` | anissagram/Pods/leveldb-library/db/log_reader.cc:71-174 | One turn of the fragment state machine is one step of the parser |
| `LogWriter.Writer.AddRecord` | anissagram/Pods/leveldb-library/db/log_writer.cc:34-80 | The file grows by the fragments of the record, first, middle and last as they fall, with no fragment crossing a block and trailers filled with zeros |
| `LogWriter.Writer.EmitPhysicalRecord` | anissagram/Pods/leveldb-library/db/log_writer.cc:82-108 | Header with masked checksum, length and type, then the payload |
| `BlockBuilder.BlockBuilder.Add` | anissagram/Pods/leveldb-library/table/block_builder.cc:72-106 | The entry joins the list at the end; those before it stay as they were |
| `BlockBuilder.BlockBuilder.Finish` | anissagram/Pods/leveldb-library/table/block_builder.cc:62-70 | The bytes are a block of the entries added, in which all shared prefixes are left out except at restart points, spaced exactly by the interval |
| `BlockBuilder.ExtendedBuilds` | anissagram/Pods/leveldb-library/table/block_builder.cc:72-106 | One more entry keeps buffer, restart list, counter and last key describing the block so far |
| `BlockFormat.DecodesEntry` | anissagram/Pods/leveldb-library/table/block.cc:54-74 | Decoding an encoded entry gives its lengths, its key rest and its value |
| `BlockFormat.FastPath` | anissagram/Pods/leveldb-library/table/block.cc:54-74 | The one-byte fast path reads what three varints would |
| `BlockFormat.DecodesAt` | anissagram/Pods/leveldb-library/table/block.cc:224-251 | At the offset of entry i, with a key that shares the prefix, decoding rebuilds entry i and ends at the next |
| `BlockIter.Iter.Seek` | anissagram/Pods/leveldb-library/table/block.cc:163-201 | The first entry not below the target, through binary search over restart points; on other bytes it keeps its bounds |
| `BlockIter.Iter.Prev` | anissagram/Pods/leveldb-library/table/block.cc:142-161 | The entry before, or outside the block: undoes Next |
| `BlockIter.Iter.Next` | anissagram/Pods/leveldb-library/table/block.cc:137-140 | The next entry |
| `BlockIter.Iter.SeekToFirst` | anissagram/Pods/leveldb-library/table/block.cc:203-206 | The first entry |
| `BlockIter.Iter.SeekToLast` | anissagram/Pods/leveldb-library/table/block.cc:208-213 | The last entry |
| `BlockIter.Iter.ParseNextKey` | anissagram/Pods/leveldb-library/table/block.cc:224-251 | Entry k, rebuilt from the key before it; of a built block none is refused |
| `BlockIter.Iter.GetRestartPoint` | anissagram/Pods/leveldb-library/table/block.cc:99-102 | The offset stored for the restart point, within the entries |
| `BlockIter.NewIterator` | anissagram/Pods/leveldb-library/table/block.cc:254-264 | A cursor over exactly the entries added to the builder |
| `BlockIter.PointOrder` | anissagram/Pods/leveldb-library/table/block.cc:163-190 | Comparing restart offsets is comparing entry numbers |
| `TableLookup.InternalGet` | anissagram/Pods/leveldb-library/table/table.cc:216-244 | What it hands over, kept when the user keys agree, is what a linear scan of all entries for the first one not below the key finds |
| `TableLookup.LookupIsScan` | anissagram/Pods/leveldb-library/table/table.cc:216-244 | An index search and a search in one block find what a linear scan finds, up to entries of other user keys |
| `TableLookup.FilteredOut` | anissagram/Pods/leveldb-library/table/table.cc:221-229 | A block the filter rules out could only have given another user key |
| `TableLookup.NextBlockApart` | anissagram/Pods/leveldb-library/table/table.cc:216-244 | When the block found ends below the key, the next block starts with another user key |
| `TableLookup.NextIndexLarger` | anissagram/Pods/leveldb-library/table/table_builder.cc:104-110 | Index keys ascend strictly |
| `TableBuilder.TableBuilder.constructor` | anissagram/Pods/leveldb-library/table/table_builder.cc:65-70 | No entries and an empty file |
| `TableBuilder.TableBuilder.Add` | anissagram/Pods/leveldb-library/table/table_builder.cc:94-123 | The entry joins the table at the end |
| `TableBuilder.TableBuilder.Flush` | anissagram/Pods/leveldb-library/table/table_builder.cc:125-139 | The open block is written; the entries are the same |
| `TableBuilder.TableBuilder.AddIndexEntry` | anissagram/Pods/leveldb-library/table/table_builder.cc:104-110 | The pending block gets an index key not below its last key and below the next block's first |
| `TableBuilder.TableBuilder.AddLastIndexEntry` | anissagram/Pods/leveldb-library/table/table_builder.cc:230-235 | The last block gets an index key not below its last key |
| `TableBuilder.TableBuilder.Finish` | anissagram/Pods/leveldb-library/table/table_builder.cc:198-253 | Blocks, trailers and index in the file are a good table of exactly the entries added |
| `Comparators.FindShortestSeparator` | anissagram/Pods/leveldb-library/util/comparator.cc:29-50 | Strictly between start and limit and no longer than start: cut after the first difference, with that byte raised by one, exactly when there is room between the two bytes, and unchanged otherwise |
| `Comparators.FindShortSuccessor` | anissagram/Pods/leveldb-library/util/comparator.cc:52-63 | Cut after the first byte below 0xff, raised by one, and unchanged exactly when there is none; otherwise strictly greater |
| `Comparators.ShortestInternalSeparator` | anissagram/Pods/leveldb-library/db/dbformat.cc:69-86 | Not below start, below limit, no longer than start, and an internal key that parses if start does |
| `Comparators.ShortInternalSuccessor` | anissagram/Pods/leveldb-library/db/dbformat.cc:88-101 | Not below the key, no longer, and parsing if the key does |
| `Comparators.InternalIsStrictOrder` | anissagram/Pods/leveldb-library/db/dbformat.cc:51-67 | The comparison of internal keys is a strict total order on all byte strings |
| `Comparators.EmbedKeepsOrder` | anissagram/Pods/leveldb-library/util/comparator.cc:25-27 | Byte strings in their order are real numbers in theirs, and no two coincide |
| `Comparators.KeyOfKeepsOrder` | anissagram/Pods/leveldb-library/db/dbformat.cc:51-67 | Comparing internal keys as bytes is comparing the keys of the store they stand for |
| `FilterBlock.FilterBlockReader.KeyMayMatch` | anissagram/Pods/leveldb-library/table/filter_block.cc:90-104 | On a finished block, the answer is that of the filter for the block offset; so a key that is in it may match, and contents that cannot be read always may |
| `FilterBlock.AddedKeyMatches` | anissagram/Pods/leveldb-library/table/filter_block.cc:21-104 | Every key added under a block offset is answered with true for that offset by the reader of the finished block |
| `FilterBlock.FilterBlockBuilder.Finish` | anissagram/Pods/leveldb-library/table/filter_block.cc:35-49 | Every key ever added is found in the filter of the offset it was added under |
| `FilterBlock.FilterBlockBuilder.StartBlock` | anissagram/Pods/leveldb-library/table/filter_block.cc:21-27 | Filters up to the offset exist, and no key is lost |
| `FilterBlock.FilterBlockBuilder.AddKey` | anissagram/Pods/leveldb-library/table/filter_block.cc:29-33 | The key joins the filter being collected |
| `FilterBlock.FilterBlockBuilder.GenerateFilter` | anissagram/Pods/leveldb-library/table/filter_block.cc:51-75 | One more filter, holding all the keys that waited |
| `FilterBlock.ReaderDecodes` | anissagram/Pods/leveldb-library/table/filter_block.cc:77-104 | The reader decodes the base, the offset array and each filter that Finish wrote |
| `Bloom.BloomFilterPolicy.CreateFilter` | anissagram/Pods/leveldb-library/util/bloom.cc:28-54 | A filter of the size asked for in which exactly the probes of the keys are set, with 32-bit wrapping hashes; so every key is found |
| `Bloom.BloomFilterPolicy.KeyMayMatch` | anissagram/Pods/leveldb-library/util/bloom.cc:56-80 | True exactly when the filter has two bytes or more and either claims more than 30 probes or has the bit of every probe of the key set; a key that was put in always matches |
| `Bloom.BloomFilterPolicy.AddKey` | anissagram/Pods/leveldb-library/util/bloom.cc:43-52 | Sets the probes of one key and no other bit |
| `Bloom.WithBitMeaning` | anissagram/Pods/leveldb-library/util/bloom.cc:49-50 | Setting a bit sets it and no other |
| `LruCache.LRUCache.BetweenCalls` | anissagram/Pods/leveldb-library/util/cache.cc:149-195 | Between calls: references are client handles plus one if cached; an entry is on the idle list exactly when only the cache holds it and on the other exactly when a client does too; the deleter has run at most once, and exactly when nobody holds the entry |
| `LruCache.LRUCache.Insert` | anissagram/Pods/leveldb-library/util/cache.cc:266-304 | The new entry is cached, held by its client, and displaces one with its key; then idle entries go, oldest first and no more than needed, until the charge fits or none is idle; no other key changes |
| `LruCache.LRUCache.Lookup` | anissagram/Pods/leveldb-library/util/cache.cc:252-259 | Returns exactly the cached entry of the key, with one more handle, and takes it off the idle list |
| `LruCache.LRUCache.Release` | anissagram/Pods/leveldb-library/util/cache.cc:261-264 | One handle less; a cached entry nobody holds becomes the newest idle one, any other is deleted |
| `LruCache.LRUCache.Erase` | anissagram/Pods/leveldb-library/util/cache.cc:318-321 | Exactly this key leaves the table and its list |
| `LruCache.LRUCache.Prune` | anissagram/Pods/leveldb-library/util/cache.cc:323-333 | No entry is idle, and none in use is touched |
| `LruCache.LRUCache.Evict` | anissagram/Pods/leveldb-library/util/cache.cc:292-301 | The oldest idle entries go until the charge fits, and no more |
| `LruCache.LRUCache.EvictOldest` | anissagram/Pods/leveldb-library/util/cache.cc:292-301 | The oldest idle entry leaves the cache and its deleter runs |
| `LruCache.LRUCache.Ref` | anissagram/Pods/leveldb-library/util/cache.cc:217-223 | An idle entry moves to the list in use |
| `LruCache.LRUCache.Unref` | anissagram/Pods/leveldb-library/util/cache.cc:225-237 | The deleter runs when the last reference goes; a cached entry that only the cache holds becomes idle |
| `LruCache.LRUCache.FinishErase` | anissagram/Pods/leveldb-library/util/cache.cc:307-316 | The entry leaves its list and the total charge, and loses the cache's reference |
| `HandleTables.HandleTable.constructor` | anissagram/Pods/leveldb-library/util/cache.cc:71 | An empty table with buckets |
| `HandleTables.HandleTable.Lookup` | anissagram/Pods/leveldb-library/util/cache.cc:74-76 | The entry the map gives the key, or null |
| `HandleTables.HandleTable.Insert` | anissagram/Pods/leveldb-library/util/cache.cc:78-92 | The map with the key bound to the entry; the one displaced is returned |
| `HandleTables.HandleTable.Remove` | anissagram/Pods/leveldb-library/util/cache.cc:94-103 | The map without the key; its entry is returned |
| `HandleTables.HandleTable.Resize` | anissagram/Pods/leveldb-library/util/cache.cc:122-146 | The same map in at least as many buckets as entries |
| `HandleTables.HandleTable.Rehash` | anissagram/Pods/leveldb-library/util/cache.cc:122-146 | Moving every chain loses no entry and keeps each where its hash says |
| `HandleTables.HandleTable.FindPointer` | anissagram/Pods/leveldb-library/util/cache.cc:114-120 | The place of the key in its chain, or the end of it |
| `LruLists.LRURemove` | anissagram/Pods/leveldb-library/util/cache.cc:239-242 | Unlinking a node leaves the ring of the others, and another ring as it was |
| `LruLists.LRUAppend` | anissagram/Pods/leveldb-library/util/cache.cc:244-250 | The node is linked as the newest of its ring, and another ring is as it was |
| `LruLists.OldestFirst` | anissagram/Pods/leveldb-library/util/cache.cc:292-295 | The node after the head is the oldest, or the ring is empty |
| `GroupCommit.EveryGroupRun` | anissagram/Pods/leveldb-library/db/db_impl.cc:1185-1256 | For any interleaving of writers, each is answered once, in queue order, and successful groups have contiguous sequence numbers |
| `GroupCommit.SuccessIsVisible` | anissagram/Pods/leveldb-library/db/db_impl.cc:1223-1236 | At every moment a reader at the last sequence number sees all updates of a writer that was answered with success, in order under consecutive numbers that begin where those of the writers before it in its group end |
| `GroupCommit.VisibleIsWhole` | anissagram/Pods/leveldb-library/db/db_impl.cc:1223-1236 | And it sees nothing else: each visible update belongs to exactly one group, and that one succeeded, so no batch is seen in part |
| `GroupCommit.BuildBatchGroup` | anissagram/Pods/leveldb-library/db/db_impl.cc:1260-1306 | The longest prefix of the queue that may be grouped, and its updates in queue order |
| `GroupCommit.GroupMeaning` | anissagram/Pods/leveldb-library/db/db_impl.cc:1278-1296 | No sync write is in a group that is not synced, and the size bound holds |
| `GroupCommit.BatchInGroup` | anissagram/Pods/leveldb-library/db/db_impl.cc:1260-1306 | Each batch is a contiguous stretch of its group |
| `GroupCommit.NumbersApart` | anissagram/Pods/leveldb-library/db/db_impl.cc:1202-1236 | No sequence number is used twice, and none is past the last |
| `GroupRefinement.EveryBothRun` | anissagram/Pods/leveldb-library/db/db_impl.cc:1185-1256 | With writers in groups, log writes that fail, background work in between, and any number of crashes and reopenings: the engine's acknowledged writes are at every moment those of before the last crash and the updates visible at the last sequence number |
| `GroupRefinement.SuccessIsForever` | anissagram/Pods/leveldb-library/db/db_impl.cc:1185-1256 | An update answered with success stays acknowledged through any number of later crashes, and at every later moment the store reads by all acknowledged writes |
| `GroupRefinement.HistoryIsKept` | anissagram/Pods/leveldb-library/db/db_impl.cc:1185-1256 | Over whole runs, crashes included, no acknowledged write is taken back |
| `GroupRefinement.FailRefines` | anissagram/Pods/leveldb-library/db/db_impl.cc:1208-1236 | A group whose log write failed leaves nothing to see under the numbers it used up |
| `GroupRefinement.SuccessSurvivesCrash` | anissagram/Pods/leveldb-library/db/db_impl.cc:280-369 | An update of a group answered with success is still acknowledged, and read by, after one more crash at any later moment |
| `GroupRefinement.EngineFollows` | anissagram/Pods/leveldb-library/db/db_impl.cc:1202-1236 | For each step of the group protocol, a failed log write included, the engine has the matching step, or stays |
| `WriteBatch.BatchRoundTrip` | anissagram/Pods/leveldb-library/db/write_batch.cc:42-80 | A batch built by its own operations is walked whole and in order, and its count is right |
| `WriteBatch.ContentsRoundTrip` | anissagram/Pods/leveldb-library/db/write_batch.cc:42-96 | The bytes of a batch decode to its number and its updates |
| `WriteBatch.RepIsContents` | anissagram/Pods/leveldb-library/db/write_batch.cc:42-109 | What a batch built by its own operations holds is the encoding of its updates under its number |
| `WriteBatch.WalkRoundTrip` | anissagram/Pods/leveldb-library/db/write_batch.cc:42-80 | Walking encoded updates hands over exactly them |
| `WriteBatch.WriteBatch.Iterate` | anissagram/Pods/leveldb-library/db/write_batch.cc:42-80 | For any bytes, the updates handed over are those that decode, and the status is good exactly when nothing is left and the count agrees |
| `WriteBatch.WriteBatch.Append` | anissagram/Pods/leveldb-library/db/write_batch.cc:144-148 | The updates of the other batch follow |
| `WriteBatch.WriteBatch.Add` | anissagram/Pods/leveldb-library/db/write_batch.cc:98-109 | One more update at the end, and the count with it |
| `WriteBatch.WriteBatch.SetSequence` | anissagram/Pods/leveldb-library/db/write_batch.cc:94-96 | Only the sequence number changes |
| `Coding.VarintRoundTrip` | anissagram/Pods/leveldb-library/util/coding.cc:47-92 | A varint is read back with its length, whatever follows |
| `Coding.GetVarintLoop` | anissagram/Pods/leveldb-library/util/coding.cc:112-157 | For any bytes, the loop with shifts gives the number the bytes stand for, cut to the width, or fails when it is cut off or too long |
| `Coding.EncodeVarint32` | anissagram/Pods/leveldb-library/util/coding.cc:47-73 | The five cases are the base-128 form |
| `Coding.EncodeVarint64` | anissagram/Pods/leveldb-library/util/coding.cc:81-90 | The loop writes the base-128 form |
| `Coding.VarintLength` | anissagram/Pods/leveldb-library/util/coding.cc:103-110 | The length of the base-128 form |
| `Coding.Varint32RoundTrip` | anissagram/Pods/leveldb-library/util/coding.cc:130-140 | A 32-bit number survives |
| `Coding.Varint64RoundTrip` | anissagram/Pods/leveldb-library/util/coding.cc:142-169 | A 64-bit number survives |
| `Coding.LengthPrefixedRoundTrip` | anissagram/Pods/leveldb-library/util/coding.cc:98-101 | A length-prefixed string survives, and what follows is left |
| `Coding.Fixed32RoundTrip` | anissagram/Pods/leveldb-library/util/coding.cc:9-18 | Four little-endian bytes survive |
| `Coding.Fixed64RoundTrip` | anissagram/Pods/leveldb-library/util/coding.cc:20-33 | Eight little-endian bytes survive |
| `Coding.Fixed64Inverse` | anissagram/Pods/leveldb-library/util/coding.cc:20-33 | Eight bytes are the encoding of the number they decode to |
| `Coding.MaskRoundTrip` | anissagram/Pods/leveldb-library/util/crc32c.h:27-38 | Unmasking a masked checksum gives it back |
| `NanopbDecode.RoundTrip` | anissagram/Pods/nanopb/pb_decode.c:1075-1087 | Encoding succeeds exactly when the encoding fits the buffer, and then decoding succeeds and restores the message |
| `NanopbDecode.Decode` | anissagram/Pods/nanopb/pb_decode.c:1075-1087 | Pieces that add up to a message, in any order, restore it, and are accepted exactly when no required field is missing; any accepted input gives a message within its declared limits |
| `NanopbDecode.DecodeNoInit` | anissagram/Pods/nanopb/pb_decode.c:925-1073 | The same onto defaults; for any input the stream stays in its bounds |
| `NanopbDecode.AllSeen` | anissagram/Pods/nanopb/pb_decode.c:1030-1070 | The bitmap check holds exactly when every required field was sent |
| `NanopbDecode.NoneMissing` | anissagram/Pods/nanopb/pb_decode.c:1030-1070 | Decides whether the first 64 required fields were all seen |
| `NanopbDecode.DecodeField` | anissagram/Pods/nanopb/pb_decode.c:406-480 | One piece has its effect on the message: set, appended, or made the member of its union |
| `NanopbDecode.DecodePacked` | anissagram/Pods/nanopb/pb_decode.c:424-453 | A packed array gives its values up to the room left |
| `NanopbDecode.DecodeSubmessage` | anissagram/Pods/nanopb/pb_decode.c:1503-1525 | A submessage restores its message and the stream ends just behind it |
| `NanopbDecode.DecodeBytes` | anissagram/Pods/nanopb/pb_decode.c:1431-1500 | A value is accepted exactly when it fits, a string with its terminator |
| `NanopbDecode.DecodeNumber` | anissagram/Pods/nanopb/pb_decode.c:1329-1412 | A number in its wire form is restored, and what does not fit the field's width is refused |
| `NanopbDecode.DecodeFixed` | anissagram/Pods/nanopb/pb_decode.c:1283-1316 | Four or eight little-endian bytes restore the number |
| `NanopbDecode.SignedWire` | anissagram/Pods/nanopb/pb_decode.c:1329-1364 | Two's complement in 64 bits, cut to 32, is two's complement in 32 |
| `NanopbDecode.SetFieldToDefault` | anissagram/Pods/nanopb/pb_decode.c:836-906 | The field holds its defaults, down through submessages |
| `NanopbEncode.Encode` | anissagram/Pods/nanopb/pb_encode.c:528-550 | With room it appends exactly the encoding, without it fails, and a stream that only counts counts exactly its length |
| `NanopbEncode.GetEncodedSize` | anissagram/Pods/nanopb/pb_encode.c:567-577 | The exact length of the encoding |
| `NanopbEncode.EncodeSubmessage` | anissagram/Pods/nanopb/pb_encode.c:717-765 | The sizing pass counts exactly what the writing pass emits, at any depth |
| `NanopbEncode.EncodeArray` | anissagram/Pods/nanopb/pb_encode.c:147-236 | The packed or repeated form of the values; more values than the declared limit are refused |
| `NanopbEncode.EncodeField` | anissagram/Pods/nanopb/pb_encode.c:341-426 | The bytes of the field for its kind, and nothing for what is absent or default |
| `NanopbEncode.PackedSize` | anissagram/Pods/nanopb/pb_encode.c:160-190 | The length written before a packed array is the length of its values |
| `NanopbEncode.OStream.Write` | anissagram/Pods/nanopb/pb_encode.c:103-128 | All bytes if they fit, otherwise none; without a buffer only the count |
| `NanopbEncode.OStream.EncodeVarint` | anissagram/Pods/nanopb/pb_encode.c:608-628 | The base-128 form, under the stream's limit |
| `NanopbEncode.StringLength` | anissagram/Pods/nanopb/pb_encode.c:875-899 | The bytes before the terminator, within the room |
| `NanopbEncode.WireNumber` | anissagram/Pods/nanopb/pb_encode.c:776-833 | Two's complement in 64 bits, or zigzag |
| `NanopbPieces.MessageIsPieces` | anissagram/Pods/nanopb/pb_encode.c:528-550 | A message is sent as the concatenation of its pieces |
| `Nanopb.PiecesRestore` | anissagram/Pods/nanopb/pb_decode.c:925-1073 | Applying the pieces of a message to defaults restores the message |
| `Nanopb.ApplyField` | anissagram/Pods/nanopb/pb_decode.c:406-480 | The pieces of one field restore just this field |
| `Nanopb.DefaultIsDefault` | anissagram/Pods/nanopb/pb_decode.c:836-906 | What the encoder leaves out is what the decoder starts from |
| `NanopbStream.IStream.DecodeVarint32` | anissagram/Pods/nanopb/pb_decode.c:187-247 | A 32-bit varint is read, and the stream stays in bounds for any input |
| `NanopbStream.IStream.DecodeVarint` | anissagram/Pods/nanopb/pb_decode.c:255-276 | A 64-bit varint is read, in at most ten bytes |
| `NanopbStream.IStream.DecodeTag` | anissagram/Pods/nanopb/pb_decode.c:298-319 | Field number and wire type of a tag are read |
| `NanopbStream.IStream.Read` | anissagram/Pods/nanopb/pb_decode.c:102-138 | All bytes asked for, or none and no movement |
| `NanopbStream.IStream.MakeSubstream` | anissagram/Pods/nanopb/pb_decode.c:372-385 | The substream covers just the delimited bytes, which this stream gives up |
| `NanopbStream.IStream.CloseSubstream` | anissagram/Pods/nanopb/pb_decode.c:387-398 | Reading goes on just behind the substream, however much of it was read |
| `NanopbStream.IStream.SkipField` | anissagram/Pods/nanopb/pb_decode.c:321-331 | Steps over exactly the value, whatever its wire type |
| `NanopbCommon.FieldIter.Find` | anissagram/Pods/nanopb/pb_common.c:78-95 | Finds the field with the tag wherever the iterator stands, and stays when there is none |
| `NanopbCommon.FieldIter.Next` | anissagram/Pods/nanopb/pb_common.c:20-76 | Steps to the next field, around the end, counting required fields |
| `NanopbCommon.FieldIter.CountRequired` | anissagram/Pods/nanopb/pb_decode.c:1031-1046 | At the end of the table the iterator has counted its required fields |
| `NanopbCommon.RankedField` | anissagram/Pods/nanopb/pb_decode.c:1030-1070 | Every number below the count belongs to a required field |

## Left out

- Files, threads, locks, the environment, options and logging: an append to a file is atomic and durable in `Engine`, and the mutex marks the steps. Bytes and truncation are in the log and manifest modules.
- EngineProofs.EveryRun: promises the reads only of runs whose compactions are safe, because of the finding above; `ReadsInRunIffSafe` shows that this condition is exact.
- CompactionReads.CompactionMeaning: as in the source, the inputs on level + 1 need not be sealed, so reads are preserved under the stated condition only.
- Compaction scores, seek statistics, read sampling and the limits on grandparent overlap: which level and file is compacted, and where `ShouldStopBefore` cuts, is arbitrary, so what is proved holds for every choice.
- Internal keys that do not parse, and background errors: a step that fails is not a step.
- A memtable flush inside the loop of a running compaction: a compaction is one step on the version.
- The manifest write inside `Engine` is one step; its records, bytes and recovery are in `EditCodec`, `VersionSets` and `ManifestRuns`.
- CURRENT, the reuse of an old manifest or log, and repair are not part of this model.
- User keys are real numbers in the store and byte strings in the formats; `Comparators.EmbedKeepsOrder` and `KeyOfKeepsOrder` give the order embedding between them.
- Bloom.BloomFilterPolicy.constructor: says of the number of probes only that it is between 1 and 30, since the factor 0.69 is a floating-point one.
- CRC32C and the hash function are parameters; only that a checksum verifies what it was computed from is used.
- TableBuilder.TableBuilder.Finish: writes the data blocks and the index; the footer and the metaindex block are left out, and `TableFilter` adds the filter block.
- Compressed blocks, the footer, the metaindex block and the table and block caches are not part of this model; a reader is handed the bytes of the index block and of the filter block.
- BlockFormat.DecodeEntry: adds the two lengths of an entry without 32-bit wrap-around.
- BlockBuilder.BlockBuilder.Add: requires block sizes that 32-bit offsets can hold, which the source leaves to its callers.
- TableBuilder.TableBuilder.Add: the same requirement, for data and index block, and a file that 64-bit offsets can hold.
- FilterBlock.FilterBlockBuilder.Finish: the same requirement, for the filter block.
- TableFilter.FilteredTableBuilder.Finish: the same requirements together.
- LogReader.Reader.ReadRecord: starts at the beginning of the file; `initial_offset` above 0 and the resynchronisation after it are not part of this model.
- LogReader.Reader.ReadPhysicalRecord: as above, without the skipping of records before `initial_offset`.
- SkipList.SkipList.Insert: keeps a node's links in a sequence and takes its height as a parameter; memory order is modelled by one store at a time, with readers between any two.
- MemTables.MemTable.Add: keeps the bottom level of the skip list as a sequence of encoded entries, with `SkipList` proving the list itself.
- The special cases of `NewMergingIterator` for no child and one child, and calls of `Next` or `Prev` on an iterator that is not valid.
- GroupCommit.BuildBatchGroup: takes the byte size of a batch as a field of its writer.
- A log write that fails leaves nothing in the log, so that a part of a record, or a record whose sync failed, is not part of this model; after the latter the source refuses all further writes, and what a crash then leaves is what it leaves with that group in flight.
- LogRecovery.RecoverLogs: reads each log whole before it replays any, where the source replays record by record; a log with a damaged record is refused, as with `paranoid_checks`, and going on behind it is not modelled. What an acknowledged record is in the file before a crash that also stops the machine depends on `sync`, and is a hypothesis.
- TableIterator.NewTableIterator: opens the blocks of a table beforehand, where the source opens each when the iterator gets to it.
- HandleTables.HandleTable.Insert: keeps the chain of a bucket as a sequence, so it does not model the relinking of `next_hash`; bucket array, growth and rehashing are modelled.
- HandleTables.HandleTable.Remove: takes the entry out of the sequence of its bucket, in the same way.
- HandleTables.HandleTable.Rehash: appends entries to the sequences of the new buckets, in the same way.
- HandleTables.HandleTable.FindPointer: gives an index in the sequence of a bucket, where the source gives the slot that points to the entry.
- LruCache.LRUCache.Insert: models one shard, with unbounded counts and charges; sharding, the destructor and values are not part of this model.
- NanopbDecode.Decode: is about static fields; callbacks, extensions, pointer fields, arrays of fixed count, explicit default values, and sizes that overflow `size_t` or the bit position are not part of this model. The structure is returned as a value, so what a failed decoding leaves in it is not described. The bitmap of required fields is a set of numbers.
- NanopbDecode.RoundTrip: a string must leave room for its terminator, as the decoder demands it.
- NanopbStream.IStream.SkipField: describes the skipping of values that an encoder wrote, and of other bytes only that the stream stays in bounds.
- The Swift application and its cloud services are not part of this model.
