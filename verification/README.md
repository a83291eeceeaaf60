# A verified model of encloned

encloned is a backup daemon. It watches files and directories, records every version of a file in an index,
mirrors the index into SQL tables, and keeps encrypted copies of the versions in a bucket under random names.
This project models that daemon in Dafny and proves what it relies on: that the index, its reverse lookup and
the tables agree on every run; that nothing tracked is ever deleted from the bucket; that a stored version
comes back as it was indexed; that a scan reaches a fixed point; that what it finds is stored and can be
restored; that deleting undoes adding; that the codec and the chunked encryption are lossless and reject
everything else; that requests survive their encoding; and that its four mutexes cannot block each other for
good. Where the code does less than that, the exact condition is proved instead, with a run on which it fails.

`dafny verify dfyconfig.toml` checks everything.

## How the model is laid out

| file | what it holds |
|---|---|
| `Common.dfy`, `FileSystem.dfy` | names, digests, 32-bit reads; finite snapshots of a file system |
| `Database.dfy` | the two tables, the statements that are queued for them, the class `DB` |
| `WorkQueue.dfy` | the class `Queue`, and what popping while iterating does to a queue |
| `Index.dfy`, `Watch.dfy` | the watcher: what each operation does to its memory as a function, and the class `Watch`, whose methods update fields in place and are proved equal to those functions |
| `Sweeps.dfy`, `Remotes.dfy` | the remote: whole sweeps and the clean-up as functions with their properties, and the classes `S3` and `Remote`, proved equal to them |
| `Steps.dfy`, `Machine.dfy` | the smallest changes the operations are made of, and the state machine that interleaves them with the other threads, the transfers, flushes, restarts, the rows that are read back after them, and edits by other programs |
| `IndexInvariant.dfy`, `Refinement.dfy`, `Modtimes.dfy`, `Safety.dfy`, `Fidelity.dfy`, `Histories.dfy` | what holds on every run of the state machine |
| `Cycle.dfy` | one cycle: what a scan finds, a sweep stores and a restore gives back |
| `Scanning.dfy`, `ScanTurns.dfy` | the closure a scan reaches and what it overlooks; each turn of its loops in full |
| `Undo.dfy`, `Watches.dfy` | recursive delete against recursive add; the requests to watch and unwatch, for every kind of path |
| `Counterexamples.dfy` | reachable states in which an expected property fails, or an assumption of a main result is needed |
| `Base64.dfy`, `Shifts.dfy`, `BitGrouping.dfy`, `SaltedNames.dfy` | the codec on wrapping 32-bit accumulators, their arithmetic, its bits, and the salted name of the index backup |
| `SecretStream.dfy` | chunked encryption, decryption and hashing over files that are read with short reads |
| `Requests.dfy` | requests and call arguments, split with positions that wrap like `size_t` |
| `Locks.dfy` | the lock protocol |

An action of the state machine is one small step of the watcher, one item of a sweep, one flush, one listed
object of a clean-up, one restart, one row that is read back after it, or any edit of the file system. So
between any two items of a sweep, and between any two rows that are read back, every other thread may do
anything, which is more than the locks allow. `Steps.OperationsAreSteps`, `Machine.WholeRestoreIsRun` and the
three lemmas `Sweeps.Whole…IsRun` say that the operations are runs of it.

A start is a sequence of actions, since the threads start back to back (src/encloned.cpp:74-92) and the index is
read back row by row, with the lock free in between (src/Watch.cpp:600-638): a restart clears memory, and then
each file row, each directory row and at last the name of the index backup is an action of its own. Requests,
clean-ups and sweeps come between as they like. Scans, flushes and backups of the index wait for the rows,
because they run on the thread that reads them back (src/Watch.cpp:16-30).

## Assumptions

- Random names are fresh: the n-th call of the generator returns `Random(n)`, and the bucket holds no such
  name before the daemon starts.
- A batch of SQL that is executed succeeds, and executes completely. Only the thread that reads rows back
  executes SQL on their tables, so the rows to be read back are those there are at the start.
- What one step reads from the file system is one snapshot; between steps anybody may change anything. The
  tree is finite: descending makes a path longer, and paths are bounded.
- Hash tables are iterated in any order. Where the order matters it is a parameter of the method and every
  theorem is about all orders.
- The cipher is an ideal stream: `pull` in a state accepts exactly what `push` produced in that state for the
  same key and header. Header size and overhead are any positive numbers. File hashes do not collide. The
  password hash is any function of the password and of the salt bytes it reads.
- Transfers and deletions succeed or fail in any way. Nobody else changes the bucket.
- Fidelity alone assumes that equal path and whole-second modtime mean equal content
  (`Fidelity.Stable`); `Fidelity.UploadRestorableExactlyWhen` is the exact condition without it.

## Where the code departs from its evident intent

The model follows the code in all of these.

- Nothing keeps requests from being served while the index is read back (src/encloned.cpp:74-92,
  src/Watch.cpp:600-638). A file that is added before its own rows are back has its new version in front of them
  in memory and behind them in the tables: `Refinement.AgreesExactlyWhen` is the exact condition,
  `Counterexamples.AddDuringStartSetsOrderApart` the run. If the file did not change, two neighbouring versions
  then have the same modtime: `Modtimes.NeighboursDifferExactlyWhen`,
  `Counterexamples.AddDuringStartRepeatsModtime`. A clean-up that looks at a name before it is back
  queues it for deletion, and the row makes it tracked: `Safety.DeletesSafeExactlyWhen`,
  `Counterexamples.CleanUpDuringStartLosesObject` and, for the backup of the index, whose name comes last
  (src/Watch.cpp:570-582), `Counterexamples.CleanUpDuringStartQueuesBackup`.
- The scan leaves its loop over the files at the first that is not live or not present (src/Watch.cpp:199-201,
  212). `Scanning.ScanSeesEveryChangeExactlyWhen` says when changes go unnoticed because of it,
  `Counterexamples.GoneFileHidesChange` is a reachable state in which one does, in every later scan as well.
- It leaves its loop over the directories at the first that is gone, and drops it (src/Watch.cpp:229-235):
  `Scanning.ScanSeesEveryEntryExactlyWhen` says when new files and directories in the others go unnoticed,
  `Counterexamples.GoneDirectoryHidesFile` is a reachable state in which one does.
- A failed queue item is stepped over but not popped, so that a later success pops another item
  (src/remote/S3.cpp:156-160, 197-202). `WorkQueue.SweepCharacterisation` and `Sweeps.UploadSweepKeeps` say
  what is kept and when it is right; `Counterexamples.MispopLosesUpload` is a tracked version that no run from
  there ever stores, by `Histories.LostForEver`.
- A restart gives the second and later versions of a path no hash and default flags (src/Watch.cpp:627), so
  they cannot be restored: `Fidelity.DownloadTracked`, `Counterexamples.RestartLosesLaterVersions`. It also
  drops all queued work, since only the index is read back: `Histories.LostUploadsStayLost`.
- Pending SQL that a restart loses may be that of a deletion which the bucket has seen already, and then the
  version comes back as stored without its object. Any other loss is harmless: `Safety.SafeExactlyWhen`,
  `Safety.FlushedStoredExactlyWhen`, `Counterexamples.LossyRestartLosesObject`.
- Modtimes are compared in whole seconds (src/remote/S3.cpp:135-153): `Fidelity.UploadRestorableExactlyWhen`,
  `Counterexamples.SameSecondEditIsLost`.
- Modtimes are read back as 32-bit ints (src/Watch.cpp:603):
  `Modtimes.RestartKeepsNeighboursApartExactlyWhen`, `Modtimes.NeighboursDifferExactlyWhen`,
  `Counterexamples.RestartConfusesModtimes`.
- Superseding a version clears its live flag in memory only (src/Watch.cpp:222), while a vanished file clears
  it in all rows of the path (src/Watch.cpp:209). So the flag agrees for the latest version, not for earlier
  ones: `Refinement.Mirrors`.
- Decryption never asks whether the chunk at the end of a file carries the final tag
  (src/Encryption.cpp:73-78). It need not: `SecretStream.ShortReadIsLastChunk`, and
  `SecretStream.FinalTagIsNotChecked` for what would be accepted otherwise.
- The salt is copied with `strcpy` (src/Encryption.cpp:234), so a zero byte among the first 15 makes the name
  depend on what the stack held: `SaltedNames.NamesVerifyExactlyWhen`. A decoded salt of 18 bytes and more
  without a zero is copied past the buffer: `SaltedNames.CopyStaysInsideExactlyWhen`.
- `verifyKey` compares whole names, but the salt it appends is the one it was given, so only the key letters
  decide (src/Encryption.cpp:252-262): `SaltedNames.VerifyComparesKeys`.
- The daemon splits requests at the first two delimiters, and without any, position arithmetic wraps around
  and all three parts are the whole request (src/Socket.cpp:58-64): `Requests.ParseNone`, `Requests.ParseOne`.
- `listObjects` takes the watcher's lock under the remote's (src/remote/Remote.cpp:75, 89), the opposite of
  what a change of the watches does, and `cleanRemote` returns early with its lock held
  (src/remote/Remote.cpp:118-127): `Locks.DeadlockFreeExactlyWhen`, with `Locks.ListObjectsDeadlocks`,
  `Locks.LeakedLockIsNeverFree` and `Locks.CleanUpLeaksLock`.

## Model

| member | source | states |
|---|---|---|
| Common.Int32 | src/Watch.cpp:603 | a stored modtime read through a signed 32-bit int: the number in range that is congruent to it modulo 2^32 |
| Database.ApplyAllConcat | src/Watch.cpp:264-271 | executing a batch and then another is executing their concatenation, so it does not matter where pending SQL is cut |
| Database.RowsOfApply | src/DB.cpp:59-71 | what each kind of statement does to the rows of one path, kept in row order |
| Database.DB.constructor | src/DB.cpp:58-82 | a new database has empty tables |
| Database.DB.ExecSQL | src/DB.cpp:40-56 | executing a batch applies its statements one by one, in order |
| WorkQueue.Queue.EnqueueUpload | src/remote/Queue.cpp:5-17 | appends the item at the back, unless the file does not exist |
| WorkQueue.Queue.DequeueUpload | src/remote/Queue.cpp:19-26 | pops the front, whichever item was being handled; false on an empty queue |
| WorkQueue.Queue.EnqueueDownload | src/remote/Queue.cpp:28-34 | appends the item at the back |
| WorkQueue.Queue.DequeueDownload | src/remote/Queue.cpp:36-43 | pops the front; false on an empty queue |
| WorkQueue.Queue.EnqueueDelete | src/remote/Queue.cpp:45-48 | appends the name at the back |
| WorkQueue.Queue.DequeueDelete | src/remote/Queue.cpp:50-57 | pops the front; false on an empty queue |
| WorkQueue.SweptIsSuffix | src/remote/S3.cpp:123-161 | whichever items fail, a sweep leaves a suffix of the queue with one item for every failure |
| WorkQueue.ExaminedIsQueue | src/remote/S3.cpp:123-161 | popping while iterating neither skips nor repeats an item |
| WorkQueue.FailedItemsAreSuffix | src/remote/S3.cpp:190-207 | for distinct items, the suffix is the list of failed items exactly when all failures come last |
| WorkQueue.SweepCharacterisation | src/remote/S3.cpp:190-207 | all three about a whole sweep, for any sequence of outcomes |
| Index.AddDirWatch | src/Watch.cpp:55-83 | adding a directory, by recursion on a finite tree, leaves all watches and histories there were as they are |
| Index.AddEntries | src/Watch.cpp:66-77 | so does the loop over directory entries |
| Watch.Watch.constructor | src/Watch.cpp:3-8 | a new watcher has an empty index, no name for its backup, and nothing pending but what is queued |
| Watch.Watch.AddWatch | src/Watch.cpp:37-53 | adds a directory or a regular file and ignores everything else: fields end up as the function on the old fields says |
| Watch.Watch.AddDirWatch | src/Watch.cpp:55-83 | inserts the directory and its SQL unless it is watched, then visits the entries in order, recursing into directories if asked to |
| Watch.Watch.AddDirEntries | src/Watch.cpp:66-77 | the loop over the entries, for any tree below them |
| Watch.Watch.AddFileWatch | src/Watch.cpp:85-105 | ignores swap files and tracked files, and else records a first version |
| Watch.Watch.AddFileVersion | src/Watch.cpp:107-133 | appends a version with a fresh name, the modtime and the hash of the content, to the index, its reverse lookup, the SQL and the upload queue |
| Watch.Watch.DelWatch | src/Watch.cpp:135-151 | drops a directory or a regular file and ignores everything else |
| Watch.Watch.DelDirWatch | src/Watch.cpp:153-173 | drops the regular files among the entries, recursing into directories if asked to, and then the directory |
| Watch.Watch.DelFileWatch | src/Watch.cpp:175-189 | removes the history and its names from both indexes and queues exactly these names, in order, for deletion |
| Watch.Watch.ScanFileVersions | src/Watch.cpp:194-225 | new versions for changed files in iteration order, up to the first file that is not live or is gone |
| Watch.Watch.ScanDirectories | src/Watch.cpp:227-257 | the loop over watched directories in iteration order, up to the first that is gone, which loses its watch |
| Watch.Watch.ScanFileChange | src/Watch.cpp:191-258 | both loops of a scan, with their early exits, for any two iteration orders |
| Watch.Watch.ScanEntries | src/Watch.cpp:237-256 | new files and, under a recursive watch, new directories among the entries are added |
| Watch.Watch.ExecQueuedSQL | src/Watch.cpp:264-271 | applies the pending SQL to the tables and leaves nothing pending |
| Watch.Watch.ResolvePathHash | src/Watch.cpp:347-361 | finds tracked names and, once its name is known, the index backup, and fails on all others |
| Watch.Watch.VerifyHash | src/Watch.cpp:402-413 | true exactly when some version of the name's path has this name and this hash; fails where the lookups throw |
| Watch.Watch.UploadSuccess | src/Watch.cpp:415-438 | marks every version of the path with this name, and no other, as stored and queues the SQL; fails on an untracked path |
| Watch.Watch.RestoreDB | src/Watch.cpp:559-582 | whatever is in memory already: every row is put behind it, no directory that is watched is overwritten, and the name of the backup is known at last |
| Watch.Watch.RestoreFileIdx | src/Watch.cpp:584-641 | reads the file rows back in row order, on top of any index |
| Watch.Watch.RestoreFileRow | src/Watch.cpp:611-635 | one row under the lock: the first version of a path comes in full, any other without hash and flags; a name that is known keeps its entry |
| Watch.Watch.RestoreDirIdx | src/Watch.cpp:643-671 | reads the directory rows back in any order, on top of any watches |
| Watch.Watch.RestoreDirRow | src/Watch.cpp:663-665 | one row under the lock: a directory that is watched keeps its flag |
| Watch.Watch.RestoreIdxBackupName | src/Watch.cpp:570-579 | the name of the index backup is known from here on, and nothing else changes |
| Steps.OperationsAreSteps | src/Watch.cpp:37-258 | adding, deleting and scanning consist of the legal small steps that the state machine interleaves; adding and deleting only of those it serves while rows are being read back |
| Machine.UploadNextCases | src/remote/S3.cpp:123-161 | all that the handling of one queued upload can come to: dropped, stepped over, stored and refused, or stored and marked |
| Machine.BackUpQueues | src/Watch.cpp:487-489 | a backup of the index is queued as the file index.backup, under its name and with its modtime, if that file is there |
| Machine.QuietNext | src/remote/S3.cpp:190-207 | deletions, clean-ups and flushes change neither the index nor what the tables will be |
| Machine.RestoreNext | src/Watch.cpp:600-671 | reading one row back changes nothing but the index and the rows that are left, neither what the tables will be nor what memory will be when all is read back |
| Machine.WholeRestoreIsRun | src/Watch.cpp:559-582 | reading the index back when nothing comes between, the directories in any order, is a run of the state machine |
| IndexInvariant.NamesUnique | src/Watch.cpp:107-118 | a name belongs to one version of one path only |
| IndexInvariant.IndexedPlay | src/Watch.cpp:107-224 | every small step keeps forward and reverse index in agreement, histories non-empty and names different |
| IndexInvariant.RestoredFiles | src/Watch.cpp:600-638 | reading rows back puts behind the history of each path its rows in row order: in full if it is the very first, else without hash and flags |
| IndexInvariant.RestoredFields | src/Watch.cpp:612-628 | field by field: the very first version of a path comes as its row has it; any other is live, not stored and without hash, whatever its row says |
| IndexInvariant.RestoredName | src/Watch.cpp:632-634 | a row adds its name to the reverse index unless it is known, and touches nothing but the two indexes |
| IndexInvariant.RestoreIndexed | src/Watch.cpp:584-641 | reading back rows whose names differ and are not tracked keeps the two indexes in agreement, whatever was added before |
| IndexInvariant.RestoreFirst | src/Watch.cpp:611-635 | so does each single row, and the rest can still be read back |
| Refinement.RefinesPlay | src/Watch.cpp:107-224 | a small step that disturbs nothing still to be read back queues the one statement that does to the rows what the step does to memory |
| Refinement.RefinesUploadSuccess | src/Watch.cpp:415-438 | so does the news that an object is stored |
| Refinement.RefinesRestore | src/Watch.cpp:584-671 | after a start, memory together with the rows that are left to read agrees with the tables |
| Refinement.RefinesWithIsReadBack | src/Watch.cpp:559-582 | agreeing together with the rows that are left is agreeing once they have been read back |
| Refinement.AgreesExactlyWhen | src/Watch.cpp:600-638 | an action keeps memory and tables in agreement exactly when it does not add or drop a file of which a row is left, nor drop a directory that is left or add it with another flag |
| Refinement.AgreesThroughoutExactlyWhen | src/Watch.cpp:600-638 | over whole runs from any such state: they agree at every point exactly when no action does that |
| Refinement.IndexesAgree | src/Watch.cpp:107-133 | on every run, with any flushes and restarts and whatever comes between rows that are read back: both indexes agree, and the names of all rows, flushed or pending, are drawn and different |
| Refinement.IndexAndTablesAgree | src/Watch.cpp:107-133 | on such a run memory and tables agree at every point exactly when no request disturbs what is still to be read back; then, whenever nothing is left to read, the tables with the pending SQL executed hold exactly the watched directories with their flags and for every path its versions in order, with hash, stored flag and the latest live flag where memory still has them |
| Histories.FlushPointsDoNotMatter | src/Watch.cpp:264-271 | between restarts, a run and the same run without its flushes reach the same memory, bucket and tables-to-be |
| Histories.HistoryGrows | src/Watch.cpp:215-224 | no step changes modtime or name of a version of a path that stays tracked; histories grow at the back |
| Histories.HistoryOnlyGrows | src/Watch.cpp:215-224 | the same over whole runs without restart during which the path stays tracked |
| Histories.NamesNeverReused | src/Watch.cpp:107-118 | a name that is tracked after a run without restart was tracked before or was still to be read back, for the same path and modtime, or had not been drawn |
| Histories.LostForEver | src/Watch.cpp:107-133 | a drawn name that is neither in the bucket nor queued for upload is never stored under nor queued again, on any run, restarts included |
| Histories.LostUploadsStayLost | src/Watch.cpp:559-582 | what was not stored when the daemon was restarted is never stored, on any run after it, further restarts included |
| Modtimes.RowsAreIndex | src/Watch.cpp:600-638 | on every run in which modtimes fit 32 bits and nothing still to be read back is disturbed, grouping the rows by path gives exactly the modtimes and names in memory and in the rows left to read, and neighbouring versions differ in modtime, also after restarts; what becomes of the last clause on all other runs is said by the next rows |
| Modtimes.NeighboursDifferExactlyWhen | src/Watch.cpp:215-224 | whatever the modtimes are: an action keeps neighbouring versions and neighbouring rows of every path different in modtime, in memory as it will be and in the tables as they are and will be, exactly when it is no new version with the modtime of the last row of its path or of the first row still to be read back, and no restart with neighbouring rows a multiple of 2^32 apart |
| Modtimes.DifferThroughoutExactlyWhen | src/Watch.cpp:85-133 | the same at every point of whole runs from any such state |
| Modtimes.NeighboursDifferOnRuns | src/Watch.cpp:600-638 | in particular of every run from an empty index, with any flushes, restarts and interrupted starts |
| Modtimes.RepeatsExactlyWhen | src/Watch.cpp:603 | while modtimes fit 32 bits restarts do no harm: the only harm is a file added with the modtime of the last row of its path or of the first one still to be read back |
| Modtimes.SparingIsNoRepeat | src/Watch.cpp:215-224 | which no action does that disturbs nothing still to be read back while index and tables agree |
| Modtimes.RestartKeepsNeighboursApartExactlyWhen | src/Watch.cpp:603 | an uninterrupted start keeps neighbours apart exactly when no two neighbouring rows differ by a multiple of 2^32 |
| Safety.SafeNext | src/remote/S3.cpp:190-207 | every action keeps remote safety: of what is recorded since the last restart always, of everything if it is no clean-up of a name still to be read back and no restart that loses a deletion which has taken effect in the bucket |
| Safety.SafeExactlyWhen | src/remote/S3.cpp:190-207 | of everything, restored versions and rows included, an action keeps remote safety exactly when it is neither of these two |
| Safety.FlushedStoredExactlyWhen | src/Watch.cpp:264-271 | what can be told before a restart: the rows marked as stored, as flushed, have their objects exactly when those with a pending deletion have, if all rows have once the pending SQL is executed |
| Safety.LosingNoDeletionIsSafe | src/Watch.cpp:264-271 | so a restart that loses insertions and flags only does no harm |
| Safety.DeletesSafeExactlyWhen | src/remote/Remote.cpp:132-139 | an action keeps everything that is or will be tracked, and the index backup, out of the delete queue exactly when it is no clean-up that looks at a name still to be read back |
| Safety.DeletesSafeThroughoutExactlyWhen | src/remote/Remote.cpp:132-139 | the same at every point of whole runs from any such state |
| Safety.RemoteSafety | src/remote/Remote.cpp:117-144 | over every interleaving of watch changes, scans, sweeps with failures and mis-pops, clean-ups, restarts and the rows read back after them: every version recorded since the last restart and marked as stored is in the bucket; and at every point nothing that is or will be tracked is queued for deletion, exactly when no clean-up looks at a name still to be read back |
| Safety.RemoteSafetyAcrossRestarts | src/Watch.cpp:584-641 | at every point of a run, with restarts that lose whatever is pending: every tracked version marked as stored, restored ones included, and every row marked as stored that will be in the tables or is still to be read back, has its object in the bucket, and nothing that is or will be tracked is queued for deletion; exactly when no clean-up looks at a name still to be read back and no restart loses a deletion that has taken effect in the bucket |
| Safety.RestartStoredExactlyWhen | src/Watch.cpp:584-641 | after any restart, whatever SQL it loses, read back without interruption: all versions marked as stored are in the bucket exactly when this holds of the first row of every path as flushed |
| Safety.CleanUpKeepsTracked | src/remote/Remote.cpp:117-144 | in every state reached without such a clean-up, a clean-up and a delete sweep without failures leave the index alone and no listed orphan behind, and leave every object that is or will be tracked alone exactly when the listing has none still to be read back |
| Fidelity.StoresIndexedContent | src/remote/S3.cpp:135-155 | what is stored under a tracked name encrypts the content that was indexed under it, because the modtime is checked first |
| Fidelity.DownloadExactlyWhen | src/remote/S3.cpp:379-420 | the object of a tracked version, encrypting some content, is restored as that content exactly when the version's hash is the content's |
| Fidelity.DownloadTracked | src/remote/S3.cpp:379-420 | a tracked version whose object is in the bucket can be restored, as what was indexed, exactly when it is the first of its path or was recorded since the last restart; otherwise the hash check fails |
| Fidelity.UploadRestorableExactlyWhen | src/remote/S3.cpp:135-161 | without any assumption on modtimes: what is uploaded now can be restored exactly when the file still holds what was indexed |
| Fidelity.BackupFidelity | src/Watch.cpp:402-438 | on every run, restarts and interrupted starts included, a tracked version recorded since the last restart and marked as stored can be restored: its object decrypts, passes the hash check and is what was indexed |
| Fidelity.BackupFidelityAcrossRestarts | src/Watch.cpp:600-638 | on the runs that remote safety across restarts singles out, with restarts that may lose anything pending but deletions that have taken effect, this holds of restored first versions, too |
| Fidelity.RestoreAllIsFaithful | src/Watch.cpp:363-369 | on such runs, restoring everything brings back the latest version of every path as it was indexed, if it is stored and is the only one or recorded since the last restart |
| Scanning.AddDirGrows | src/Watch.cpp:55-83 | adding a directory makes it and everything new below it complete and leaves the rest as it is |
| Scanning.ScanReachesClosure | src/Watch.cpp:191-258 | when all tracked files are live and present and all watched directories exist, one scan in any order makes every tracked file current, tracks every regular file but swap files of a watched directory, and watches every directory below a recursive watch |
| Scanning.SecondScanIsIdle | src/Watch.cpp:191-258 | a scan of an unchanged file system changes no index, no queue and no SQL |
| Scanning.ScanSeesEveryChangeExactlyWhen | src/Watch.cpp:199-212 | a scan notices every change in every order of the table, each path once, exactly when no tracked file is gone or not live, or no live file has changed |
| Scanning.ScanSeesEveryEntryExactlyWhen | src/Watch.cpp:227-257 | in every order of the directories, a scan watches all that the watched directories which are there hold, exactly when no watched directory is gone, or all of it was watched before |
| Scanning.FilesDoNotHideEntries | src/Watch.cpp:191-258 | whatever the first loop of the scan finds, and wherever it ends, makes no difference to that |
| ScanTurns.DeadFileEndsScan | src/Watch.cpp:199-201 | a file that is not live ends the loop over the files |
| ScanTurns.GoneFileIsMarked | src/Watch.cpp:204-213 | when the loop comes to a live file that has gone, its latest version alone loses the live flag, the UPDATE that says so is queued behind the rest, nothing else changes, and the loop ends |
| ScanTurns.SameFileIsKept | src/Watch.cpp:216-219 | a live file with the modtime it was indexed with is left alone |
| ScanTurns.ChangedFileIsRecorded | src/Watch.cpp:219-224 | a live file with another modtime gets one version more, with every field spelt out: modtime, next name, hash of the content, live and not stored; also in the reverse index, the SQL and the upload queue; only the version before it stops being live |
| ScanTurns.GoneDirectoryIsDropped | src/Watch.cpp:229-235 | when the loop comes to a directory that has gone, its watch is dropped, the DELETE is queued, nothing else changes, and the loop ends |
| ScanTurns.DirectoryIsVisited | src/Watch.cpp:237-256 | the entries of a directory that is there are looked at as its watch says |
| ScanTurns.FilesComeFirst | src/Watch.cpp:191-258 | what a scan queues for files comes before what it queues for directories, and leaves their histories alone |
| ScanTurns.ScanMarksGoneFile | src/Watch.cpp:204-213 | so after a whole scan that comes to a gone file, it is not live any more, and the SQL is pending |
| ScanTurns.OperationsOnlyQueue | src/Watch.cpp:37-258 | adding, deleting and scanning only append to the queues and the SQL, only draw names, and leave the name of the index backup alone |
| ScanTurns.RestoredLiveExactlyWhen | src/Watch.cpp:612-628 | after an uninterrupted start a path is live exactly when its file is there and it has several rows, or its only row is live |
| ScanTurns.ChangeAfterRestart | src/Watch.cpp:215-224 | the first scan after a start records a change of a file with several versions, when it comes to it |
| Undo.ListsDistinct | src/Watch.cpp:153-173 | the traversal of a finite tree visits no file and no directory twice |
| Undo.DeleteUndoesAdd | src/Watch.cpp:55-189 | on an untracked tree, recursive add watches exactly its directories and gives every regular file but swap files one version under the names drawn in order; recursive delete then restores both indexes and the directories and queues exactly the drawn names |
| Undo.ShallowAddAndDelete | src/Watch.cpp:55-173 | without recursion, adding a directory watches it alone and tracks exactly its regular files but swap files; deleting it drops exactly its regular files and the watch |
| Watches.ListsExactly | src/Watch.cpp:66-77 | the traversal of a directory finds exactly it, the directories and the regular files that are entries of a directory it finds |
| Watches.SwapFiles | src/Watch.cpp:86-89 | a swap file is a path with that extension and something other than a slash before it |
| Watches.AddRegularFile | src/Watch.cpp:45-46 | adding an untracked regular file: the whole memory afterwards, every field spelt out |
| Watches.AddsNothingExactlyWhen | src/Watch.cpp:37-105 | adding changes nothing exactly when the path is missing, neither file nor directory, a swap file, or tracked or watched already |
| Watches.AddTree | src/Watch.cpp:43-44 | adding a directory recursively, none of whose tree was watched or tracked: exactly its directories are watched, recursively; exactly its regular files but swap files get one version each, the one on disk, under the names drawn in order, and are queued for upload in order |
| Watches.AddFlat | src/Watch.cpp:43-44 | without recursion: the directory alone is watched, not recursively, and the same happens to exactly its own regular files |
| Watches.DeleteRegularFile | src/Watch.cpp:143-144 | deleting a tracked regular file: its history and exactly its names are forgotten, the names are queued for deletion in order, the DELETE is queued, nothing else changes |
| Watches.DeletesNothing | src/Watch.cpp:139-147 | deleting an untracked file queues the DELETE only; a path that is neither file nor directory is left alone |
| Watches.DeleteTree | src/Watch.cpp:141-142 | deleting a directory recursively, whatever is watched and tracked: exactly its directories and exactly the files below them are dropped, with their names, which are queued for deletion in order |
| Watches.DeleteFlat | src/Watch.cpp:141-142 | without recursion: exactly its own watch and its own regular files |
| Watches.UnwatchUndoesWatch | src/Watch.cpp:37-189 | for a directory, a file or anything else that is not watched: a recursive delete after a recursive add restores both indexes and the directories and queues exactly the names that were drawn |
| Sweeps.UploadSweepEffect | src/remote/S3.cpp:117-163 | whatever fails, an upload sweep stores exactly the items whose file is still as queued and whose transfer succeeds, and leaves the queue of the sweep characterisation |
| Sweeps.UploadSweepKeeps | src/remote/S3.cpp:154-160 | the queue keeps one item per item stepped over, and keeps the right ones exactly when those come last |
| Sweeps.UploadSweepMarks | src/Watch.cpp:415-438 | in the index a sweep marks exactly the versions that were stored and changes nothing else in any version |
| Sweeps.UploadSweepContents | src/remote/S3.cpp:288-333 | every object in the bucket was there before, or encrypts the content of the file of an item with its name |
| Sweeps.NewsOfUpload | src/Watch.cpp:415-438 | the news of one upload: exactly the versions of the path with the name are marked, and the UPDATE is queued even if there is none; nothing happens for the index backup |
| Sweeps.DeleteSweepEffect | src/remote/S3.cpp:190-207 | exactly the objects whose deletion succeeds are gone, although the queue may have lost other names |
| Sweeps.CleanAllQueuesOrphans | src/remote/Remote.cpp:132-139 | a clean-up queues exactly the listed objects that are neither tracked nor the index backup, in order, and changes nothing else |
| Sweeps.CleanThenDelete | src/remote/Remote.cpp:117-144 | followed by a delete sweep without failures it leaves no listed orphan and touches nothing that resolves or was not listed |
| Sweeps.WholeUploadSweepIsRun | src/remote/S3.cpp:117-163 | an uninterrupted upload sweep is a run of the state machine |
| Sweeps.WholeDeleteSweepIsRun | src/remote/S3.cpp:190-207 | an uninterrupted delete sweep is a run of the state machine |
| Sweeps.WholeCleanUpIsRun | src/remote/Remote.cpp:132-139 | an uninterrupted clean-up is a run of the state machine |
| Cycle.FoundThenStoredThenRestored | src/Watch.cpp:16-30 | from any index, after any operation on it and an upload sweep without failures on the unchanged file system, every version that the operation recorded is marked as stored, and downloading it gives what its file holds |
| Cycle.ScanThenUploadThenRestore | src/Watch.cpp:191-258 | in particular after a scan, in any order of the tables |
| Cycle.RestoredAsIndexed | src/Watch.cpp:363-369 | restoring everything after any run that backup fidelity across restarts is about, whatever was queued before: every file whose latest version is stored, and is the only one or recorded since the last restart, lies below the target directory at its own path, with the bytes that were indexed and their modtime |
| Remotes.S3.constructor | src/remote/Remote.cpp:3-7 | the sweeps share the watcher's queues |
| Remotes.S3.UploadFromQueue | src/remote/S3.cpp:117-163 | the loop that pops the queue it iterates does to memory and bucket what the upload sweep says |
| Remotes.S3.UploadObject | src/remote/S3.cpp:288-333 | encrypts the file, stores it under the name and tells the index; fails when the transfer fails or the path is untracked, in the latter case with the object stored |
| Remotes.S3.DownloadFromQueue | src/remote/S3.cpp:165-188 | downloads every item in order and pops it whether that failed or not; the local disk is changed by each in turn |
| Remotes.S3.DownloadObject | src/remote/S3.cpp:335-437 | fetches, decrypts and verifies one object, with the four ways to fail; a restored file is below the target directory with its original modtime, one with the wrong hash is removed, one that cannot be decrypted or looked up stays as far as it was written |
| Remotes.S3.DeleteFromQueue | src/remote/S3.cpp:190-207 | the loop that pops the queue it iterates does to queue and bucket what the delete sweep says |
| Remotes.S3.GetObjects | src/remote/S3.cpp:268-276 | returns and keeps what the service lists, and on failure keeps the former list |
| Remotes.Remote.QueueForDelete | src/remote/Remote.cpp:53-58 | appends the name to the delete queue |
| Remotes.Remote.CleanRemote | src/remote/Remote.cpp:117-144 | looks up the listed objects one by one and queues the orphans; the lock stays held exactly when the listing fails or is empty |
| Remotes.Remote.DownloadFiles | src/Watch.cpp:363-369 | downloads the latest version of every tracked file behind what was queued, each with the result a download of its name has and to its place below the target directory |
| Remotes.TargetIsBelow | src/remote/S3.cpp:342-353 | a download goes to the target directory, one slash, and the path of the file |
| Remotes.DownloadSucceedsExactlyWhen | src/remote/S3.cpp:373-420 | a download succeeds exactly when the transfer completes, decryption succeeds, the name is tracked, and a version of it has the hash of what was decrypted |
| Remotes.TargetHolds | src/remote/S3.cpp:379-420 | what is at the target afterwards, in each of the cases: what was there, the content with its modtime, nothing, or what was written before the failure |
| Remotes.OnlyTargetChanges | src/remote/S3.cpp:335-420 | no other file is touched |
| Remotes.DiskKeeps | src/remote/S3.cpp:165-188 | of all downloads to one place the last decides what is there, with its content and modtime |
| Remotes.RestoredFilesLand | src/Watch.cpp:363-369 | so restoring everything, whatever was queued before, leaves every file whose latest version can be restored below the target directory, at its own path there, with that content and modtime |
| Base64.Letter | include/encloned/Encryption.hpp:41-46 | the alphabet of RFC 4648 section 5: the value of a sextet's letter is the sextet |
| Base64.Alphabet | include/encloned/Encryption.hpp:41-46 | the 64 letters, spelt out |
| Base64.OnlyLetters | src/Encryption.cpp:202-204 | no other character has a value |
| Shifts.LowBitsSurvive | src/Encryption.cpp:147 | wrapping to 32 bits leaves the low 16 bits alone |
| Shifts.WrapOnce | src/Encryption.cpp:147 | the accumulator that wraps in every step is the unbounded one wrapped once |
| Base64.TakenAfterByte | src/Encryption.cpp:146-152 | the letters that come off after a byte are the sextets it completes, whatever is left in the higher bits |
| Base64.EncodeStream | src/Encryption.cpp:140-158 | writes the encoding without padding; the loop keeps the counter in a small fixed range and the accumulator equal to the unbounded one wrapped |
| Base64.FillBlock | src/Encryption.cpp:171-176 | the masks and shifts of one block give its four sextets |
| Base64.AppendLetters | src/Encryption.cpp:178-193 | appends the letters of the first sextets of a block |
| Base64.EncodeFull | src/Encryption.cpp:170-180 | a full block gives its four letters |
| Base64.EncodeTail | src/Encryption.cpp:183-196 | a part of a block gives one letter more than it has bytes and is padded to four characters |
| Base64.EncodeBlocks | src/Encryption.cpp:160-198 | writes what the streaming encoder writes, followed by the padding of RFC 4648 sections 3.2 and 4 |
| Base64.LetterTable | src/Encryption.cpp:202-204 | the table maps the letters to their values and all other bytes to -1 |
| Base64.DecodeLetter | src/Encryption.cpp:210-215 | one turn keeps the decoder in step with the unbounded accumulator and emits a byte when one is complete |
| Base64.DecodeStream | src/Encryption.cpp:200-218 | on any input, decodes the longest prefix that consists of letters |
| Base64.DecodeEncode | src/Encryption.cpp:140-218 | decoding undoes both encodings, for every byte string |
| Base64.EncodeDecode | src/Encryption.cpp:140-218 | encoding undoes decoding exactly on canonical strings (RFC 4648 section 3.5): letters only, length not 1 modulo 4, unused bits zero |
| Base64.Lengths | src/Encryption.cpp:140-198 | the streaming length is ceil(4n/3), the padded one 4*ceil(n/3) |
| Base64.PaddingSigns | src/Encryption.cpp:192-196 | one or two equals signs, or none, by the length modulo 3 |
| Base64.GroupsBijection | src/Encryption.cpp:220-250 | on groups of four letters the codec is a bijection, so between 24 letters and 18 bytes and between 64 letters and 48 bytes |
| BitGrouping.EncodeRegroupsBits | src/Encryption.cpp:140-158 | the letters spell the bits of the bytes in order, followed by zeros that fill the last letter |
| BitGrouping.DecodeRegroupsBits | src/Encryption.cpp:200-218 | the bytes hold the bits of the letters, as far as these fill whole bytes |
| SaltedNames.CString | src/Encryption.cpp:233-234 | what `strcpy` copies: the prefix before the first zero byte |
| SaltedNames.StrCpy | src/Encryption.cpp:234 | memory after the copy, also behind the buffer: the prefix before the first zero, a zero, and behind it what was there before |
| SaltedNames.CopiedIsBuffer | src/Encryption.cpp:230-234 | what the copy leaves in the 18 bytes of the salt buffer |
| SaltedNames.CopyStaysInsideExactlyWhen | src/Encryption.cpp:230-234 | the copy stays inside the buffer exactly when the decoded salt is shorter or has a zero among its first 18 bytes; otherwise the hash still reads its first 16 bytes |
| SaltedNames.DeriveKey | src/Encryption.cpp:229-250 | the encoded hash for the bytes in the salt buffer, followed by the salt as given |
| SaltedNames.VerifyKey | src/Encryption.cpp:252-262 | derives again with the part behind the 64th letter and compares; fails on shorter names |
| SaltedNames.NameShape | src/Encryption.cpp:220-250 | a derived name has 88 letters, the first 64 decode to the key and the rest to the salt |
| SaltedNames.VerifyComparesKeys | src/Encryption.cpp:252-262 | a name verifies exactly when its first 64 letters are the encoded hash for the salt decoded from the rest |
| SaltedNames.ShortNamesExactlyWhen | src/Encryption.cpp:252-254 | verification is out of range exactly for names of fewer than 64 letters |
| SaltedNames.DeriveFailsExactlyWhen | src/Encryption.cpp:236-240 | a name cannot be derived exactly when the password hash fails |
| SaltedNames.NoEarlyZeroFixes | src/Encryption.cpp:229-239 | without a zero among the first 15 salt bytes, the hash reads exactly the salt |
| SaltedNames.NamesVerifyExactlyWhen | src/Encryption.cpp:229-262 | for a password hash that never fails and separates salts, derived names can be relied on to verify exactly when the salt has no zero among its first 15 bytes |
| SecretStream.PushChunk | src/Encryption.cpp:34-35 | one encrypted chunk is an overhead longer than its message |
| SecretStream.PullChunk | src/Encryption.cpp:69-72 | accepts only what was pushed in the same state |
| SecretStream.Reader.Read | src/Encryption.cpp:31-32 | a read returns the next bytes; end of file shows only as a short read |
| SecretStream.EncryptFile | src/Encryption.cpp:11-43 | writes the header and the chunks of the content, the last one short and final, for every length |
| SecretStream.DecryptFile | src/Encryption.cpp:45-85 | writes and returns what opening the file chunk by chunk gives |
| SecretStream.DecryptChunks | src/Encryption.cpp:66-84 | the loop over the chunks, with its three exits |
| SecretStream.HashFile | src/Encryption.cpp:111-138 | the loop over 512-byte buffers absorbs every byte of the file once, in order, so the hash is that of the content |
| SecretStream.RoundTrip | src/Encryption.cpp:11-85 | decrypting an encrypted file gives its content back, for every length |
| SecretStream.EncryptedSize | src/Encryption.cpp:25-43 | the encrypted file is as long as the header, the content and an overhead for each of n/4096 + 1 chunks |
| SecretStream.EncryptedLayout | src/Encryption.cpp:25-41 | where each chunk lies: header, every full chunk of 4096 bytes with its number and no tag, and the rest, maybe empty, as the one final chunk |
| SecretStream.OpenAuthentic | src/Encryption.cpp:66-78 | reading on from any chunk, the loop accepts exactly the rest of the encrypted file and writes no more than a prefix of its content |
| SecretStream.AcceptsExactlyEncryptedFiles | src/Encryption.cpp:45-85 | of everything put together from encrypted files and foreign bytes, decryption accepts exactly the encrypted files, and writes a prefix of one content otherwise |
| SecretStream.ProperPrefixRejected | src/Encryption.cpp:60-85 | every proper prefix of an encrypted file is rejected, also one inside the header, and exactly the content of the chunks that are whole is written |
| SecretStream.ProperExtensionRejected | src/Encryption.cpp:60-85 | every proper extension of an encrypted file is rejected, and exactly its full chunks are written |
| SecretStream.ShortReadIsLastChunk | src/Encryption.cpp:67-78 | the chunk of a short read is the last of its file and final, although nobody asks |
| SecretStream.FinalTagIsNotChecked | src/Encryption.cpp:73-78 | a short chunk with any tag would be accepted as the end of a file |
| SecretStream.EarlyFinalTagIsRejected | src/Encryption.cpp:73-75 | a full chunk that carries the final tag ends decryption with an error, unwritten |
| Requests.ParseNone | src/Socket.cpp:59-64 | without a delimiter, all three parts are the whole request |
| Requests.ParseOne | src/Socket.cpp:59-64 | with one, the second argument is the whole request |
| Requests.ParseMore | src/Socket.cpp:59-64 | with more, the first two delimiters split it |
| Requests.ParseTotal | src/Socket.cpp:59-64 | no request makes the split take a substring behind the end |
| Requests.WireFormat | src/enclone.cpp:195-239 | the words the client sends |
| Requests.UnknownCommands | src/Socket.cpp:76-97 | the daemon answers anything but its ten commands with nothing |
| Requests.CommandRoundTrip | src/enclone.cpp:195-239 | the daemon receives the command that was meant exactly when no argument but the last of two contains a delimiter |
| Requests.CallRoundTrip | src/remote/S3.cpp:64-91 | a call with two arguments is read back exactly when the first contains no delimiter |
| Requests.OneWordCalls | src/remote/S3.cpp:48-116 | the calls without arguments are exactly these words |
| Requests.NamesAreReadBack | src/remote/Remote.cpp:70-72 | so fetching an object by its name is read back for every target |
| Locks.OperationsAreOrdered | src/remote/Remote.cpp:24-144 | an operation takes its locks in rank order and gives them back, however often its loops run, exactly when it is no clean-up that leaves early and takes neither of the two upper locks under the other against the rank; for both ranks of the two |
| Locks.LocksTaken | src/remote/Remote.cpp:24-144 | how often each operation takes each of the four locks, however often its loops run and whichever branches it takes |
| Locks.LocksNest | src/Watch.cpp:264-271 | the database's lock is only taken while the watcher's is held, and that of the service only while the remote's is |
| Locks.ProgramIsOrdered | src/Watch.cpp:16-31 | so does any sequence of such operations |
| Locks.SomebodyMoves | src/Watch.cpp:264-271 | whoever waits leads to a thread that can move |
| Locks.NoDeadlock | src/remote/Remote.cpp:11-58 | any number of threads running any operations that keep to one of the two ranks, under any schedule: no thread asks for a lock it holds, and while one is not done, one can move |
| Locks.ListObjectsDeadlocks | src/remote/Remote.cpp:74-94 | any listing that looks something up and any operation that takes the remote's lock under the watcher's, be it a change of the watches or a backup of the index, can block each other for good |
| Locks.DeadlockFreeExactlyWhen | src/remote/Remote.cpp:24-144 | for any set of operations: any number of threads running them under any schedule can always go on, exactly when no clean-up that leaves early is among them, and not both such a listing and such an operation |
| Locks.LeakedLockIsNeverFree | src/remote/Remote.cpp:117-127 | after a clean-up that left early the remote's lock is never free again, whatever any thread does and however they are scheduled |
| Locks.CleanUpLeaksLock | src/remote/Remote.cpp:117-127 | so even a single thread blocks for good on its next sweep, clean-up or listing |
| Counterexamples.SameSecondEditIsLost | src/remote/S3.cpp:135-155 | a file edited again within the second in which it was indexed is marked as stored and cannot be restored |
| Counterexamples.LossyRestartLosesObject | src/Watch.cpp:584-641 | a restart that loses the SQL of a deletion the bucket has seen brings back a version as stored whose object is gone |
| Counterexamples.RestartLosesLaterVersions | src/Watch.cpp:622-627 | after two versions were stored, flushed and read back, the object of the second is in the bucket and decrypts to what was indexed, and its download fails the hash check |
| Counterexamples.RestartConfusesModtimes | src/Watch.cpp:603 | two versions whose modtimes differ by 2^32 seconds have the same modtime once they have been read back |
| Counterexamples.CleanUpDuringStartLosesObject | src/Watch.cpp:600-638 | a clean-up between a start and the row of a version queues its object for deletion; the version is tracked and marked as stored, and after the next sweep its object is gone |
| Counterexamples.CleanUpDuringStartQueuesBackup | src/Watch.cpp:570-582 | a clean-up before the name is back queues the stored backup of the index for deletion, and the next sweep deletes it |
| Counterexamples.AddDuringStartSetsOrderApart | src/Watch.cpp:600-638 | a file added between a start and its own row leaves memory and tables in different order when everything has been read back |
| Counterexamples.AddDuringStartRepeatsModtime | src/Watch.cpp:600-638 | although the file did not change, it then has two neighbouring versions with the same modtime, which fits 32 bits |
| Counterexamples.GoneFileHidesChange | src/Watch.cpp:199-212 | a file that has gone ends the scan before another file, live and changed since, is looked at, and every later scan in this order ends there as well |
| Counterexamples.GoneDirectoryHidesFile | src/Watch.cpp:229-235 | a watched directory that has gone ends the scan before a new file in another watched directory is found |
| Counterexamples.MispopLosesUpload | src/remote/S3.cpp:154-160 | a failed upload before a successful one is dropped from the queue while its version stays tracked and live, and no run from there ever stores it |

## Left out

- The AWS client: a transfer or a deletion succeeds or fails, in any way; listings may be incomplete.
- libsodium and SQLite themselves, SQL text and its quoting, and the pages of the database backup.
- Sockets, sessions, the buffer a request is read into, option parsing and the daemon's start-up; key files.
- Response texts, logging, timing and sleeping.
- `restoreIndex`: one branch per argument, renaming files.
- `indexBackup`: when a backup is due (src/Watch.cpp:464-469) is not modelled; the state machine may queue one
  at any time once its name is known. When deriving the name fails (src/Watch.cpp:575-579) the machine goes on
  without one; that the source then backs the index up under an empty name is not modelled.
- Restoring one path or one name (src/Watch.cpp:371-400): it queues the same downloads. Telling a name from a
  path by its length of 88 characters is not modelled.
- The directories a download creates, its temporary file, and an empty target directory, of which the source
  asks for the last character (src/remote/S3.cpp:343).
- Iterators that a change of the container invalidates: a sweep stands at an offset, a scan uses the keys at
  its start.
- A watched path that is no longer a directory, or a file that cannot be opened: the source throws or
  dereferences null, which ends the process and is the same as a restart. A tracked path that has become a
  directory, which encryption never finishes reading.
- Symbolic links that make the tree infinite.
- `uploadSuccess` runs without the watcher's lock (src/remote/Remote.cpp:60-64); it is one step here.
- SaltedNames.NamesVerifyExactlyWhen: for password hashes that never fail and differ for different salts; a
  hash that ignores the salt would verify always.
- Strings of 2^32 bytes and more, for which the loop counter of the streaming encoder wraps.
- Base64.DecodeStream: characters are bytes; other characters do not occur in the source's strings.
- Locks.NoDeadlock: threads are sequences of whole operations; destructors and process exit are not modelled.
