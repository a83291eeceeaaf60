/** Where the assumptions of the main results are needed, and what the code's departures from its intent come
    to: reachable states in which each result fails. */
module Counterexamples {
  import opened Common
  import opened FileSystem
  import opened Database
  import opened WorkQueue
  import opened Index
  import opened Steps
  import opened Machine
  import opened IndexInvariant
  import opened Refinement
  import opened Histories
  import opened Modtimes
  import opened Safety
  import opened Fidelity
  import opened SecretStream
  import opened Scanning

  /** A run from an empty index, and a bucket without random names, leads here. */
  ghost predicate Reachable(s: State) {
    exists key: Key, fs: FS, bucket, run ::
      NothingRandom(bucket) && s == Exec(Init(key, fs, bucket), run)
  }

  lemma ReachableNext(s: State, a: Action)
    requires Reachable(s)
    ensures Reachable(Next(s, a))
  {
    var key: Key, fs: FS, bucket, run :| NothingRandom(bucket) && s == Exec(Init(key, fs, bucket), run);
    ExecConcat(Init(key, fs, bucket), run, [a]);
    ExecOne(s, a);
    assert Next(s, a) == Exec(Init(key, fs, bucket), run + [a]);
  }

  lemma ReachableInv(s: State)
    requires Reachable(s)
    ensures Inv(s)
  {
    var key: Key, fs: FS, bucket, run :| NothingRandom(bucket) && s == Exec(Init(key, fs, bucket), run);
    InvInit(key, fs, bucket);
    InvExec(Init(key, fs, bucket), run);
  }

  /** The first start is over: there was nothing to read back. */
  lemma FirstStart(key: Key, fs: FS) returns (s: State)
    ensures Reachable(s) && s == Init(key, fs, map[]).(mem := Started(0).(named := true))
  {
    var s0 := Init(key, fs, map[]);
    assert NothingRandom(s0.bucket) && s0 == Exec(s0, []);
    ReachableNext(s0, RestoreName);
    s := Next(s0, RestoreName);
  }

  /** A file was added. */
  lemma Added(key: Key, fs: FS, p: Path) returns (s: State)
    requires fs.Exists(p)
    ensures var v := Index.NewVersion(fs, p, 0);
      && Reachable(s) && s == Init(key, fs, map[]).(mem := s.mem, recorded := [fs.Content(p)])
      && s.mem == Memory(map[p := [v]], map[Random(0) := (p, v.modtime)], map[], [InsertFile(RowOf(p, v))],
                         [UploadItem(p, Random(0), v.modtime)], [], 1, true)
  {
    var s0 := FirstStart(key, fs);
    var v := Index.NewVersion(fs, p, 0);
    ReachableNext(s0, Watching(Step.NewVersion(p)));
    s := Next(s0, Watching(Step.NewVersion(p)));
    assert [] + [v] == [v] && [] + [InsertFile(RowOf(p, v))] == [InsertFile(RowOf(p, v))];
  }

  // Sweeps of a single item, and the clean-up of a single object.

  lemma StoresOne(s: State, item: UploadItem, header: seq<Octet>) returns (r: State)
    requires Reachable(s) && s.sweep == Idle && s.mem.uploads == [item] && |header| == HEADER
    requires s.fs.Exists(item.path) && s.fs.Mtime(item.path) == item.modtime
    requires item.path in s.mem.files && item.objectName != IndexBackup
    ensures Reachable(r)
    ensures r == s.(mem := UploadSuccess(s.mem, item.path, item.objectName).(uploads := []),
                    bucket := s.bucket[item.objectName := Encrypted(s.key, header, s.fs.Content(item.path))])
  {
    var s1 := Next(s, BeginUploads);
    var s2 := Next(s1, UploadNext(true, header));
    ReachableNext(s, BeginUploads);
    ReachableNext(s1, UploadNext(true, header));
    ReachableNext(s2, EndSweep);
    r := Next(s2, EndSweep);
  }

  lemma DeletesOne(s: State, n: Name) returns (r: State)
    requires Reachable(s) && s.sweep == Idle && s.mem.deletes == [n]
    ensures Reachable(r) && r == s.(mem := s.mem.(deletes := []), bucket := s.bucket - {n})
  {
    var s1 := Next(s, BeginDeletes);
    var s2 := Next(s1, DeleteNext(true));
    ReachableNext(s, BeginDeletes);
    ReachableNext(s1, DeleteNext(true));
    ReachableNext(s2, EndSweep);
    r := Next(s2, EndSweep);
  }

  lemma CleansOne(s: State, n: Name) returns (r: State)
    requires Reachable(s) && s.cleaning == [] && n in s.bucket
    ensures Reachable(r) && r == s.(mem := CleanStep(s.mem, n))
  {
    var s1 := Next(s, ListForCleaning([n]));
    ReachableNext(s, ListForCleaning([n]));
    ReachableNext(s1, CleanNext);
    r := Next(s1, CleanNext);
  }

  lemma ReadsOne(s: State, row: Row, rest: seq<Row>) returns (r: State)
    requires Reachable(s) && s.rest.rows == [row] + rest
    ensures Reachable(r) && r == s.(mem := RestoreRow(s.mem, row), rest := s.rest.(rows := rest))
  {
    assert ([row] + rest)[1..] == rest;
    ReachableNext(s, RestoreFile);
    r := Next(s, RestoreFile);
  }

  lemma ReadsName(s: State) returns (r: State)
    requires Reachable(s) && s.rest == Tables(map[], [])
    ensures Reachable(r) && r == s.(mem := s.mem.(named := true))
  {
    ReachableNext(s, RestoreName);
    r := Next(s, RestoreName);
  }

  /** It was stored. */
  lemma AddedAndStored(key: Key, fs: FS, p: Path, header: seq<Octet>) returns (s: State)
    requires fs.Exists(p) && |header| == HEADER
    ensures var v := Index.NewVersion(fs, p, 0);
      && Reachable(s)
      && s == Init(key, fs, map[]).(mem := s.mem, bucket := map[Random(0) := Encrypted(key, header, fs.Content(p))],
                                    recorded := [fs.Content(p)])
      && s.mem == Memory(map[p := [v.(remoteExists := true)]], map[Random(0) := (p, v.modtime)], map[],
                         [InsertFile(RowOf(p, v)), SetRemoteExists(Random(0))], [], [], 1, true)
  {
    var s0 := Added(key, fs, p);
    var v := Index.NewVersion(fs, p, 0);
    assert MarkRemote([v], Random(0)) == [v.(remoteExists := true)];
    s := StoresOne(s0, s0.mem.uploads[0], header);
  }

  /** The row of a version that was stored. */
  function StoredRow(fs: FS, p: Path, id: nat): Row {
    RowOf(p, Index.NewVersion(fs, p, id)).(remoteExists := true)
  }

  lemma ApplyOne(t: Tables, stmt: Statement)
    ensures ApplyAll(t, [stmt]) == Apply(t, stmt)
  {}

  lemma FlushedRow(t: Tables, row: Row, n: Name)
    requires row.pathHash == n && !row.remoteExists && forall i :: 0 <= i < |t.rows| ==> t.rows[i].pathHash != n
    ensures ApplyAll(t, [InsertFile(row), SetRemoteExists(n)]) == t.(rows := t.rows + [row.(remoteExists := true)])
  {
    assert [InsertFile(row), SetRemoteExists(n)] == [InsertFile(row)] + [SetRemoteExists(n)];
    ApplyAllConcat(t, [InsertFile(row)], [SetRemoteExists(n)]);
    ApplyOne(t, InsertFile(row));
    ApplyOne(t.(rows := t.rows + [row]), SetRemoteExists(n));
    assert SetRemote(t.rows + [row], n) == t.rows + [row.(remoteExists := true)];
  }

  /** And flushed. */
  lemma AddedAndFlushed(key: Key, fs: FS, p: Path, header: seq<Octet>) returns (s: State)
    requires fs.Exists(p) && |header| == HEADER
    ensures var v := Index.NewVersion(fs, p, 0);
      && Reachable(s)
      && s == Init(key, fs, map[]).(mem := s.mem, bucket := map[Random(0) := Encrypted(key, header, fs.Content(p))],
                                    recorded := [fs.Content(p)], db := Tables(map[], [StoredRow(fs, p, 0)]))
      && s.mem == Memory(map[p := [v.(remoteExists := true)]], map[Random(0) := (p, v.modtime)], map[],
                         [], [], [], 1, true)
  {
    var s0 := AddedAndStored(key, fs, p, header);
    FlushedRow(Tables(map[], []), RowOf(p, Index.NewVersion(fs, p, 0)), Random(0));
    assert [] + [StoredRow(fs, p, 0)] == [StoredRow(fs, p, 0)];
    ReachableNext(s0, Flush);
    s := Next(s0, Flush);
  }

  /** And the daemon started again: the row is still to be read back. */
  lemma Restarted(key: Key, fs: FS, p: Path, header: seq<Octet>) returns (s: State)
    requires fs.Exists(p) && |header| == HEADER
    ensures Reachable(s) && s.mem == Started(1) && s.rest == s.db == Tables(map[], [StoredRow(fs, p, 0)])
    ensures s.sweep == Idle && s.cleaning == [] && s.runStart == 1 && s.fs == fs && s.bucket.Keys == {Random(0)}
  {
    var s0 := AddedAndFlushed(key, fs, p, header);
    ReachableNext(s0, Restart);
    s := Next(s0, Restart);
  }

  // ---------------------------------------------------------------- while rows are being read back

  /** A clean-up that is served between a start and the row of a version finds its object unknown.  The
      version is tracked afterwards, marked as stored, and its name is queued for deletion; the next sweep
      deletes the object. */
  lemma CleanUpDuringStartLosesObject(key: Key, fs: FS, p: Path, header: seq<Octet>) returns (s: State, t: State)
    requires fs.Exists(p) && |header| == HEADER
    ensures Reachable(s) && Random(0) in s.mem.names && Random(0) in s.mem.deletes && !DeletesSafe(s)
    ensures Reachable(t) && p in t.mem.files && |t.mem.files[p]| == 1 && t.mem.files[p][0].remoteExists
    ensures t.mem.files[p][0].pathHash == Random(0) && Random(0) !in t.bucket && !TrackedStored(t, true)
  {
    var row := StoredRow(fs, p, 0);
    var s0 := Restarted(key, fs, p, header);
    var s1 := CleansOne(s0, Random(0));
    assert [row] + [] == [row];
    s := ReadsOne(s1, row, []);
    assert s.mem.deletes == [] + [Random(0)] == [Random(0)];
    assert WillResolve(s, s.mem.deletes[0]);
    t := DeletesOne(s, Random(0));
    assert !Stored(t.mem.files[p], t.bucket, t.runStart, true);
  }

  /** The index is backed up. */
  lemma BacksUp(s: State, header: seq<Octet>) returns (r: State)
    requires Reachable(s) && !Restoring(s) && s.mem.named && s.sweep == Idle && s.mem.uploads == []
    requires s.fs.Exists(BACKUP_FILE) && |header| == HEADER
    ensures Reachable(r)
    ensures r == s.(bucket := s.bucket[IndexBackup := Encrypted(s.key, header, s.fs.Content(BACKUP_FILE))])
  {
    var s1 := Next(s, BackUpIndex);
    var s2 := Next(s1, BeginUploads);
    var s3 := Next(s2, UploadNext(true, header));
    ReachableNext(s, BackUpIndex);
    ReachableNext(s1, BeginUploads);
    ReachableNext(s2, UploadNext(true, header));
    assert s1.mem.uploads[0].objectName == IndexBackup && s3.mem.uploads == [];
    ReachableNext(s3, EndSweep);
    r := Next(s3, EndSweep);
  }

  /** The same of the backup of the index, of which the name comes last. */
  lemma CleanUpDuringStartQueuesBackup(key: Key, fs: FS, p: Path, header: seq<Octet>) returns (s: State, t: State)
    requires fs.Exists(p) && fs.Exists(BACKUP_FILE) && |header| == HEADER
    ensures Reachable(s) && !Restoring(s) && Resolves(s.mem, IndexBackup) && IndexBackup in s.mem.deletes
    ensures !DeletesSafe(s)
    ensures Reachable(t) && t.mem == s.mem.(deletes := []) && IndexBackup in s.bucket && IndexBackup !in t.bucket
  {
    var s0 := AddedAndFlushed(key, fs, p, header);
    var s1 := BacksUp(s0, header);
    var s2 := Next(s1, Restart);
    ReachableNext(s1, Restart);
    var s3 := CleansOne(s2, IndexBackup);
    assert [StoredRow(fs, p, 0)] + [] == [StoredRow(fs, p, 0)];
    var s4 := ReadsOne(s3, StoredRow(fs, p, 0), []);
    s := ReadsName(s4);
    assert s.mem.deletes == [] + [IndexBackup] == [IndexBackup];
    assert s.mem.deletes[0] == IndexBackup;
    t := DeletesOne(s, IndexBackup);
  }

  /** A file is added between a start and its own row, and then everything is read back. */
  lemma AddedDuringStart(key: Key, fs: FS, p: Path, header: seq<Octet>) returns (s: State)
    requires fs.Exists(p) && |header| == HEADER
    ensures var row, v := StoredRow(fs, p, 0), Index.NewVersion(fs, p, 1);
      && Reachable(s) && !Restoring(s) && s.mem.named && s.fs == fs
      && s.mem.files == map[p := [v, Restored(row, false)]] && Committed(s).rows == [row] + [RowOf(p, v)]
  {
    var row, v := StoredRow(fs, p, 0), Index.NewVersion(fs, p, 1);
    var s0 := Restarted(key, fs, p, header);
    var s1 := AddedBefore(s0, p);
    assert [row] + [] == [row] && [v] + [Restored(row, false)] == [v, Restored(row, false)];
    var s2 := ReadsOne(s1, row, []);
    s := ReadsName(s2);
    ApplyOne(s0.db, InsertFile(RowOf(p, v)));
  }

  /** Its new version is first in memory and last in the tables. */
  lemma AddDuringStartSetsOrderApart(key: Key, fs: FS, p: Path, header: seq<Octet>) returns (s: State)
    requires fs.Exists(p) && |header| == HEADER
    ensures Reachable(s) && !Restoring(s) && !Refines(s.mem, Committed(s), s.runStart)
  {
    s := AddedDuringStart(key, fs, p, header);
    OrdersApart(s.mem, p, StoredRow(fs, p, 0), Index.NewVersion(fs, p, 1), Committed(s), s.runStart);
  }

  /** And although the file did not change, it has two versions, with the same modtime. */
  lemma AddDuringStartRepeatsModtime(key: Key, fs: FS, p: Path, header: seq<Octet>) returns (s: State)
    requires fs.Exists(p) && FitsInt32(fs.Mtime(p)) && |header| == HEADER
    ensures Reachable(s) && !Restoring(s) && p in s.mem.files && |s.mem.files[p]| == 2
    ensures s.mem.files[p][0].modtime == s.mem.files[p][1].modtime == fs.Mtime(p) && !NeighboursDiffer(s)
  {
    s := AddedDuringStart(key, fs, p, header);
    TimesResumed(s.mem.files[p], []);
    var ts := Times(History(s.mem, s.rest.rows, p));
    assert ts == [fs.Mtime(p), fs.Mtime(p)] && ts[0] == ts[1];
    assert !Alternates(ts);
  }

  lemma AddedBefore(s: State, p: Path) returns (r: State)
    requires Reachable(s) && s.mem == Started(1) && s.fs.Exists(p)
    ensures var v := Index.NewVersion(s.fs, p, 1);
      && Reachable(r) && r == s.(mem := r.mem, recorded := r.recorded) && !r.mem.named
      && r.mem.files == map[p := [v]] && r.mem.sql == [InsertFile(RowOf(p, v))]
  {
    var v := Index.NewVersion(s.fs, p, 1);
    assert [] + [v] == [v] && [] + [InsertFile(RowOf(p, v))] == [InsertFile(RowOf(p, v))];
    ReachableNext(s, Watching(Step.NewVersion(p)));
    r := Next(s, Watching(Step.NewVersion(p)));
  }

  lemma OrdersApart(m: Memory, p: Path, row: Row, v: FileVersion, t: Tables, runStart: nat)
    requires p in m.files && |m.files[p]| == 2 && m.files[p][0] == v && row.path == p && row.pathHash != v.pathHash
    requires t.rows == [row] + [RowOf(p, v)]
    ensures !Refines(m, t, runStart)
  {
    RowsOfInsert([row], RowOf(p, v), p);
    RowsOfInsert([], row, p);
    assert [] + [row] == [row];
    assert RowsOf(t.rows, p)[0] == row;
    assert !Agree(VersionsOf(m, p)[0], RowsOf(t.rows, p)[0], 0, runStart);
  }

  // ---------------------------------------------------------------- what restarts lose

  /** Safety of what is read back needs restarts that lose no deletion that has taken effect in the bucket: a
      stored file is forgotten and its object deleted; a restart before the next flush brings the version back,
      marked as stored, with nothing in the bucket. */
  lemma LossyRestartLosesObject(key: Key, fs: FS, p: Path, header: seq<Octet>) returns (s: State)
    requires fs.Exists(p) && |header| == HEADER
    ensures Reachable(s) && p in s.mem.files && |s.mem.files[p]| == 1 && s.mem.files[p][0].remoteExists
    ensures !TrackedStored(s, true)
  {
    var s0 := AddedAndFlushed(key, fs, p, header);
    var s1 := Next(s0, Watching(Forget(p)));
    ReachableNext(s0, Watching(Forget(p)));
    assert PathHashes(s0.mem.files[p]) == [Random(0)] && s1.mem.deletes == [] + [Random(0)] == [Random(0)];
    var s2 := DeletesOne(s1, Random(0));
    s := RestartsWith(s2, StoredRow(fs, p, 0));
    assert s.mem.files[p][0] == Restored(StoredRow(fs, p, 0), true) && Random(0) !in s.bucket;
    assert !Stored(s.mem.files[p], s.bucket, s.runStart, true);
  }

  lemma RestartsWith(s: State, row: Row) returns (r: State)
    requires Reachable(s) && s.db == Tables(map[], [row])
    ensures Reachable(r) && r.bucket == s.bucket && r.mem.files == map[row.path := [Restored(row, true)]]
  {
    ReachableNext(s, Restart);
    assert [row] + [] == [row];
    r := ReadsOne(Next(s, Restart), row, []);
  }

  /** A second version is found, stored and flushed. */
  lemma TwoVersions(key: Key, fs: FS, later: FS, p: Path, header: seq<Octet>) returns (s: State)
    requires fs.Exists(p) && later.Exists(p) && fs.Mtime(p) != later.Mtime(p) && |header| == HEADER
    ensures Reachable(s) && s.db == Tables(map[], [StoredRow(fs, p, 0), StoredRow(later, p, 1)]) && s.key == key
    ensures Random(1) in s.bucket && s.bucket[Random(1)] == Encrypted(key, header, later.Content(p))
    ensures s.mem.minted == 2
  {
    var s0 := AddedAndFlushed(key, fs, p, header);
    var s1 := Next(s0, Edit(later));
    ReachableNext(s0, Edit(later));
    var s2 := Found(s1, p);
    var s3 := StoresOne(s2, s2.mem.uploads[0], header);
    var row := RowOf(p, Index.NewVersion(later, p, 1));
    assert s3.mem.sql == [InsertFile(row)] + [SetRemoteExists(Random(1))];
    assert [InsertFile(row)] + [SetRemoteExists(Random(1))] == [InsertFile(row), SetRemoteExists(Random(1))];
    FlushedRow(s0.db, row, Random(1));
    assert [StoredRow(fs, p, 0)] + [StoredRow(later, p, 1)] == [StoredRow(fs, p, 0), StoredRow(later, p, 1)];
    ReachableNext(s3, Flush);
    s := Next(s3, Flush);
  }

  lemma Found(s: State, p: Path) returns (r: State)
    requires Reachable(s) && !Restoring(s) && s.mem.named && s.fs.Exists(p) && p in s.mem.files && s.mem.files[p] != []
    requires Last(s.mem.files[p]).modtime != s.fs.Mtime(p) && s.mem.sql == [] && s.mem.uploads == []
    ensures Reachable(r) && r == s.(mem := r.mem, recorded := r.recorded)
    ensures r.mem.uploads == [UploadItem(p, Random(s.mem.minted), s.fs.Mtime(p))] && p in r.mem.files && r.mem.named
    ensures r.mem.sql == [InsertFile(RowOf(p, Index.NewVersion(s.fs, p, s.mem.minted)))]
    ensures r.mem.minted == s.mem.minted + 1
  {
    ReachableNext(s, Watching(Step.NewVersion(p)));
    r := Next(s, Watching(Step.NewVersion(p)));
  }

  lemma TwoRestored(minted: nat, a: Row, b: Row)
    requires a.path == b.path
    ensures var m := RestoreRow(RestoreRow(Started(minted), a), b);
      m.files == map[a.path := [Restored(a, true), Restored(b, false)]]
  {
    assert [Restored(a, true)] + [Restored(b, false)] == [Restored(a, true), Restored(b, false)];
  }

  /** And both versions have been read back after a restart. */
  lemma TwoReadBack(key: Key, fs: FS, later: FS, p: Path, header: seq<Octet>) returns (s: State)
    requires fs.Exists(p) && later.Exists(p) && fs.Mtime(p) != later.Mtime(p) && |header| == HEADER
    ensures Reachable(s) && !Restoring(s) && s.mem.named && s.key == key
    ensures s.mem.files == map[p := [Restored(StoredRow(fs, p, 0), true), Restored(StoredRow(later, p, 1), false)]]
    ensures Random(1) in s.bucket && s.bucket[Random(1)] == Encrypted(key, header, later.Content(p))
  {
    var s0 := TwoVersions(key, fs, later, p, header);
    var a, b := StoredRow(fs, p, 0), StoredRow(later, p, 1);
    ReachableNext(s0, Restart);
    assert [a] + [b] == [a, b] && [b] + [] == [b];
    var s1 := ReadsOne(Next(s0, Restart), a, [b]);
    var s2 := ReadsOne(s1, b, []);
    s := ReadsName(s2);
    TwoRestored(s.mem.minted, a, b);
  }

  /** A restart makes every version of a path but the first unrestorable: its object is in the bucket and
      decrypts, but the hash to compare with is gone. */
  lemma RestartLosesLaterVersions(key: Key, fs: FS, later: FS, p: Path, header: seq<Octet>, junk: seq<Octet>)
    returns (s: State)
    requires fs.Exists(p) && later.Exists(p) && fs.Mtime(p) != later.Mtime(p) && |header| == HEADER == |junk|
    ensures Reachable(s) && !Restoring(s) && p in s.mem.files && |s.mem.files[p]| == 2
    ensures s.mem.files[p][1].pathHash in s.bucket
    ensures Decrypted(s.key, s.bucket[s.mem.files[p][1].pathHash], junk) == Opened(true, later.Content(p))
    ensures DownloadFrom(s, s.mem.files[p][1].pathHash, junk) == Err(HashMismatch)
  {
    s := TwoReadBack(key, fs, later, p, header);
    ReachableInv(s);
    RoundTrip(key, header, later.Content(p), junk);
    DownloadExactlyWhen(s.mem, s.bucket, s.key, p, 1, header, later.Content(p), Transfer(true, junk));
  }

  /** A restart can make the modtimes of two versions equal that differ by 2^32 seconds. */
  lemma RestartConfusesModtimes(key: Key, fs: FS, later: FS, p: Path, header: seq<Octet>) returns (s: State)
    requires fs.Exists(p) && later.Exists(p) && later.Mtime(p) == fs.Mtime(p) + 0x1_0000_0000 && |header| == HEADER
    ensures Reachable(s) && !Restoring(s) && p in s.mem.files && |s.mem.files[p]| == 2
    ensures s.mem.files[p][0].modtime == s.mem.files[p][1].modtime
  {
    s := TwoReadBack(key, fs, later, p, header);
    assert (fs.Mtime(p) - later.Mtime(p)) % 0x1_0000_0000 == 0;
    SameInt32(fs.Mtime(p), later.Mtime(p));
  }

  // ---------------------------------------------------------------- what scans and sweeps lose

  /** Fidelity needs equal modtimes to mean equal content: a file that is edited again within the second in
      which it was added is stored as it is by then, marked as stored, and cannot be restored. */
  lemma SameSecondEditIsLost(key: Key, fs: FS, edited: FS, p: Path, header: seq<Octet>, junk: seq<Octet>)
    returns (s: State)
    requires fs.IsRegular(p) && edited.IsRegular(p) && fs.Mtime(p) == edited.Mtime(p)
    requires fs.Content(p) != edited.Content(p) && |header| == HEADER == |junk|
    ensures Reachable(s) && p in s.mem.files && |s.mem.files[p]| == 1 && s.mem.files[p][0].remoteExists
    ensures DownloadFrom(s, s.mem.files[p][0].pathHash, junk) == Err(HashMismatch)
  {
    var s0 := Added(key, fs, p);
    ReachableNext(s0, Edit(edited));
    s := StoresOne(Next(s0, Edit(edited)), s0.mem.uploads[0], header);
    ReachableInv(s);
    var v := Index.NewVersion(fs, p, 0);
    assert s.mem.files[p] == MarkRemote([v], Random(0)) == [v.(remoteExists := true)];
    DownloadExactlyWhen(s.mem, s.bucket, s.key, p, 0, header, edited.Content(p), Transfer(true, junk));
  }

  /** Two files were added. */
  lemma AddedTwo(key: Key, fs: FS, p: Path, q: Path) returns (s: State)
    requires fs.Exists(p) && fs.Exists(q) && p != q
    ensures var v, w := Index.NewVersion(fs, p, 0), Index.NewVersion(fs, q, 1);
      && Reachable(s) && !Restoring(s) && s.sweep == Idle && s.bucket == map[] && s.fs == fs && s.mem.minted == 2
      && s.mem.files == map[p := [v], q := [w]] && s.mem.uploads == [UploadItem(p, Random(0), v.modtime),
                                                                      UploadItem(q, Random(1), w.modtime)]
  {
    var s0 := Added(key, fs, p);
    ReachableNext(s0, Watching(Step.NewVersion(q)));
    s := Next(s0, Watching(Step.NewVersion(q)));
    assert [] + [Index.NewVersion(fs, q, 1)] == [Index.NewVersion(fs, q, 1)];
  }

  lemma FailsOne(s: State, header: seq<Octet>) returns (r: State)
    requires Reachable(s) && s.sweep == Idle && s.mem.uploads != [] && |header| == HEADER
    requires var item := s.mem.uploads[0]; s.fs.Exists(item.path) && s.fs.Mtime(item.path) == item.modtime
    ensures Reachable(r) && r == s.(sweep := Uploading(1))
  {
    var s1 := Next(s, BeginUploads);
    ReachableNext(s, BeginUploads);
    ReachableNext(s1, UploadNext(false, header));
    r := Next(s1, UploadNext(false, header));
  }

  /** A failed upload before a successful one is lost for good: the sweep drops it from the queue and keeps
      the one that succeeded.  The version stays tracked and live, and on no run from here, whatever is
      scanned, swept or restarted, anything is ever stored under its name. */
  lemma MispopLosesUpload(key: Key, fs: FS, p: Path, q: Path, header: seq<Octet>) returns (s: State)
    requires fs.Exists(p) && fs.Exists(q) && p != q && |header| == HEADER
    ensures Reachable(s) && s.sweep == Idle && s.mem.uploads == [UploadItem(q, Random(1), fs.Mtime(q))]
    ensures p in s.mem.files && s.mem.files[p] == [Index.NewVersion(fs, p, 0)]
    ensures forall run :: Random(0) !in Exec(s, run).bucket
  {
    var s0 := AddedTwo(key, fs, p, q);
    var s2 := FailsOne(s0, header);
    var s3 := Next(s2, UploadNext(true, header));
    ReachableNext(s2, UploadNext(true, header));
    assert s3.mem.uploads == s0.mem.uploads[1..] == [UploadItem(q, Random(1), fs.Mtime(q))];
    assert s3.mem.files[p] == s0.mem.files[p] && Random(0) !in s3.bucket && s3.mem.minted == 2;
    ReachableNext(s3, EndSweep);
    s := Next(s3, EndSweep);
    assert s == s3.(sweep := Idle);
    forall run ensures Random(0) !in Exec(s, run).bucket {
      LostForEver(s, run, 0);
    }
  }

  /** A file that has gone hides the change of another from the scan: in one order of iteration the scan ends
      at it, and so does every scan after it. */
  lemma GoneFileHidesChange(key: Key, fs: FS, later: FS, p: Path, q: Path) returns (s: State)
    requires fs.Exists(p) && fs.Exists(q) && p != q
    requires later.Exists(p) && later.Mtime(p) != fs.Mtime(p) && !later.Exists(q)
    ensures Reachable(s) && !Restoring(s) && s.fs == later && Live(s.mem, s.fs, p) && !SeesEveryChange(s.mem, s.fs)
    ensures var order := [q, p];
      && Covers(order, s.mem.files.Keys) && AllTracked(s.mem, order)
      && var m := ScanFiles(s.mem, s.fs, order);
         && p in m.files && !Current(m, s.fs, p)
         && AllTracked(m, order) && ScanFiles(m, s.fs, order) == m
  {
    var s0 := AddedTwo(key, fs, p, q);
    ReachableNext(s0, Edit(later));
    s := Next(s0, Edit(later));
    var order := [q, p];
    assert s.mem.files.Keys == {p, q} && order[0] == q && order[1] == p;
    var m := ScanFiles(s.mem, s.fs, order);
    assert m == MarkGone(s.mem, q);
    assert !Last(m.files[q]).localExists;
    assert forall x :: x in s.mem.files ==> Tracked(s.mem, x);
    assert !Live(s.mem, s.fs, q) && Live(s.mem, s.fs, p) && !Current(s.mem, s.fs, p);
    ScanSeesEveryChangeExactlyWhen(s.mem, s.fs);
  }

  /** The first start is over, and two empty directories are watched. */
  lemma WatchesTwo(key: Key, fs: FS, g: Path, d: Path) returns (s: State)
    requires fs.IsDirectory(g) && fs.IsDirectory(d) && fs.Entries(g) == [] == fs.Entries(d) && g != d
    ensures Reachable(s) && !Restoring(s) && s.fs == fs && s.mem.files == map[]
    ensures s.mem.dirs == map[g := false, d := false]
  {
    var s0 := FirstStart(key, fs);
    var s1 := Next(s0, Watching(WatchDirectory(g, false)));
    ReachableNext(s0, Watching(WatchDirectory(g, false)));
    ReachableNext(s1, Watching(WatchDirectory(d, false)));
    s := Next(s1, Watching(WatchDirectory(d, false)));
  }

  lemma EntryHidden(m: Memory, fs: FS, g: Path, d: Path, e: Path)
    requires m.files == map[] && m.dirs == map[g := false, d := false] && g != d
    requires fs.IsDirectory(d) && e in fs.Entries(d) && fs.IsRegular(e) && !IsSwap(e) && !fs.Exists(g)
    ensures !SeesEveryEntry(m, fs)
  {
    var i :| 0 <= i < |fs.Entries(d)| && fs.Entries(d)[i] == e;
    assert !EntryWatched(m, fs, fs.Entries(d)[i], false);
    assert !EntriesWatched(m, fs, fs.Entries(d), m.dirs[d]);
    ScanSeesEveryEntryExactlyWhen(m, fs);
  }

  /** A directory that has gone hides a new file in another from the scan that finds it gone. */
  lemma GoneDirectoryHidesFile(key: Key, fs: FS, later: FS, g: Path, d: Path, e: Path) returns (s: State)
    requires fs.IsDirectory(g) && fs.IsDirectory(d) && fs.Entries(g) == [] == fs.Entries(d) && g != d
    requires later.IsDirectory(d) && e in later.Entries(d) && later.IsRegular(e) && !IsSwap(e) && !later.Exists(g)
    ensures Reachable(s) && !Restoring(s) && s.fs == later && d in s.mem.dirs && !SeesEveryEntry(s.mem, s.fs)
    ensures var order := [g, d];
      Covers(order, s.mem.dirs.Keys) && AllWatched(s.mem, order) && e !in ScanDirs(s.mem, s.fs, order).files
  {
    var s0 := WatchesTwo(key, fs, g, d);
    ReachableNext(s0, Edit(later));
    s := Next(s0, Edit(later));
    var order := [g, d];
    assert s.mem.dirs.Keys == {g, d} && order[0] == g && order[1] == d;
    assert ScanDirs(s.mem, s.fs, order) == UnwatchDir(s.mem, g);
    EntryHidden(s.mem, later, g, d, e);
  }
}
