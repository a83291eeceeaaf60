/** What is in the bucket under a tracked name is what was indexed under it, and a restore gives it back. */
module Fidelity {
  import opened Common
  import opened FileSystem
  import opened Database
  import opened WorkQueue
  import opened Index
  import opened Steps
  import opened Machine
  import opened IndexInvariant
  import opened Refinement
  import opened Safety
  import opened SecretStream

  /** A file's content is determined by its path and its whole-second modtime. */
  type Contents = (Path, int) -> seq<byte>

  ghost predicate Stable(fs: FS, h: Contents) {
    forall p :: p in fs.nodes ==> fs.Content(p) == h(p, fs.Mtime(p))
  }

  ghost predicate StableRun(run: seq<Action>, h: Contents) {
    forall i :: 0 <= i < |run| && run[i].Edit? ==> Stable(run[i].fs, h)
  }

  /** The hash of a version is that of what was indexed under its name, unless a restart lost it. */
  ghost predicate HashOk(v: FileVersion, i: nat, recorded: seq<seq<byte>>, runStart: nat) {
    && Drawn(v.pathHash, |recorded|)
    && v.fileHash == (if Exact(v, i, runStart) then Digest(recorded[v.pathHash.id]) else NoDigest)
  }

  ghost predicate HashesOk(vs: seq<FileVersion>, recorded: seq<seq<byte>>, runStart: nat) {
    forall i :: 0 <= i < |vs| ==> HashOk(vs[i], i, recorded, runStart)
  }

  ghost predicate RowHashOk(r: Row, recorded: seq<seq<byte>>) {
    Drawn(r.pathHash, |recorded|) && r.fileHash == Digest(recorded[r.pathHash.id])
  }

  ghost predicate RowHashesOk(rows: seq<Row>, recorded: seq<seq<byte>>) {
    forall i :: 0 <= i < |rows| ==> RowHashOk(rows[i], recorded)
  }

  ghost predicate IsEncryptionOf(c: seq<Octet>, key: Key, x: seq<byte>) {
    exists header :: |header| == HEADER && c == Encrypted(key, header, x)
  }

  ghost predicate BucketOk(s: State) {
    forall n :: n in s.bucket && n.Random? ==>
      n.id < |s.recorded| && IsEncryptionOf(s.bucket[n], s.key, s.recorded[n.id])
  }

  ghost predicate ItemsOk(uploads: seq<UploadItem>, recorded: seq<seq<byte>>, h: Contents) {
    forall k :: 0 <= k < |uploads| && uploads[k].objectName.Random? ==>
      && uploads[k].objectName.id < |recorded|
      && h(uploads[k].path, uploads[k].modtime) == recorded[uploads[k].objectName.id]
  }

  ghost predicate FilesFaithful(m: Memory, recorded: seq<seq<byte>>, runStart: nat) {
    forall p :: p in m.files ==> HashesOk(m.files[p], recorded, runStart)
  }

  ghost predicate RowsFaithful(s: State) {
    && RowHashesOk(s.db.rows, s.recorded)
    && RowHashesOk(Committed(s).rows, s.recorded)
    && RowHashesOk(s.rest.rows, s.recorded)
  }

  ghost predicate Faithful(s: State, h: Contents) {
    && Stable(s.fs, h)
    && FilesFaithful(s.mem, s.recorded, s.runStart)
    && RowsFaithful(s)
    && BucketOk(s)
    && ItemsOk(s.mem.uploads, s.recorded, h)
  }

  lemma FaithfulWatching(s: State, step: Step, h: Contents)
    requires Inv(s) && Faithful(s, h) && CanPlay(s, step)
    ensures Faithful(Next(s, Watching(step)), h)
  {
    var r := Next(s, Watching(step));
    assert s.recorded <= r.recorded;
    forall p | p in r.mem.files ensures HashesOk(r.mem.files[p], r.recorded, r.runStart) {
      VersionsOfPlay(s.mem, s.fs, step, p);
      assert p in s.mem.files ==> HashesOk(s.mem.files[p], s.recorded, s.runStart);
      HashesAfter(s.mem, s.fs, step, s.recorded, s.runStart, p);
    }
    RowsFaithfulWatching(s, step);
    ItemsAfter(s.mem, s.fs, step, s.recorded, h);
  }

  lemma RowsFaithfulWatching(s: State, step: Step)
    requires Inv(s) && RowsFaithful(s) && CanPlay(s, step)
    ensures RowsFaithful(Next(s, Watching(step)))
  {
    var r := Next(s, Watching(step));
    CommittedPlay(s, step);
    RowHashesAfter(s.mem, s.fs, step, s.recorded, Committed(s));
    forall i | 0 <= i < |r.db.rows| ensures RowHashOk(r.db.rows[i], r.recorded) {
      assert RowHashOk(s.db.rows[i], s.recorded);
    }
    forall i | 0 <= i < |r.rest.rows| ensures RowHashOk(r.rest.rows[i], r.recorded) {
      assert RowHashOk(s.rest.rows[i], s.recorded);
    }
  }

  lemma HashesAfter(m: Memory, fs: FS, step: Step, recorded: seq<seq<byte>>, runStart: nat, p: Path)
    requires Legal(m, fs, step) && runStart <= m.minted == |recorded|
    requires HashesOk(VersionsOf(m, p), recorded, runStart)
    ensures HashesOk(VersionsAfter(m, fs, step, p), RecordedAfter(recorded, fs, step), runStart)
  {}

  lemma RowHashesAfter(m: Memory, fs: FS, step: Step, recorded: seq<seq<byte>>, t: Tables)
    requires Legal(m, fs, step) && m.minted == |recorded|
    requires RowHashesOk(t.rows, recorded)
    ensures RowHashesOk(Apply(t, StatementOf(m, fs, step)).rows, RecordedAfter(recorded, fs, step))
  {
    var rows := Apply(t, StatementOf(m, fs, step)).rows;
    forall i | 0 <= i < |rows| ensures RowHashOk(rows[i], RecordedAfter(recorded, fs, step)) {
      if step.Forget? {
        WithoutPathMembers(t.rows, step.path, i);
        var j :| 0 <= j < |t.rows| && t.rows[j] == rows[i];
        assert RowHashOk(t.rows[j], recorded);
      } else if i < |t.rows| {
        assert RowHashOk(t.rows[i], recorded);
      }
    }
  }

  lemma ItemsAfter(m: Memory, fs: FS, step: Step, recorded: seq<seq<byte>>, h: Contents)
    requires Legal(m, fs, step) && m.minted == |recorded| && Stable(fs, h)
    requires ItemsOk(m.uploads, recorded, h)
    ensures ItemsOk(Play(m, fs, step).uploads, RecordedAfter(recorded, fs, step), h)
  {}

  /** The content that is encrypted is the content that was indexed: the modtime is checked first. */
  lemma StoresIndexedContent(s: State, stored: bool, header: seq<Octet>, h: Contents)
    requires Inv(s) && Faithful(s, h) && CanUploadNext(s, header)
    ensures BucketOk(Next(s, UploadNext(stored, header)))
  {
    var r := Next(s, UploadNext(stored, header));
    var item := s.mem.uploads[s.sweep.skip];
    UploadNextCases(s, stored, header);
    forall n | n in r.bucket && n.Random?
      ensures n.id < |r.recorded| && IsEncryptionOf(r.bucket[n], r.key, r.recorded[n.id])
    {
      if r.bucket != s.bucket && n == item.objectName {
        assert s.fs.Content(item.path) == h(item.path, item.modtime) == s.recorded[n.id];
      }
    }
  }

  lemma FaithfulTold(s: State, r: State, item: UploadItem, h: Contents)
    requires Faithful(s, h) && BucketOk(r) && Told(s, r, item)
    requires r == s.(mem := r.mem, bucket := r.bucket, sweep := r.sweep)
    ensures Faithful(r, h)
  {
    var n := item.objectName;
    CommittedAppend(s, SetRemoteExists(n), r.mem);
    forall p | p in r.mem.files ensures HashesOk(r.mem.files[p], r.recorded, r.runStart) {
      assert HashesOk(s.mem.files[p], s.recorded, s.runStart);
      if p == item.path {
        HashesMarked(s.mem.files[p], n, s.recorded, s.runStart);
      }
    }
    RowHashesMarked(Committed(s).rows, n, s.recorded);
  }

  lemma HashesMarked(vs: seq<FileVersion>, n: Name, recorded: seq<seq<byte>>, runStart: nat)
    requires HashesOk(vs, recorded, runStart)
    ensures HashesOk(MarkRemote(vs, n), recorded, runStart)
  {}

  lemma RowHashesMarked(rows: seq<Row>, n: Name, recorded: seq<seq<byte>>)
    requires RowHashesOk(rows, recorded)
    ensures RowHashesOk(SetRemote(rows, n), recorded)
  {
    forall i | 0 <= i < |rows| ensures RowHashOk(SetRemote(rows, n)[i], recorded) {
      assert RowHashOk(rows[i], recorded);
    }
  }

  lemma FaithfulUploadNext(s: State, stored: bool, header: seq<Octet>, h: Contents)
    requires Inv(s) && Faithful(s, h) && CanUploadNext(s, header)
    ensures Faithful(Next(s, UploadNext(stored, header)), h)
  {
    var r := Next(s, UploadNext(stored, header));
    var item := s.mem.uploads[s.sweep.skip];
    UploadNextCases(s, stored, header);
    StoresIndexedContent(s, stored, header, h);
    if Told(s, r, item) {
      FaithfulTold(s, r, item, h);
    } else {
      FaithfulElsewhere(s, r, h);
    }
  }

  lemma FaithfulElsewhere(s: State, r: State, h: Contents)
    requires Faithful(s, h) && BucketOk(r) && Stable(r.fs, h)
    requires r.mem.files == s.mem.files && r.runStart == s.runStart && r.recorded == s.recorded
    requires Committed(r) == Committed(s) && (r.db == s.db || r.db == Committed(s)) && r.rest.rows == s.rest.rows
    requires ItemsOk(r.mem.uploads, r.recorded, h)
    ensures Faithful(r, h)
  {}

  lemma FaithfulRestart(s: State, h: Contents)
    requires Faithful(s, h)
    ensures Faithful(Next(s, Restart), h)
  {
    assert Committed(Next(s, Restart)) == s.db;
    assert BucketOk(Next(s, Restart));
  }

  /** A row that is read back brings its hash exactly when it is the first of its path in memory. */
  lemma HashesRestored(vs: seq<FileVersion>, row: Row, recorded: seq<seq<byte>>, runStart: nat)
    requires HashesOk(vs, recorded, runStart) && RowHashOk(row, recorded) && Drawn(row.pathHash, runStart)
    ensures HashesOk(vs + [Restored(row, vs == [])], recorded, runStart)
  {
    var ws := vs + [Restored(row, vs == [])];
    forall i | 0 <= i < |ws| ensures HashOk(ws[i], i, recorded, runStart) {
      assert i < |vs| ==> HashOk(vs[i], i, recorded, runStart);
    }
  }

  lemma FaithfulRestoreFile(s: State, h: Contents)
    requires Inv(s) && Faithful(s, h) && s.rest.rows != []
    ensures Faithful(Next(s, RestoreFile), h)
  {
    var r, row := Next(s, RestoreFile), s.rest.rows[0];
    IndexedHistories(s.mem);
    assert Committed(r) == Committed(s);
    forall p | p in r.mem.files ensures HashesOk(r.mem.files[p], r.recorded, r.runStart) {
      assert p in s.mem.files ==> HashesOk(s.mem.files[p], s.recorded, s.runStart);
      if p == row.path {
        HashesRestored(VersionsOf(s.mem, p), row, s.recorded, s.runStart);
        assert r.mem.files[p] == VersionsOf(s.mem, p) + [Restored(row, VersionsOf(s.mem, p) == [])];
      }
    }
    forall i | 0 <= i < |r.rest.rows| ensures RowHashOk(r.rest.rows[i], r.recorded) {
      assert RowHashOk(s.rest.rows[i + 1], s.recorded);
    }
  }

  lemma FaithfulNext(s: State, a: Action, h: Contents)
    requires Inv(s) && Faithful(s, h)
    requires a.Edit? ==> Stable(a.fs, h)
    ensures Faithful(Next(s, a), h)
  {
    if a.Watching? {
      if CanPlay(s, a.step) {
        FaithfulWatching(s, a.step, h);
      }
    } else if a.UploadNext? {
      if CanUploadNext(s, a.header) {
        FaithfulUploadNext(s, a.stored, a.header, h);
      }
    } else if a.Restart? {
      FaithfulRestart(s, h);
    } else if a.RestoreFile? {
      if s.rest.rows != [] {
        FaithfulRestoreFile(s, h);
      }
    } else if a.RestoreDirectory? {
      FaithfulRestoreDirectory(s, a.dir, h);
    } else {
      FaithfulQuiet(s, a, h);
    }
  }

  lemma FaithfulRestoreDirectory(s: State, d: Path, h: Contents)
    requires Faithful(s, h)
    ensures Faithful(Next(s, RestoreDirectory(d)), h)
  {
    var r := Next(s, RestoreDirectory(d));
    RestoreNext(s, RestoreDirectory(d));
    assert r.mem.files == s.mem.files && r.rest.rows == s.rest.rows;
    FaithfulElsewhere(s, r, h);
  }

  lemma FaithfulQuiet(s: State, a: Action, h: Contents)
    requires Faithful(s, h) && Quiet(a)
    requires a.Edit? ==> Stable(a.fs, h)
    ensures Faithful(Next(s, a), h)
  {
    QuietNext(s, a);
    QuietKeepsItemsAndBucket(s, a, h);
    FaithfulElsewhere(s, Next(s, a), h);
  }

  lemma QuietKeepsItemsAndBucket(s: State, a: Action, h: Contents)
    requires BucketOk(s) && ItemsOk(s.mem.uploads, s.recorded, h)
    requires Quiet(a)
    ensures BucketOk(Next(s, a)) && ItemsOk(Next(s, a).mem.uploads, s.recorded, h)
  {
    QuietNext(s, a);
    if a.DeleteNext? {
    } else if a.BackUpIndex? {
    } else {
    }
  }

  lemma {:induction false} FaithfulExec(s: State, run: seq<Action>, h: Contents)
    requires Inv(s) && Faithful(s, h) && StableRun(run, h)
    ensures Faithful(Exec(s, run), h)
    decreases |run|
  {
    if run != [] {
      InvNext(s, run[0]);
      FaithfulNext(s, run[0], h);
      FaithfulExec(Next(s, run[0]), run[1..], h);
    }
  }

  // ---------------------------------------------------------------- restoring a version

  /** Downloading from a state, when the transfer completes. */
  function DownloadFrom(s: State, n: Name, junk: seq<Octet>): Result<seq<byte>, DownloadError>
    requires |junk| == HEADER
  {
    Download(s.mem, s.bucket, s.key, n, Transfer(true, junk))
  }

  /** A tracked version whose object encrypts `x` can be restored exactly when its hash is that of `x`. */
  lemma DownloadExactlyWhen(
      m: Memory, bucket: map<Name, seq<Octet>>, key: Key, p: Path, i: nat, header: seq<Octet>, x: seq<byte>,
      t: Transfer)
    requires Indexed(m) && |header| == HEADER == |t.junk| && t.completed
    requires p in m.files && i < |m.files[p]| && m.files[p][i].pathHash in bucket
    requires bucket[m.files[p][i].pathHash] == Encrypted(key, header, x)
    ensures var v := m.files[p][i];
      Download(m, bucket, key, v.pathHash, t) == if v.fileHash == Digest(x) then Ok(x) else Err(HashMismatch)
  {
    var v := m.files[p][i];
    assert HistoryOk(m, p, m.files[p]);
    RoundTrip(key, header, x, t.junk);
    assert v in m.files[p];
    forall w | w in m.files[p] && w.pathHash == v.pathHash ensures w == v {}
  }

  /** A tracked version whose object is in the bucket can be restored exactly when it is the first of its
      path or was recorded since the last restart, and then the restore yields the bytes that were
      indexed. */
  lemma DownloadTracked(s: State, h: Contents, p: Path, i: nat, junk: seq<Octet>)
    requires Inv(s) && Faithful(s, h) && |junk| == HEADER
    requires p in s.mem.files && i < |s.mem.files[p]| && s.mem.files[p][i].pathHash in s.bucket
    ensures var v := s.mem.files[p][i];
      && v.pathHash.Random? && v.pathHash.id < |s.recorded|
      && DownloadFrom(s, v.pathHash, junk)
         == if Exact(v, i, s.runStart) then Ok(s.recorded[v.pathHash.id]) else Err(HashMismatch)
  {
    var v := s.mem.files[p][i];
    HashHere(s, h, p, i);
    var x := s.recorded[v.pathHash.id];
    var header :| HEADER == |header| && s.bucket[v.pathHash] == Encrypted(s.key, header, x);
    DownloadExactlyWhen(s.mem, s.bucket, s.key, p, i, header, x, Transfer(true, junk));
  }

  lemma HashHere(s: State, h: Contents, p: Path, i: nat)
    requires Faithful(s, h) && p in s.mem.files && i < |s.mem.files[p]|
    ensures HashOk(s.mem.files[p][i], i, s.recorded, s.runStart)
  {}

  /** Without the assumption that equal modtimes mean equal content: a version that is uploaded now can be
      restored exactly when the file still holds what was indexed. */
  lemma UploadRestorableExactlyWhen(s: State, header: seq<Octet>, p: Path, i: nat, junk: seq<Octet>)
    requires Inv(s) && CanUploadNext(s, header) && |junk| == HEADER
    requires p in s.mem.files && i < |s.mem.files[p]|
    requires var item := s.mem.uploads[s.sweep.skip];
      && item.objectName == s.mem.files[p][i].pathHash
      && s.fs.Exists(item.path) && s.fs.Mtime(item.path) == item.modtime
    ensures var r := Next(s, UploadNext(true, header));
      var n := s.mem.files[p][i].pathHash;
      && p in r.mem.files && i < |r.mem.files[p]| && r.mem.files[p][i].remoteExists
      && (DownloadFrom(r, n, junk).Ok? <==> s.mem.files[p][i].fileHash == Digest(s.fs.Content(p)))
      && (DownloadFrom(r, n, junk).Ok? ==> DownloadFrom(r, n, junk) == Ok(s.fs.Content(p)))
  {
    var item := s.mem.uploads[s.sweep.skip];
    assert HistoryOk(s.mem, p, s.mem.files[p]);
    assert ItemOk(s.mem, item);
    InvUploadNext(s, true, header);
    UploadMarksVersion(s, header, p, i);
    var r := Next(s, UploadNext(true, header));
    DownloadExactlyWhen(r.mem, r.bucket, r.key, p, i, header, s.fs.Content(p), Transfer(true, junk));
  }

  lemma UploadMarksVersion(s: State, header: seq<Octet>, p: Path, i: nat)
    requires CanUploadNext(s, header) && p in s.mem.files && i < |s.mem.files[p]|
    requires var item := s.mem.uploads[s.sweep.skip];
      && item.objectName == s.mem.files[p][i].pathHash != IndexBackup && item.path == p
      && s.fs.Exists(p) && s.fs.Mtime(p) == item.modtime
    ensures var r := Next(s, UploadNext(true, header));
      && r.key == s.key && s.mem.files[p][i].pathHash in r.bucket
      && r.bucket[s.mem.files[p][i].pathHash] == Encrypted(s.key, header, s.fs.Content(p))
      && p in r.mem.files && |r.mem.files[p]| == |s.mem.files[p]|
      && r.mem.files[p][i] == s.mem.files[p][i].(remoteExists := true)
  {}

  /** Backup fidelity.  On every run in which equal path and modtime mean equal content, every tracked
      version recorded since the last restart that is marked as stored can be restored: the object under
      its name decrypts, passes the hash check, and is what was indexed. */
  lemma BackupFidelity(
      key: Key, fs: FS, bucket: map<Name, seq<Octet>>, run: seq<Action>, h: Contents, p: Path, i: nat, junk: seq<Octet>)
    requires NothingRandom(bucket) && Stable(fs, h) && StableRun(run, h) && |junk| == HEADER
    ensures var s := Exec(Init(key, fs, bucket), run);
      p in s.mem.files && i < |s.mem.files[p]| ==>
        var v := s.mem.files[p][i];
        v.remoteExists && Recorded(v, s.runStart) ==>
          && v.pathHash.id < |s.recorded|
          && v.fileHash == Digest(s.recorded[v.pathHash.id])
          && DownloadFrom(s, v.pathHash, junk) == Ok(s.recorded[v.pathHash.id])
  {
    var s := Exec(Init(key, fs, bucket), run);
    FaithfulRun(key, fs, bucket, run, h);
    RemoteSafety(key, fs, bucket, run);
    if p in s.mem.files && i < |s.mem.files[p]| && s.mem.files[p][i].remoteExists {
      assert Stored(s.mem.files[p], s.bucket, s.runStart, false);
      HashHere(s, h, p, i);
      if Recorded(s.mem.files[p][i], s.runStart) {
        DownloadTracked(s, h, p, i, junk);
      }
    }
  }

  /** What the run reached. */
  lemma FaithfulRun(key: Key, fs: FS, bucket: map<Name, seq<Octet>>, run: seq<Action>, h: Contents)
    requires NothingRandom(bucket) && Stable(fs, h) && StableRun(run, h)
    ensures Inv(Exec(Init(key, fs, bucket), run)) && Faithful(Exec(Init(key, fs, bucket), run), h)
  {
    InvInit(key, fs, bucket);
    assert Faithful(Init(key, fs, bucket), h);
    InvExec(Init(key, fs, bucket), run);
    FaithfulExec(Init(key, fs, bucket), run, h);
  }

  /** The same when no restart loses a deletion that has taken effect in the bucket and no clean-up looks at a
      name still to be read back: of the versions a restart brought back, those marked as stored can be
      restored, too -- they are the first of their paths. */
  lemma BackupFidelityAcrossRestarts(
      key: Key, fs: FS, bucket: map<Name, seq<Octet>>, run: seq<Action>, h: Contents, p: Path, i: nat, junk: seq<Octet>)
    requires NothingRandom(bucket) && Stable(fs, h) && StableRun(run, h) && |junk| == HEADER
    requires CarefulAll(Init(key, fs, bucket), run, true)
    ensures var s := Exec(Init(key, fs, bucket), run);
      p in s.mem.files && i < |s.mem.files[p]| ==>
        var v := s.mem.files[p][i];
        v.remoteExists && Exact(v, i, s.runStart) ==>
          && v.pathHash.Random? && v.pathHash.id < |s.recorded|
          && v.fileHash == Digest(s.recorded[v.pathHash.id])
          && DownloadFrom(s, v.pathHash, junk) == Ok(s.recorded[v.pathHash.id])
  {
    var s := Exec(Init(key, fs, bucket), run);
    FaithfulRun(key, fs, bucket, run, h);
    RemoteSafetyAcrossRestarts(key, fs, bucket, run);
    if p in s.mem.files && i < |s.mem.files[p]| && s.mem.files[p][i].remoteExists {
      assert Stored(s.mem.files[p], s.bucket, s.runStart, true);
      HashHere(s, h, p, i);
      DownloadTracked(s, h, p, i, junk);
    }
  }

  /** Restoring everything: on every such run, the latest version of every tracked file that was recorded since
      the last restart, or is its path's only one, comes back as it was indexed if it is marked as stored,
      whatever else is restored with it. */
  lemma RestoreAllIsFaithful(
      key: Key, fs: FS, bucket: map<Name, seq<Octet>>, run: seq<Action>, h: Contents, p: Path, t: Transfer)
    requires NothingRandom(bucket) && Stable(fs, h) && StableRun(run, h)
    requires |t.junk| == HEADER && t.completed
    requires CarefulAll(Init(key, fs, bucket), run, true)
    ensures var s := Exec(Init(key, fs, bucket), run);
      p in s.mem.files ==>
        var vs := s.mem.files[p];
        && vs != []
        && var v := Last(vs);
           v.remoteExists && (|vs| == 1 || Recorded(v, s.runStart)) ==>
             v.pathHash.Random? && v.pathHash.id < |s.recorded|
             && Download(s.mem, s.bucket, s.key, v.pathHash, t) == Ok(s.recorded[v.pathHash.id])
  {
    var s := Exec(Init(key, fs, bucket), run);
    FaithfulRun(key, fs, bucket, run, h);
    if p in s.mem.files {
      assert HistoryOk(s.mem, p, s.mem.files[p]);
      BackupFidelityAcrossRestarts(key, fs, bucket, run, h, p, |s.mem.files[p]| - 1, t.junk);
    }
  }
}
