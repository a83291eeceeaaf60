/** One cycle of the daemon: what a scan finds, an upload sweep stores, and a restore gives back. */
module Cycle {
  import opened Common
  import opened FileSystem
  import opened WorkQueue
  import opened Index
  import opened Steps
  import opened Machine
  import opened IndexInvariant
  import opened Refinement
  import opened SecretStream
  import opened Sweeps
  import opened Safety
  import Fidelity
  import Remotes

  /** The version is the file as it is on disk, and is queued for upload. */
  ghost predicate Found(m: Memory, fs: FS, p: Path, v: FileVersion) {
    && fs.Exists(p) && v.modtime == fs.Mtime(p) && v.fileHash == Digest(fs.Content(p))
    && UploadItem(p, v.pathHash, v.modtime) in m.uploads
  }

  /** This is so of every version that was recorded since. */
  ghost predicate FoundSince(m: Memory, fs: FS, from: nat) {
    forall p, i :: p in m.files && 0 <= i < |m.files[p]| && Recorded(m.files[p][i], from) ==>
      Found(m, fs, p, m.files[p][i])
  }

  lemma FoundPlay(m: Memory, fs: FS, step: Step, from: nat)
    requires Legal(m, fs, step) && FoundSince(m, fs, from)
    ensures FoundSince(Play(m, fs, step), fs, from)
  {
    var r := Play(m, fs, step);
    assert forall item :: item in m.uploads ==> item in r.uploads;
    forall p, i | p in r.files && 0 <= i < |r.files[p]| && Recorded(r.files[p][i], from)
      ensures Found(r, fs, p, r.files[p][i])
    {
      if p in m.files && i < |m.files[p]| {
        assert r.files[p][i] == m.files[p][i] || r.files[p][i] == m.files[p][i].(localExists := false);
        assert Found(m, fs, p, m.files[p][i]);
      } else {
        assert step == NewVersion(p) && r.files[p][i] == Index.NewVersion(fs, p, m.minted);
        assert r.uploads[|m.uploads|] == UploadItem(p, Random(m.minted), fs.Mtime(p));
      }
    }
  }

  lemma {:induction false} FoundAll(m: Memory, fs: FS, steps: seq<Step>, from: nat)
    requires LegalAll(m, fs, steps, false) && Indexed(m) && FoundSince(m, fs, from)
    ensures Indexed(PlayAll(m, fs, steps)) && FoundSince(PlayAll(m, fs, steps), fs, from)
    decreases |steps|
  {
    if steps != [] {
      IndexedPlay(m, fs, steps[0]);
      FoundPlay(m, fs, steps[0], from);
      FoundAll(Play(m, fs, steps[0]), fs, steps[1..], from);
    }
  }

  lemma FoundReached(m: Memory, fs: FS, a: Memory)
    requires Indexed(m) && Reaches(m, fs, a, false)
    ensures Indexed(a) && FoundSince(a, fs, m.minted)
  {
    var steps :| LegalAll(m, fs, steps, false) && Yields(m, fs, steps, a);
    forall p, i | p in m.files && 0 <= i < |m.files[p]| ensures !Recorded(m.files[p][i], m.minted) {
      assert HistoryOk(m, p, m.files[p]);
    }
    FoundAll(m, fs, steps, m.minted);
  }

  lemma {:induction false} SweepIndexed(
      m: Memory, bucket: Bucket, fs: FS, key: Key, skip: nat, outcomes: seq<Outcome>)
    requires Indexed(m) && skip + |outcomes| == |m.uploads|
    ensures Indexed(UploadSweep(m, bucket, fs, key, skip, outcomes).0)
    decreases |outcomes|
  {
    if outcomes != [] {
      var o, item := outcomes[0], m.uploads[skip];
      var (m', bucket', skip') := UploadStep(m, bucket, fs, key, skip, o.stored, o.header);
      StepIndexed(m, bucket, fs, key, skip, o);
      SweepIndexed(m', bucket', fs, key, skip', outcomes[1..]);
    }
  }

  lemma StepIndexed(m: Memory, bucket: Bucket, fs: FS, key: Key, skip: nat, o: Outcome)
    requires Indexed(m) && skip < |m.uploads|
    ensures Indexed(UploadStep(m, bucket, fs, key, skip, o.stored, o.header).0)
  {
    var item, r := m.uploads[skip], UploadStep(m, bucket, fs, key, skip, o.stored, o.header).0;
    if Fresh(fs, item) && o.stored && (IsBackup(m, item.objectName) || item.path in m.files) {
      IndexedUploadSuccess(m, item.path, item.objectName);
      IndexedElsewhere(UploadSuccess(m, item.path, item.objectName), r);
    } else {
      IndexedElsewhere(m, r);
    }
  }

  ghost predicate AllStored(outcomes: seq<Outcome>) {
    forall i :: 0 <= i < |outcomes| ==> outcomes[i].stored && |outcomes[i].header| == HEADER
  }

  /** A version that was found is stored and marked by a sweep in which every transfer succeeds. */
  lemma FoundIsStored(
      m: Memory, bucket: Bucket, fs: FS, key: Key, outcomes: seq<Outcome>, p: Path, i: nat)
    returns (header: seq<Octet>)
    requires Indexed(m) && |outcomes| == |m.uploads| && AllStored(outcomes)
    requires p in m.files && i < |m.files[p]| && Found(m, fs, p, m.files[p][i]) && m.files[p][i].pathHash !in bucket
    ensures var (r, b) := UploadSweep(m, bucket, fs, key, 0, outcomes);
      var v := m.files[p][i];
      && p in r.files && |r.files[p]| == |m.files[p]| && r.files[p][i] == v.(remoteExists := true)
      && v.pathHash in b && b[v.pathHash] == Encrypted(key, header, fs.Content(p)) && |header| == HEADER
  {
    var v := m.files[p][i];
    assert HistoryOk(m, p, m.files[p]);
    assert m.uploads[0..] == m.uploads;
    var k :| 0 <= k < |m.uploads| && m.uploads[k] == UploadItem(p, v.pathHash, v.modtime);
    assert Fresh(fs, m.uploads[k]) && Marks(m.named, fs, m.uploads[k], outcomes[k], p, v.pathHash);
    UploadSweepMarks(m, bucket, fs, key, 0, outcomes, p, i);
    UploadSweepEffect(m, bucket, fs, key, 0, outcomes);
    UploadSweepContents(m, bucket, fs, key, 0, outcomes, v.pathHash);
    var b := UploadSweep(m, bucket, fs, key, 0, outcomes).1;
    assert Stores(fs, m.uploads, outcomes, v.pathHash);
    var j :| 0 <= j < |m.uploads| && m.uploads[j].objectName == v.pathHash && Fresh(fs, m.uploads[j]) &&
      b[v.pathHash] == Encrypted(key, outcomes[j].header, fs.Content(m.uploads[j].path));
    assert ItemOk(m, m.uploads[j]);
    header := outcomes[j].header;
  }

  /** The daemon's purpose in one cycle.  From any index, after any operation on it -- a scan, an addition --
      and an upload sweep on the unchanged file system in which every transfer succeeds: every version that
      the operation minted is marked as stored, and downloading it gives what its file holds. */
  lemma FoundThenStoredThenRestored(
      m: Memory, a: Memory, bucket: Bucket, fs: FS, key: Key, outcomes: seq<Outcome>, p: Path, i: nat, t: Transfer)
    requires Indexed(m) && Reaches(m, fs, a, false)
    requires forall n :: n in bucket ==> Used(n, m.minted)
    requires |outcomes| == |a.uploads| && AllStored(outcomes) && t.completed && |t.junk| == HEADER
    requires p in a.files && i < |a.files[p]| && Recorded(a.files[p][i], m.minted)
    ensures var (r, b) := UploadSweep(a, bucket, fs, key, 0, outcomes);
      var v := a.files[p][i];
      && p in r.files && |r.files[p]| == |a.files[p]| && r.files[p][i] == v.(remoteExists := true)
      && Download(r, b, key, v.pathHash, t) == Ok(fs.Content(p))
  {
    FoundReached(m, fs, a);
    assert Found(a, fs, p, a.files[p][i]);
    var header := FoundIsStored(a, bucket, fs, key, outcomes, p, i);
    var (r, b) := UploadSweep(a, bucket, fs, key, 0, outcomes);
    SweepIndexed(a, bucket, fs, key, 0, outcomes);
    Fidelity.DownloadExactlyWhen(r, b, key, p, i, header, fs.Content(p), t);
  }

  /** In particular after a scan, in whatever order the tables are iterated. */
  lemma ScanThenUploadThenRestore(
      m: Memory, bucket: Bucket, fs: FS, key: Key, fileOrder: seq<Path>, dirOrder: seq<Path>, outcomes: seq<Outcome>,
      p: Path, i: nat, t: Transfer)
    requires Indexed(m) && AllTracked(m, fileOrder) && AllWatched(m, dirOrder)
    requires forall n :: n in bucket ==> Used(n, m.minted)
    requires var a := Scan(m, fs, fileOrder, dirOrder);
      && |outcomes| == |a.uploads| && p in a.files && i < |a.files[p]| && Recorded(a.files[p][i], m.minted)
    requires AllStored(outcomes) && t.completed && |t.junk| == HEADER
    ensures var a := Scan(m, fs, fileOrder, dirOrder);
      var (r, b) := UploadSweep(a, bucket, fs, key, 0, outcomes);
      && p in r.files && |r.files[p]| == |a.files[p]| && r.files[p][i] == a.files[p][i].(remoteExists := true)
      && Download(r, b, key, a.files[p][i].pathHash, t) == Ok(fs.Content(p))
  {
    var a := Scan(m, fs, fileOrder, dirOrder);
    ScanReaches(m, fs, fileOrder, dirOrder);
    FoundThenStoredThenRestored(m, a, bucket, fs, key, outcomes, p, i, t);
  }

  /** Restoring everything, end to end.  After any run of the kind that backup fidelity across restarts is
      about, whatever is downloaded first: every tracked file of which the latest version is marked as stored,
      and was recorded since the last restart or is the only one, lies below the target directory, with the
      bytes that were indexed and the modtime they had. */
  lemma RestoredAsIndexed(
      key: Key, fs: FS, bucket: Bucket, run: seq<Action>, h: Fidelity.Contents, first: seq<DownloadItem>,
      order: seq<Path>, targetPath: Path, transfers: seq<Transfer>, disk: Remotes.Disk, now: int, i: nat)
    requires NothingRandom(bucket) && Fidelity.Stable(fs, h) && Fidelity.StableRun(run, h)
    requires CarefulAll(Init(key, fs, bucket), run, true)
    requires var m := Exec(Init(key, fs, bucket), run).mem; AllTracked(m, order) && Distinct(order)
    requires i < |order| && |transfers| == |first| + |order| && transfers[|first| + i].completed
    requires forall k :: 0 <= k < |transfers| ==> |transfers[k].junk| == HEADER
    ensures var s := Exec(Init(key, fs, bucket), run);
      var items := first + Remotes.QueuedAll(s.mem, order, targetPath);
      var results := Remotes.DownloadSweep(s.mem, s.bucket, s.key, items, transfers);
      var r := Remotes.DiskAfterAll(disk, items, results, now);
      var vs := s.mem.files[order[i]];
      var target := Remotes.Target(DownloadItem(order[i], Last(vs).pathHash, Last(vs).modtime, targetPath));
      Last(vs).remoteExists && (|vs| == 1 || Recorded(Last(vs), s.runStart)) ==>
        && Remotes.Below(target, targetPath, order[i])
        && target in r && Last(vs).pathHash.Random? && Last(vs).pathHash.id < |s.recorded|
        && r[target] == Regular(Last(vs).modtime, s.recorded[Last(vs).pathHash.id])
  {
    var s := Exec(Init(key, fs, bucket), run);
    var items := first + Remotes.QueuedAll(s.mem, order, targetPath);
    var results := Remotes.DownloadSweep(s.mem, s.bucket, s.key, items, transfers);
    var vs := s.mem.files[order[i]];
    if Last(vs).remoteExists && (|vs| == 1 || Recorded(Last(vs), s.runStart)) {
      Fidelity.RestoreAllIsFaithful(key, fs, bucket, run, h, order[i], transfers[|first| + i]);
      assert items[|first| + i].objectName == Last(vs).pathHash;
      Remotes.RestoredFilesLand(s.mem, first, order, targetPath, disk, results, now, i);
    }
  }
}
