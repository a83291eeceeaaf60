/** The remote: the sweeps over the work queues and the clean-up, updating queues, bucket and index in
    place, proved to do what the functions of module Sweeps say. */
module Remotes {
  import opened Common
  import opened FileSystem
  import opened WorkQueue
  import opened Index
  import opened Machine
  import opened SecretStream
  import opened Sweeps
  import Watch

  /** The result of one download, or what is wrong with it. */
  type Restored = Result<seq<byte>, DownloadError>

  function DownloadSweep(m: Memory, bucket: Bucket, key: Key, items: seq<DownloadItem>, transfers: seq<Transfer>)
    : (r: seq<Restored>)
    requires |items| == |transfers| && forall i :: 0 <= i < |transfers| ==> |transfers[i].junk| == HEADER
    ensures |r| == |items|
  {
    seq(|items|, i requires 0 <= i < |items| => Download(m, bucket, key, items[i].objectName, transfers[i]))
  }

  /** Where a download goes: the path of the file below the target directory. */
  function Target(item: DownloadItem): Path {
    var t := item.targetPath;
    (if t != "" && t[|t| - 1] == '/' then t else t + "/") + item.path
  }

  /** It lies below the target directory: the directory, a slash unless it ends with one, and then the path. */
  ghost predicate Below(target: Path, dir: Path, path: Path) {
    && dir <= target && |dir| <= |target| - |path| <= |dir| + 1
    && target[|target| - |path|..] == path
    && |target| > |path| && target[|target| - |path| - 1] == '/'
  }

  lemma TargetIsBelow(item: DownloadItem)
    ensures Below(Target(item), item.targetPath, item.path)
    ensures |Target(item)| == |item.targetPath| + |item.path| <==>
      item.targetPath != "" && item.targetPath[|item.targetPath| - 1] == '/'
  {}

  type Disk = map<Path, Node>

  /** What a download leaves on the local disk: a restored file has its original modtime back, a file of which
      the hash does not match is removed, and one that could not be decrypted or looked up stays. */
  function DiskAfter(disk: Disk, item: DownloadItem, r: Restored, now: int): Disk {
    match r
    case Ok(content) => disk[Target(item) := Regular(item.modtime, content)]
    case Err(TransferFailed) => disk
    case Err(DecryptionFailed(left)) => disk[Target(item) := Regular(now, left)]
    case Err(Untracked(left)) => disk[Target(item) := Regular(now, left)]
    case Err(HashMismatch) => disk - {Target(item)}
  }

  /** A download touches nothing but its own target. */
  lemma OnlyTargetChanges(disk: Disk, item: DownloadItem, r: Restored, now: int, p: Path)
    requires p != Target(item)
    ensures p in DiskAfter(disk, item, r, now) <==> p in disk
    ensures p in disk ==> DiskAfter(disk, item, r, now)[p] == disk[p]
  {}

  /** What is found at the target afterwards, in terms of what the bucket held: what was there before when
      nothing arrived; the content with its modtime when it verifies; nothing when its hash does not; and what was
      decrypted, with a new modtime, when decryption fails or the name is not in the index. */
  lemma TargetHolds(m: Memory, bucket: Bucket, key: Key, item: DownloadItem, t: Transfer, disk: Disk, now: int)
    requires |t.junk| == HEADER
    ensures var n, p := item.objectName, Target(item);
      var d := DiskAfter(disk, item, Download(m, bucket, key, n, t), now);
      if !t.completed || n !in bucket then d == disk
      else
        var plain := Decrypted(key, bucket[n], t.junk);
        if !plain.accepted || n !in m.names || m.names[n].0 !in m.files then
          p in d && d[p] == Regular(now, plain.written)
        else if exists v :: v in m.files[m.names[n].0] && v.pathHash == n && v.fileHash == Digest(plain.written) then
          p in d && d[p] == Regular(item.modtime, plain.written)
        else p !in d
  {}

  /** And a download succeeds exactly when all of that is well. */
  lemma DownloadSucceedsExactlyWhen(m: Memory, bucket: Bucket, key: Key, n: Name, t: Transfer)
    requires |t.junk| == HEADER
    ensures Download(m, bucket, key, n, t).Ok? <==>
      && t.completed && n in bucket
      && var plain := Decrypted(key, bucket[n], t.junk);
         && plain.accepted && n in m.names && m.names[n].0 in m.files
         && exists v :: v in m.files[m.names[n].0] && v.pathHash == n && v.fileHash == Digest(plain.written)
  {}

  function DiskAfterAll(disk: Disk, items: seq<DownloadItem>, results: seq<Restored>, now: int): Disk
    requires |items| == |results|
    decreases |items|
  {
    if items == [] then disk
    else DiskAfterAll(DiskAfter(disk, items[0], results[0], now), items[1..], results[1..], now)
  }

  lemma Rewritten(disk: Disk, p: Path, a: Node, b: Node)
    ensures disk[p := a] - {p} == disk - {p} && disk[p := a][p := b] == disk[p := b]
  {}

  /** The last item for a target decides what is there. */
  lemma {:induction false} DiskKeeps(disk: Disk, items: seq<DownloadItem>, results: seq<Restored>, now: int, i: nat)
    requires |items| == |results| && i < |items| && results[i].Ok?
    requires forall j :: i < j < |items| ==> Target(items[j]) != Target(items[i])
    ensures var r := DiskAfterAll(disk, items, results, now);
      Target(items[i]) in r && r[Target(items[i])] == Regular(items[i].modtime, results[i].value)
    decreases |items|
  {
    var d := DiskAfter(disk, items[0], results[0], now);
    if i > 0 {
      assert items[1..][i - 1] == items[i] && results[1..][i - 1] == results[i];
      DiskKeeps(d, items[1..], results[1..], now, i - 1);
    } else {
      DiskElsewhere(d, items[1..], results[1..], now, Target(items[0]));
    }
  }

  lemma {:induction false} DiskElsewhere(
      disk: Disk, items: seq<DownloadItem>, results: seq<Restored>, now: int, p: Path)
    requires |items| == |results| && p in disk && forall j :: 0 <= j < |items| ==> Target(items[j]) != p
    ensures var r := DiskAfterAll(disk, items, results, now);
      p in r && r[p] == disk[p]
    decreases |items|
  {
    if items != [] {
      DiskElsewhere(DiskAfter(disk, items[0], results[0], now), items[1..], results[1..], now, p);
    }
  }

  lemma TargetsDiffer(a: DownloadItem, b: DownloadItem)
    requires a.targetPath == b.targetPath && a.path != b.path
    ensures Target(a) != Target(b)
  {
    var t := a.targetPath;
    var dir := if t != "" && t[|t| - 1] == '/' then t else t + "/";
    assert (dir + a.path)[|dir|..] == a.path && (dir + b.path)[|dir|..] == b.path;
  }

  /** The latest version of every path, to be restored below one directory. */
  function QueuedAll(m: Memory, order: seq<Path>, targetPath: Path): (r: seq<DownloadItem>)
    requires AllTracked(m, order)
    ensures |r| == |order|
  {
    seq(|order|, i requires 0 <= i < |order| =>
      DownloadItem(order[i], Last(m.files[order[i]]).pathHash, Last(m.files[order[i]]).modtime, targetPath))
  }

  /** Restoring everything, whatever is downloaded first: every path of which the latest version can be
      restored ends up below the target directory, with that version's content and modtime. */
  lemma RestoredFilesLand(
      m: Memory, first: seq<DownloadItem>, order: seq<Path>, targetPath: Path, disk: Disk, results: seq<Restored>,
      now: int, i: nat)
    requires AllTracked(m, order) && Distinct(order) && i < |order|
    requires |results| == |first| + |order| && results[|first| + i].Ok?
    ensures var v := Last(m.files[order[i]]);
      var target := Target(DownloadItem(order[i], v.pathHash, v.modtime, targetPath));
      var r := DiskAfterAll(disk, first + QueuedAll(m, order, targetPath), results, now);
      && Below(target, targetPath, order[i])
      && target in r && r[target] == Regular(v.modtime, results[|first| + i].value)
  {
    var v := Last(m.files[order[i]]);
    TargetIsBelow(DownloadItem(order[i], v.pathHash, v.modtime, targetPath));
    var items := first + QueuedAll(m, order, targetPath);
    var k := |first| + i;
    forall j | k < j < |items| ensures Target(items[j]) != Target(items[k]) {
      assert items[j].path == order[j - |first|] && items[k].path == order[i];
      TargetsDiffer(items[j], items[k]);
    }
    DiskKeeps(disk, items, results, now, k);
  }

  class S3 {
    const queue: Queue
    const watch: Watch.Watch
    const key: Key
    var bucket: Bucket
    var remoteObjects: seq<Name>
    /** The local files that downloads write. */
    var disk: Disk

    constructor (watch: Watch.Watch, key: Key, bucket: Bucket, disk: Disk)
      ensures this.watch == watch && queue == watch.queue && this.key == key
      ensures this.bucket == bucket && remoteObjects == [] && this.disk == disk
    {
      this.watch, queue, this.key, this.bucket, remoteObjects := watch, watch.queue, key, bucket, [];
      this.disk := disk;
    }

    /** `outcomes` has one member for every item, in the order in which they are examined. */
    method UploadFromQueue(fs: FS, outcomes: seq<Outcome>)
      requires queue == watch.queue && |outcomes| == |queue.uploadQueue|
      modifies this`bucket, watch, queue`uploadQueue
      ensures (watch.View(), bucket) == UploadSweep(old(watch.View()), old(bucket), fs, key, 0, outcomes)
    {
      var skip, i := 0, 0;
      while i < |outcomes|
        invariant 0 <= i <= |outcomes| && skip + |outcomes| - i == |queue.uploadQueue|
        invariant UploadSweep(watch.View(), bucket, fs, key, skip, outcomes[i..])
               == UploadSweep(old(watch.View()), old(bucket), fs, key, 0, outcomes)
      {
        var item, outcome := queue.uploadQueue[skip], outcomes[i];
        assert outcomes[i..][0] == outcome && outcomes[i..][1..] == outcomes[i + 1..];
        i := i + 1;
        if !fs.Exists(item.path) {
          var _ := queue.DequeueUpload();
          continue;
        }
        if item.modtime != fs.Mtime(item.path) {
          var _ := queue.DequeueUpload();
          continue;
        }
        var uploaded := UploadObject(fs, item.path, item.objectName, outcome);
        if !uploaded {
          skip := skip + 1;
          continue;
        }
        var _ := queue.DequeueUpload();
      }
    }

    /** Fails where the source throws: the transfer failed, or the path is no longer tracked. */
    method UploadObject(fs: FS, path: Path, objectName: Name, outcome: Outcome) returns (ok: bool)
      modifies this`bucket, watch
      ensures ok == (outcome.stored && (IsBackup(old(watch.View()), objectName) || path in old(watch.fileIndex)))
      ensures bucket == if outcome.stored then
          old(bucket)[objectName := Encrypted(key, outcome.header, fs.Content(path))]
        else old(bucket)
      ensures watch.View() == if ok then Index.UploadSuccess(old(watch.View()), path, objectName) else old(watch.View())
    {
      var encrypted := EncryptFile(fs.Content(path), key, outcome.header);
      if !outcome.stored {
        return false;
      }
      bucket := bucket[objectName := encrypted];
      ok := watch.UploadSuccess(path, objectName);
    }

    /** Every item is popped, whether its download failed or not. */
    method DownloadFromQueue(transfers: seq<Transfer>, now: int) returns (results: seq<Restored>)
      requires |transfers| == |queue.downloadQueue|
      requires forall i :: 0 <= i < |transfers| ==> |transfers[i].junk| == HEADER
      modifies queue`downloadQueue, this`disk
      ensures queue.downloadQueue == []
      ensures results == DownloadSweep(watch.View(), bucket, key, old(queue.downloadQueue), transfers)
      ensures disk == DiskAfterAll(old(disk), old(queue.downloadQueue), results, now)
    {
      results := [];
      ghost var items := queue.downloadQueue;
      ghost var all := DownloadSweep(watch.View(), bucket, key, items, transfers);
      var i := 0;
      while i < |transfers|
        invariant 0 <= i <= |transfers| && queue.downloadQueue == items[i..]
        invariant results == all[..i]
        invariant DiskAfterAll(disk, items[i..], all[i..], now) == DiskAfterAll(old(disk), items, all, now)
      {
        var item := queue.downloadQueue[0];
        assert items[i..][1..] == items[i + 1..] && all[i..][1..] == all[i + 1..];
        var result := DownloadObject(item, transfers[i], now);
        assert result == all[i];
        results := results + [result];
        var _ := queue.DequeueDownload();
        i := i + 1;
      }
    }

    /** `now` is the modtime of a file that is just being written. */
    method DownloadObject(item: DownloadItem, transfer: Transfer, now: int) returns (r: Restored)
      requires |transfer.junk| == HEADER
      modifies this`disk
      ensures r == Download(watch.View(), bucket, key, item.objectName, transfer)
      ensures disk == DiskAfter(old(disk), item, r, now)
    {
      var target := Target(item);
      if !transfer.completed || item.objectName !in bucket {
        return Err(TransferFailed);
      }
      var ret, plain := DecryptFile(bucket[item.objectName], key, transfer.junk);
      disk := disk[target := Regular(now, plain)];
      if ret != 0 {
        return Err(DecryptionFailed(plain));
      }
      var hash := HashFile(Some(plain));
      var verified := watch.VerifyHash(item.objectName, hash);
      if verified.Err? {
        return Err(Untracked(plain));
      }
      if !verified.value {
        Rewritten(old(disk), target, Regular(now, plain), Regular(now, plain));
        disk := disk - {target};
        return Err(HashMismatch);
      }
      Rewritten(old(disk), target, Regular(now, plain), Regular(item.modtime, plain));
      disk := disk[target := Regular(item.modtime, plain)];
      return Ok(plain);
    }

    /** `oks` says of every item, in the order in which they are examined, whether its deletion succeeds. */
    method DeleteFromQueue(oks: seq<bool>)
      requires queue == watch.queue && |oks| == |queue.deleteQueue|
      modifies this`bucket, queue`deleteQueue
      ensures (watch.View(), bucket) == DeleteSweep(old(watch.View()), old(bucket), 0, oks)
    {
      var skip, i := 0, 0;
      while i < |oks|
        invariant 0 <= i <= |oks| && skip + |oks| - i == |queue.deleteQueue|
        invariant DeleteSweep(watch.View(), bucket, skip, oks[i..])
               == DeleteSweep(old(watch.View()), old(bucket), 0, oks)
      {
        var item := queue.deleteQueue[skip];
        assert oks[i..][0] == oks[i] && oks[i..][1..] == oks[i + 1..];
        if oks[i] {
          bucket := bucket - {item};
          var _ := queue.DequeueDelete();
        } else {
          skip := skip + 1;
        }
        i := i + 1;
      }
    }

    /** `listing` is what the service answers: a list of objects, or nothing when the request fails. */
    method GetObjects(listing: Option<seq<Name>>) returns (r: Result<seq<Name>, ()>)
      modifies this`remoteObjects
      ensures r == if listing.Some? then Ok(listing.value) else Err(())
      ensures remoteObjects == if listing.Some? then listing.value else old(remoteObjects)
    {
      if listing.None? {
        return Err(());
      }
      remoteObjects := listing.value;
      return Ok(remoteObjects);
    }
  }

  class Remote {
    const s3: S3
    const watch: Watch.Watch
    /** Is the mutex held?  Locking it again would block for ever. */
    var locked: bool

    constructor (s3: S3)
      ensures this.s3 == s3 && watch == s3.watch && !locked
    {
      this.s3, watch, locked := s3, s3.watch, false;
    }

    method QueueForDelete(objectName: Name)
      requires !locked
      modifies s3.queue`deleteQueue
      ensures s3.queue.deleteQueue == old(s3.queue.deleteQueue) + [objectName]
    {
      s3.queue.EnqueueDelete(objectName);
    }

    /** Leaves its mutex locked exactly when the listing fails or is empty. */
    method CleanRemote(listing: Option<seq<Name>>)
      requires !locked && watch == s3.watch && s3.queue == watch.queue
      modifies this`locked, s3`remoteObjects, s3.queue`deleteQueue
      ensures locked <==> listing.None? || listing.value == []
      ensures watch.View() == if listing.Some? then CleanAll(old(watch.View()), listing.value) else old(watch.View())
    {
      locked := true;
      var objects := s3.GetObjects(listing);
      if objects.Err? || objects.value == [] {
        return;
      }
      locked := false;
      var i := 0;
      while i < |objects.value|
        invariant 0 <= i <= |objects.value| && !locked
        invariant CleanAll(watch.View(), objects.value[i..]) == CleanAll(old(watch.View()), objects.value)
      {
        assert objects.value[i..][0] == objects.value[i] && objects.value[i..][1..] == objects.value[i + 1..];
        var resolved := watch.ResolvePathHash(objects.value[i]);
        if resolved.Err? {
          QueueForDelete(objects.value[i]);
        }
        i := i + 1;
      }
    }

    /** Watch::downloadFiles: queues the latest version of every tracked file, in the order in which the
        hash table happens to be iterated, and downloads them behind whatever is queued already. */
    method DownloadFiles(order: seq<Path>, targetPath: Path, transfers: seq<Transfer>, now: int)
      returns (results: seq<Restored>)
      requires !locked && watch == s3.watch && s3.queue == watch.queue && AllTracked(watch.View(), order)
      requires |transfers| == |s3.queue.downloadQueue| + |order|
      requires forall i :: 0 <= i < |transfers| ==> |transfers[i].junk| == HEADER
      modifies s3.queue`downloadQueue, s3`disk
      ensures s3.queue.downloadQueue == []
      ensures var items := old(s3.queue.downloadQueue) + QueuedAll(watch.View(), order, targetPath);
        && results == DownloadSweep(watch.View(), s3.bucket, s3.key, items, transfers)
        && s3.disk == DiskAfterAll(old(s3.disk), items, results, now)
    {
      ghost var m := watch.View();
      ghost var all := QueuedAll(m, order, targetPath);
      var i := 0;
      while i < |order|
        invariant 0 <= i <= |order| && watch.View() == m && s3.disk == old(s3.disk)
        invariant s3.queue.downloadQueue == old(s3.queue.downloadQueue) + all[..i]
      {
        var version := Last(watch.fileIndex[order[i]]);
        s3.queue.EnqueueDownload(order[i], version.pathHash, version.modtime, targetPath);
        i := i + 1;
      }
      assert all[..i] == all;
      results := s3.DownloadFromQueue(transfers, now);
      assert watch.View() == m;
    }
  }
}
