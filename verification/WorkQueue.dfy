/** The three work queues, and what a sweep that pops while it iterates does to a queue. */
module WorkQueue {
  import opened Common
  import opened FileSystem

  datatype UploadItem = UploadItem(path: Path, objectName: Name, modtime: int)

  datatype DownloadItem = DownloadItem(path: Path, objectName: Name, modtime: int, targetPath: Path)

  class Queue {
    var uploadQueue: seq<UploadItem>
    var downloadQueue: seq<DownloadItem>
    var deleteQueue: seq<Name>

    constructor ()
      ensures uploadQueue == [] && downloadQueue == [] && deleteQueue == []
    {
      uploadQueue, downloadQueue, deleteQueue := [], [], [];
    }

    method EnqueueUpload(fs: FS, path: Path, objectName: Name, modtime: int) returns (ok: bool)
      modifies this`uploadQueue
      ensures ok == fs.Exists(path)
      ensures uploadQueue == old(uploadQueue) + (if ok then [UploadItem(path, objectName, modtime)] else [])
    {
      if !fs.Exists(path) {
        return false;
      }
      uploadQueue := uploadQueue + [UploadItem(path, objectName, modtime)];
      return true;
    }

    method DequeueUpload() returns (ok: bool)
      modifies this`uploadQueue
      ensures ok == (old(uploadQueue) != [])
      ensures uploadQueue == if ok then old(uploadQueue)[1..] else []
    {
      if uploadQueue == [] {
        return false;
      }
      uploadQueue := uploadQueue[1..];
      return true;
    }

    method EnqueueDownload(path: Path, objectName: Name, modtime: int, targetPath: Path)
      modifies this`downloadQueue
      ensures downloadQueue == old(downloadQueue) + [DownloadItem(path, objectName, modtime, targetPath)]
    {
      downloadQueue := downloadQueue + [DownloadItem(path, objectName, modtime, targetPath)];
    }

    method DequeueDownload() returns (ok: bool)
      modifies this`downloadQueue
      ensures ok == (old(downloadQueue) != [])
      ensures downloadQueue == if ok then old(downloadQueue)[1..] else []
    {
      if downloadQueue == [] {
        return false;
      }
      downloadQueue := downloadQueue[1..];
      return true;
    }

    method EnqueueDelete(objectName: Name)
      modifies this`deleteQueue
      ensures deleteQueue == old(deleteQueue) + [objectName]
    {
      deleteQueue := deleteQueue + [objectName];
    }

    method DequeueDelete() returns (ok: bool)
      modifies this`deleteQueue
      ensures ok == (old(deleteQueue) != [])
      ensures deleteQueue == if ok then old(deleteQueue)[1..] else []
    {
      if deleteQueue == [] {
        return false;
      }
      deleteQueue := deleteQueue[1..];
      return true;
    }
  }

  /** A sweep stands at the item `skip` places behind the front of the queue.  An item that is done pops
      the front; a failed item is stepped over.  `done[i]` is the outcome of the i-th item examined. */
  function Swept<T>(q: seq<T>, skip: nat, done: seq<bool>): (r: seq<T>)
    requires skip + |done| == |q|
    decreases |done|
  {
    if done == [] then q
    else if done[0] then Swept(q[1..], skip, done[1..])
    else Swept(q, skip + 1, done[1..])
  }

  /** The items a sweep examines, in the order in which it does. */
  function Examined<T>(q: seq<T>, skip: nat, done: seq<bool>): (r: seq<T>)
    requires skip + |done| == |q|
    decreases |done|
  {
    if done == [] then []
    else if done[0] then [q[skip]] + Examined(q[1..], skip, done[1..])
    else [q[skip]] + Examined(q, skip + 1, done[1..])
  }

  function Failures(done: seq<bool>): (n: nat)
    ensures n <= |done|
  {
    if done == [] then 0 else (if done[0] then 0 else 1) + Failures(done[1..])
  }

  /** The queue the code evidently wants to keep: the items that failed, in order. */
  function FailedItems<T>(q: seq<T>, done: seq<bool>): (r: seq<T>)
    requires |done| == |q|
    ensures |r| == Failures(done)
    ensures forall x :: x in r ==> x in q
  {
    if q == [] then [] else (if done[0] then [] else [q[0]]) + FailedItems(q[1..], done[1..])
  }

  predicate FailuresAtTail(done: seq<bool>) {
    forall i, j :: 0 <= i < j < |done| && !done[i] ==> !done[j]
  }

  /** What is left is a suffix of the queue, one item long for every failure, whichever items failed. */
  lemma {:induction false} SweptIsSuffix<T>(q: seq<T>, skip: nat, done: seq<bool>)
    requires skip + |done| == |q|
    ensures Swept(q, skip, done) == q[|done| - Failures(done)..]
    decreases |done|
  {
    if done != [] {
      if done[0] {
        SweptIsSuffix(q[1..], skip, done[1..]);
      } else {
        SweptIsSuffix(q, skip + 1, done[1..]);
      }
    }
  }

  /** Popping while iterating neither skips nor repeats an item. */
  lemma {:induction false} ExaminedIsQueue<T>(q: seq<T>, skip: nat, done: seq<bool>)
    requires skip + |done| == |q|
    ensures Examined(q, skip, done) == q[skip..]
    decreases |done|
  {
    if done != [] {
      if done[0] {
        ExaminedIsQueue(q[1..], skip, done[1..]);
      } else {
        ExaminedIsQueue(q, skip + 1, done[1..]);
      }
    }
  }

  lemma {:induction false} AllFailed<T>(q: seq<T>, done: seq<bool>)
    requires |done| == |q|
    requires forall i :: 0 <= i < |done| ==> !done[i]
    ensures Failures(done) == |done| && FailedItems(q, done) == q
  {
    if q != [] {
      AllFailed(q[1..], done[1..]);
    }
  }

  /** The failed items are the suffix the sweep leaves exactly when the failures are all at the tail. */
  lemma {:induction false} FailedItemsAreSuffix<T>(q: seq<T>, done: seq<bool>)
    requires |done| == |q| && Distinct(q)
    ensures FailedItems(q, done) == q[|q| - Failures(done)..] <==> FailuresAtTail(done)
    decreases |q|
  {
    if q != [] {
      var n := |q| - Failures(done);
      if done[0] {
        FailedItemsAreSuffix(q[1..], done[1..]);
        assert q[n..] == q[1..][n - 1..];
        if FailuresAtTail(done[1..]) {
          forall i, j | 0 <= i < j < |done| && !done[i] ensures !done[j] {
            assert !done[1..][i - 1] && done[j] == done[1..][j - 1];
          }
        }
      } else if forall i :: 0 <= i < |done| ==> !done[i] {
        AllFailed(q, done);
      } else {
        var j :| 0 <= j < |done| && done[j];
        assert !FailuresAtTail(done) by { assert !done[0] && done[j]; }
        FailuresBelow(done, j);
        assert FailedItems(q, done)[0] == q[0] != q[n..][0];
      }
    }
  }

  lemma {:induction false} FailuresBelow(done: seq<bool>, j: nat)
    requires j < |done| && done[j]
    ensures Failures(done) < |done|
  {
    if j > 0 {
      FailuresBelow(done[1..], j - 1);
    }
  }

  /** The whole sweep: every item is examined exactly once in order; the queue keeps as many items as
      failed; and when items are distinct they are the failed ones exactly when all failures are last. */
  lemma {:induction false} SweepCharacterisation<T>(q: seq<T>, done: seq<bool>)
    requires |done| == |q|
    ensures Examined(q, 0, done) == q
    ensures Swept(q, 0, done) == q[|q| - Failures(done)..]
    ensures Distinct(q) ==> (Swept(q, 0, done) == FailedItems(q, done) <==> FailuresAtTail(done))
  {
    ExaminedIsQueue(q, 0, done);
    SweptIsSuffix(q, 0, done);
    if Distinct(q) {
      FailedItemsAreSuffix(q, done);
    }
  }
}
