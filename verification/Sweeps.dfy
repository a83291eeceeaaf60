/** Whole sweeps of the work queues, and the clean-up of the bucket, as functions of memory and bucket. */
module Sweeps {
  import opened Common
  import opened FileSystem
  import opened Database
  import opened WorkQueue
  import opened Index
  import opened Machine
  import opened SecretStream

  type Bucket = map<Name, seq<Octet>>

  /** What comes of one item of an upload sweep that is not dropped: does the transfer succeed, and which
      header does the encryption draw? */
  datatype Outcome = Outcome(stored: bool, header: seq<Octet>)

  function UploadSweep(m: Memory, bucket: Bucket, fs: FS, key: Key, skip: nat, outcomes: seq<Outcome>)
    : (Memory, Bucket)
    requires skip + |outcomes| == |m.uploads|
    decreases |outcomes|
  {
    if outcomes == [] then (m, bucket)
    else
      var (m', bucket', skip') := UploadStep(m, bucket, fs, key, skip, outcomes[0].stored, outcomes[0].header);
      UploadSweep(m', bucket', fs, key, skip', outcomes[1..])
  }

  function DeleteSweep(m: Memory, bucket: Bucket, skip: nat, oks: seq<bool>): (Memory, Bucket)
    requires skip + |oks| == |m.deletes|
    decreases |oks|
  {
    if oks == [] then (m, bucket)
    else
      var (m', bucket', skip') := DeleteStep(m, bucket, skip, oks[0]);
      DeleteSweep(m', bucket', skip', oks[1..])
  }

  function CleanAll(m: Memory, listed: seq<Name>): Memory
    decreases |listed|
  {
    if listed == [] then m else CleanAll(CleanStep(m, listed[0]), listed[1..])
  }

  /** The news that an object is stored: every version of the path with its name is marked, nothing else is, and
      the SQL that says so is queued whether or not there is such a version; of the index backup nothing is kept. */
  lemma NewsOfUpload(m: Memory, p: Path, n: Name)
    requires (m.named && n == IndexBackup) || p in m.files
    ensures var r := UploadSuccess(m, p, n);
      if m.named && n == IndexBackup then r == m
      else
        && r == m.(files := r.files, sql := m.sql + [SetRemoteExists(n)])
        && r.files.Keys == m.files.Keys && (forall q :: q in m.files && q != p ==> r.files[q] == m.files[q])
        && |r.files[p]| == |m.files[p]|
        && (forall i :: 0 <= i < |m.files[p]| ==>
              r.files[p][i] == if m.files[p][i].pathHash == n then m.files[p][i].(remoteExists := true)
                               else m.files[p][i])
  {}

  // ---------------------------------------------------------------- upload sweeps

  /** Is the file still the one that was queued? */
  predicate Fresh(fs: FS, item: UploadItem) {
    fs.Exists(item.path) && fs.Mtime(item.path) == item.modtime
  }

  /** Does the item take something off the queue?  Its file is gone or changed, or it was stored and the
      index accepted the news. */
  predicate Pops(m: Memory, fs: FS, item: UploadItem, o: Outcome) {
    !Fresh(fs, item) || (o.stored && (IsBackup(m, item.objectName) || item.path in m.files))
  }

  function PopsAll(m: Memory, fs: FS, items: seq<UploadItem>, outcomes: seq<Outcome>): (r: seq<bool>)
    requires |items| == |outcomes|
    ensures |r| == |items|
  {
    seq(|items|, i requires 0 <= i < |items| => Pops(m, fs, items[i], outcomes[i]))
  }

  /** Do the items store an object under this name? */
  ghost predicate Stores(fs: FS, items: seq<UploadItem>, outcomes: seq<Outcome>, n: Name)
    requires |items| == |outcomes|
  {
    exists i :: 0 <= i < |items| && Fresh(fs, items[i]) && outcomes[i].stored && items[i].objectName == n
  }

  lemma UploadStepPops(m: Memory, bucket: Bucket, fs: FS, key: Key, skip: nat, o: Outcome)
    requires skip < |m.uploads|
    ensures var item := m.uploads[skip];
      var (m', bucket', skip') := UploadStep(m, bucket, fs, key, skip, o.stored, o.header);
      && m'.files.Keys == m.files.Keys && m'.named == m.named
      && (if Pops(m, fs, item, o) then m'.uploads == m.uploads[1..] && skip' == skip
          else m'.uploads == m.uploads && skip' == skip + 1)
      && (forall n :: n in bucket' <==> n in bucket || (Fresh(fs, item) && o.stored && item.objectName == n))
      && m'.uploads[skip'..] == m.uploads[skip + 1..]
  {
    var item := m.uploads[skip];
    if !Fresh(fs, item) {
    } else if !o.stored {
    } else if IsBackup(m, item.objectName) {
    } else if item.path in m.files {
    } else {
    }
  }

  lemma PopsFirst(m: Memory, r: Memory, fs: FS, items: seq<UploadItem>, outcomes: seq<Outcome>)
    requires |items| == |outcomes| > 0 && r.files.Keys == m.files.Keys && r.named == m.named
    ensures var pops := PopsAll(m, fs, items, outcomes);
      && pops[0] == Pops(m, fs, items[0], outcomes[0])
      && pops[1..] == PopsAll(r, fs, items[1..], outcomes[1..])
  {}

  lemma SweptFirst<T>(q: seq<T>, skip: nat, done: seq<bool>)
    requires skip + |done| == |q| && done != []
    ensures Swept(q, skip, done)
         == if done[0] then Swept(q[1..], skip, done[1..]) else Swept(q, skip + 1, done[1..])
  {}

  lemma {:induction false} UploadSweepQueue(
      m: Memory, bucket: Bucket, fs: FS, key: Key, skip: nat, outcomes: seq<Outcome>)
    requires skip + |outcomes| == |m.uploads|
    ensures UploadSweep(m, bucket, fs, key, skip, outcomes).0.uploads
         == Swept(m.uploads, skip, PopsAll(m, fs, m.uploads[skip..], outcomes))
    decreases |outcomes|
  {
    if outcomes != [] {
      var o := outcomes[0];
      var (m', bucket', skip') := UploadStep(m, bucket, fs, key, skip, o.stored, o.header);
      UploadStepPops(m, bucket, fs, key, skip, o);
      UploadSweepQueue(m', bucket', fs, key, skip', outcomes[1..]);
      assert m.uploads[skip..][1..] == m.uploads[skip + 1..];
      PopsFirst(m, m', fs, m.uploads[skip..], outcomes);
      SweptFirst(m.uploads, skip, PopsAll(m, fs, m.uploads[skip..], outcomes));
    }
  }

  lemma {:induction false} UploadSweepStores(
      m: Memory, bucket: Bucket, fs: FS, key: Key, skip: nat, outcomes: seq<Outcome>, n: Name)
    requires skip + |outcomes| == |m.uploads|
    ensures n in UploadSweep(m, bucket, fs, key, skip, outcomes).1
      <==> n in bucket || Stores(fs, m.uploads[skip..], outcomes, n)
    decreases |outcomes|
  {
    if outcomes != [] {
      var o := outcomes[0];
      var (m', bucket', skip') := UploadStep(m, bucket, fs, key, skip, o.stored, o.header);
      UploadStepPops(m, bucket, fs, key, skip, o);
      UploadSweepStores(m', bucket', fs, key, skip', outcomes[1..], n);
      StoresFirst(fs, m.uploads[skip..], outcomes, n);
      assert m.uploads[skip..][1..] == m.uploads[skip + 1..];
    }
  }

  /** An upload sweep, whatever fails: the queue it leaves is that of the sweep characterisation, and it
      stores exactly the items whose files are still as queued and whose transfers succeed. */
  lemma UploadSweepEffect(m: Memory, bucket: Bucket, fs: FS, key: Key, skip: nat, outcomes: seq<Outcome>)
    requires skip + |outcomes| == |m.uploads|
    ensures var (r, b) := UploadSweep(m, bucket, fs, key, skip, outcomes);
      && r.uploads == Swept(m.uploads, skip, PopsAll(m, fs, m.uploads[skip..], outcomes))
      && (forall n :: n in b <==> n in bucket || Stores(fs, m.uploads[skip..], outcomes, n))
  {
    UploadSweepQueue(m, bucket, fs, key, skip, outcomes);
    forall n ensures n in UploadSweep(m, bucket, fs, key, skip, outcomes).1
                <==> n in bucket || Stores(fs, m.uploads[skip..], outcomes, n)
    {
      UploadSweepStores(m, bucket, fs, key, skip, outcomes, n);
    }
  }

  lemma StoresFirst(fs: FS, items: seq<UploadItem>, outcomes: seq<Outcome>, n: Name)
    requires |items| == |outcomes| > 0
    ensures Stores(fs, items, outcomes, n) <==>
      (Fresh(fs, items[0]) && outcomes[0].stored && items[0].objectName == n)
      || Stores(fs, items[1..], outcomes[1..], n)
  {}

  /** A whole upload sweep keeps as many items as it steps over, and keeps the right ones exactly when
      those come last. */
  lemma UploadSweepKeeps(m: Memory, bucket: Bucket, fs: FS, key: Key, outcomes: seq<Outcome>)
    requires |outcomes| == |m.uploads|
    ensures var pops := PopsAll(m, fs, m.uploads, outcomes);
      var r := UploadSweep(m, bucket, fs, key, 0, outcomes).0.uploads;
      && r == m.uploads[|m.uploads| - Failures(pops)..]
      && (Distinct(m.uploads) ==> (r == FailedItems(m.uploads, pops) <==> FailuresAtTail(pops)))
  {
    var q := m.uploads;
    UploadSweepQueue(m, bucket, fs, key, 0, outcomes);
    assert q[0..] == q;
    SweepCharacterisation(q, PopsAll(m, fs, q, outcomes));
  }

  /** The index is told of this item: its version of the path is the one to mark. */
  predicate Marks(named: bool, fs: FS, item: UploadItem, o: Outcome, p: Path, n: Name) {
    Fresh(fs, item) && o.stored && item.path == p && item.objectName == n && !(named && n == IndexBackup)
  }

  ghost predicate MarksAny(named: bool, fs: FS, items: seq<UploadItem>, outcomes: seq<Outcome>, p: Path, n: Name)
    requires |items| == |outcomes|
  {
    exists i :: 0 <= i < |items| && Marks(named, fs, items[i], outcomes[i], p, n)
  }

  lemma MarksFirst(named: bool, fs: FS, items: seq<UploadItem>, outcomes: seq<Outcome>, p: Path, n: Name)
    requires |items| == |outcomes| > 0
    ensures MarksAny(named, fs, items, outcomes, p, n) <==>
      Marks(named, fs, items[0], outcomes[0], p, n) || MarksAny(named, fs, items[1..], outcomes[1..], p, n)
  {}

  lemma UploadStepMarks(m: Memory, bucket: Bucket, fs: FS, key: Key, skip: nat, o: Outcome, p: Path, i: nat)
    requires skip < |m.uploads| && p in m.files && i < |m.files[p]|
    ensures var m' := UploadStep(m, bucket, fs, key, skip, o.stored, o.header).0;
      var v := m.files[p][i];
      && p in m'.files && |m'.files[p]| == |m.files[p]|
      && m'.files[p][i] == v.(remoteExists := v.remoteExists || Marks(m.named, fs, m.uploads[skip], o, p, v.pathHash))
  {
    var item := m.uploads[skip];
    if !Fresh(fs, item) || !o.stored {
    } else if IsBackup(m, item.objectName) || item.path !in m.files {
    } else {
    }
  }

  /** In the index an upload sweep marks exactly the versions whose item was stored, and changes nothing
      else in any version. */
  lemma {:induction false} UploadSweepMarks(
      m: Memory, bucket: Bucket, fs: FS, key: Key, skip: nat, outcomes: seq<Outcome>, p: Path, i: nat)
    requires skip + |outcomes| == |m.uploads| && p in m.files && i < |m.files[p]|
    ensures var r := UploadSweep(m, bucket, fs, key, skip, outcomes).0;
      var v := m.files[p][i];
      && p in r.files && |r.files[p]| == |m.files[p]|
      && r.files[p][i]
         == v.(remoteExists := v.remoteExists || MarksAny(m.named, fs, m.uploads[skip..], outcomes, p, v.pathHash))
    decreases |outcomes|
  {
    if outcomes != [] {
      var o := outcomes[0];
      var (m', bucket', skip') := UploadStep(m, bucket, fs, key, skip, o.stored, o.header);
      UploadStepPops(m, bucket, fs, key, skip, o);
      UploadStepMarks(m, bucket, fs, key, skip, o, p, i);
      UploadSweepMarks(m', bucket', fs, key, skip', outcomes[1..], p, i);
      MarksFirst(m.named, fs, m.uploads[skip..], outcomes, p, m.files[p][i].pathHash);
      assert m.uploads[skip..][1..] == m.uploads[skip + 1..];
    }
  }

  /** The object is the encryption of what an item's file holds. */
  ghost predicate IsUploadOf(fs: FS, key: Key, items: seq<UploadItem>, outcomes: seq<Outcome>, n: Name, c: seq<Octet>)
    requires |items| == |outcomes|
  {
    exists i :: 0 <= i < |items| && items[i].objectName == n && Fresh(fs, items[i]) &&
      c == Encrypted(key, outcomes[i].header, fs.Content(items[i].path))
  }

  lemma IsUploadOfRest(
      fs: FS, key: Key, items: seq<UploadItem>, outcomes: seq<Outcome>, n: Name, c: seq<Octet>)
    requires |items| == |outcomes| > 0
    requires IsUploadOf(fs, key, items[1..], outcomes[1..], n, c)
    ensures IsUploadOf(fs, key, items, outcomes, n, c)
  {}

  /** What an upload sweep puts into the bucket: every object in it was there before, or is the encrypted
      content of the file of an item with that name. */
  lemma {:induction false} UploadSweepContents(
      m: Memory, bucket: Bucket, fs: FS, key: Key, skip: nat, outcomes: seq<Outcome>, n: Name)
    requires skip + |outcomes| == |m.uploads|
    ensures var b := UploadSweep(m, bucket, fs, key, skip, outcomes).1;
      n in b ==> (n in bucket && b[n] == bucket[n]) || IsUploadOf(fs, key, m.uploads[skip..], outcomes, n, b[n])
    decreases |outcomes|
  {
    if outcomes != [] {
      var o, items := outcomes[0], m.uploads[skip..];
      var (m', bucket', skip') := UploadStep(m, bucket, fs, key, skip, o.stored, o.header);
      UploadStepPops(m, bucket, fs, key, skip, o);
      UploadSweepContents(m', bucket', fs, key, skip', outcomes[1..], n);
      var b := UploadSweep(m', bucket', fs, key, skip', outcomes[1..]).1;
      assert items[1..] == m'.uploads[skip'..] && items[0] == m.uploads[skip];
      if n in b && IsUploadOf(fs, key, items[1..], outcomes[1..], n, b[n]) {
        IsUploadOfRest(fs, key, items, outcomes, n, b[n]);
      } else if n in b && !(n in bucket && b[n] == bucket[n]) {
        assert items[0].objectName == n && Fresh(fs, items[0]);
      }
    }
  }

  // ---------------------------------------------------------------- delete sweeps

  /** The names whose deletion succeeds. */
  ghost predicate Deleted(items: seq<Name>, oks: seq<bool>, n: Name)
    requires |items| == |oks|
  {
    exists i :: 0 <= i < |items| && oks[i] && items[i] == n
  }

  lemma DeletedFirst(items: seq<Name>, oks: seq<bool>, n: Name)
    requires |items| == |oks| > 0
    ensures Deleted(items, oks, n) <==> (oks[0] && items[0] == n) || Deleted(items[1..], oks[1..], n)
  {}

  /** A delete sweep, whatever fails: exactly the objects whose deletion succeeds are gone, although the
      names taken off the queue may be others. */
  lemma {:induction false} DeleteSweepEffect(m: Memory, bucket: Bucket, skip: nat, oks: seq<bool>)
    requires skip + |oks| == |m.deletes|
    ensures var (r, b) := DeleteSweep(m, bucket, skip, oks);
      && r == m.(deletes := Swept(m.deletes, skip, oks))
      && (forall n :: n in b <==> n in bucket && !Deleted(m.deletes[skip..], oks, n))
      && (forall n :: n in b ==> b[n] == bucket[n])
    decreases |oks|
  {
    if oks != [] {
      var (m', bucket', skip') := DeleteStep(m, bucket, skip, oks[0]);
      assert m'.deletes[skip'..] == m.deletes[skip + 1..];
      DeleteSweepEffect(m', bucket', skip', oks[1..]);
      forall n ensures Deleted(m.deletes[skip..], oks, n) <==>
                       (oks[0] && m.deletes[skip] == n) || Deleted(m.deletes[skip + 1..], oks[1..], n)
      {
        DeletedFirst(m.deletes[skip..], oks, n);
        assert m.deletes[skip..][1..] == m.deletes[skip + 1..];
      }
    }
  }

  // ---------------------------------------------------------------- clean-up

  /** The listed objects that nothing resolves, in the order of the list. */
  function Orphans(m: Memory, listed: seq<Name>): (r: seq<Name>)
    ensures forall n :: n in r <==> n in listed && !Resolves(m, n)
  {
    if listed == [] then []
    else (if Resolves(m, listed[0]) then [] else [listed[0]]) + Orphans(m, listed[1..])
  }

  lemma {:induction false} OrphansFrame(m: Memory, r: Memory, listed: seq<Name>)
    requires m.names == r.names && m.named == r.named
    ensures Orphans(m, listed) == Orphans(r, listed)
  {
    if listed != [] {
      OrphansFrame(m, r, listed[1..]);
    }
  }

  lemma OrphansFirst(m: Memory, listed: seq<Name>, before: seq<Name>)
    requires listed != []
    ensures before + Orphans(m, listed)
         == (if Resolves(m, listed[0]) then before else before + [listed[0]]) + Orphans(m, listed[1..])
  {
    var rest := Orphans(m, listed[1..]);
    assert before + ([listed[0]] + rest) == (before + [listed[0]]) + rest;
    assert [] + rest == rest;
  }

  /** A clean-up queues exactly the orphans and changes nothing else. */
  lemma {:induction false} CleanAllQueuesOrphans(m: Memory, listed: seq<Name>)
    ensures var r := CleanAll(m, listed);
      r.deletes == m.deletes + Orphans(m, listed) && r == m.(deletes := r.deletes)
    decreases |listed|
  {
    if listed != [] {
      var m' := CleanStep(m, listed[0]);
      CleanAllQueuesOrphans(m', listed[1..]);
      OrphansFrame(m, m', listed[1..]);
      OrphansFirst(m, listed, m.deletes);
    }
  }

  function AllSucceed(n: nat): (r: seq<bool>)
    ensures |r| == n
  {
    seq(n, _ => true)
  }

  lemma {:induction false} NoFailures(n: nat)
    ensures Failures(AllSucceed(n)) == 0
  {
    if n > 0 {
      assert AllSucceed(n)[1..] == AllSucceed(n - 1);
      NoFailures(n - 1);
    }
  }

  /** A clean-up and then a delete sweep without failures: the delete queue is empty, exactly what was in it
      and the listed orphans are gone, and the rest is untouched. */
  lemma CleanThenDelete(m: Memory, bucket: Bucket, listed: seq<Name>)
    ensures var c := CleanAll(m, listed);
      var (r, b) := DeleteSweep(c, bucket, 0, AllSucceed(|c.deletes|));
      && r == m.(deletes := [])
      && (forall n :: n in b <==> n in bucket && n !in m.deletes && (n in listed ==> Resolves(m, n)))
      && (forall n :: n in b ==> b[n] == bucket[n])
  {
    var c := CleanAll(m, listed);
    CleanAllQueuesOrphans(m, listed);
    var oks := AllSucceed(|c.deletes|);
    DeleteSweepEffect(c, bucket, 0, oks);
    SweptIsSuffix(c.deletes, 0, oks);
    NoFailures(|c.deletes|);
    assert c.deletes[0..] == c.deletes;
    forall n ensures Deleted(c.deletes, oks, n) <==> n in c.deletes {
      if n in c.deletes {
        var i :| 0 <= i < |c.deletes| && c.deletes[i] == n;
        assert oks[i];
      }
    }
  }

  // ---------------------------------------------------------------- sweeps as runs of the state machine

  function UploadActions(outcomes: seq<Outcome>): (r: seq<Action>)
    ensures |r| == |outcomes|
  {
    seq(|outcomes|, i requires 0 <= i < |outcomes| => UploadNext(outcomes[i].stored, outcomes[i].header))
  }

  function DeleteActions(oks: seq<bool>): (r: seq<Action>)
    ensures |r| == |oks|
  {
    seq(|oks|, i requires 0 <= i < |oks| => DeleteNext(oks[i]))
  }

  ghost predicate HeadersFit(outcomes: seq<Outcome>) {
    forall i :: 0 <= i < |outcomes| ==> |outcomes[i].header| == HEADER
  }

  lemma {:induction false} UploadSweepIsRun(s: State, outcomes: seq<Outcome>)
    requires s.sweep.Uploading? && s.sweep.skip + |outcomes| == |s.mem.uploads| && HeadersFit(outcomes)
    ensures var (m, b) := UploadSweep(s.mem, s.bucket, s.fs, s.key, s.sweep.skip, outcomes);
      Exec(s, UploadActions(outcomes)) == s.(mem := m, bucket := b, sweep := Uploading(|m.uploads|))
    decreases |outcomes|
  {
    if outcomes != [] {
      var run := UploadActions(outcomes);
      assert run[1..] == UploadActions(outcomes[1..]);
      UploadSweepIsRun(Next(s, run[0]), outcomes[1..]);
    }
  }

  lemma {:induction false} DeleteSweepIsRun(s: State, oks: seq<bool>)
    requires s.sweep.Deleting? && s.sweep.skip + |oks| == |s.mem.deletes|
    ensures var (m, b) := DeleteSweep(s.mem, s.bucket, s.sweep.skip, oks);
      Exec(s, DeleteActions(oks)) == s.(mem := m, bucket := b, sweep := Deleting(|m.deletes|))
    decreases |oks|
  {
    if oks != [] {
      var run := DeleteActions(oks);
      assert run[1..] == DeleteActions(oks[1..]);
      DeleteSweepIsRun(Next(s, run[0]), oks[1..]);
    }
  }

  lemma {:induction false} CleanAllIsRun(s: State)
    ensures Exec(s, seq(|s.cleaning|, _ => CleanNext)) == s.(mem := CleanAll(s.mem, s.cleaning), cleaning := [])
    decreases |s.cleaning|
  {
    if s.cleaning != [] {
      var run := seq(|s.cleaning|, _ => CleanNext);
      assert run[1..] == seq(|s.cleaning| - 1, _ => CleanNext);
      CleanAllIsRun(Next(s, CleanNext));
    }
  }

  lemma ExecAround(s: State, first: Action, run: seq<Action>, last: Action)
    ensures Exec(s, [first] + run + [last]) == Next(Exec(Next(s, first), run), last)
  {
    ExecConcat(s, [first] + run, [last]);
    ExecConcat(s, [first], run);
    ExecOne(s, first);
    ExecOne(Exec(s, [first] + run), last);
  }

  // Sweeps and clean-ups that nobody interrupts are runs of the state machine, so that what holds on every
  // run holds after them.

  lemma WholeUploadSweepIsRun(s: State, outcomes: seq<Outcome>)
    requires s.sweep == Idle && |outcomes| == |s.mem.uploads| && HeadersFit(outcomes)
    ensures var (m, b) := UploadSweep(s.mem, s.bucket, s.fs, s.key, 0, outcomes);
      Exec(s, [BeginUploads] + UploadActions(outcomes) + [EndSweep]) == s.(mem := m, bucket := b)
  {
    ExecAround(s, BeginUploads, UploadActions(outcomes), EndSweep);
    UploadSweepIsRun(Next(s, BeginUploads), outcomes);
  }

  lemma WholeDeleteSweepIsRun(s: State, oks: seq<bool>)
    requires s.sweep == Idle && |oks| == |s.mem.deletes|
    ensures var (m, b) := DeleteSweep(s.mem, s.bucket, 0, oks);
      Exec(s, [BeginDeletes] + DeleteActions(oks) + [EndSweep]) == s.(mem := m, bucket := b)
  {
    ExecAround(s, BeginDeletes, DeleteActions(oks), EndSweep);
    DeleteSweepIsRun(Next(s, BeginDeletes), oks);
  }

  function CleanActions(listed: seq<Name>): seq<Action> {
    [ListForCleaning(listed)] + seq(|listed|, _ => CleanNext)
  }

  lemma WholeCleanUpIsRun(s: State, listed: seq<Name>)
    requires s.cleaning == [] && forall n :: n in listed ==> n in s.bucket
    ensures Exec(s, CleanActions(listed)) == s.(mem := CleanAll(s.mem, listed))
  {
    ExecConcat(s, [ListForCleaning(listed)], seq(|listed|, _ => CleanNext));
    ExecOne(s, ListForCleaning(listed));
    CleanAllIsRun(Next(s, ListForCleaning(listed)));
  }
}
