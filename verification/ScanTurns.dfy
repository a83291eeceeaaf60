/** A scan, one turn of its loops after the other: everything that is done to memory for a file or a directory,
    depending on what is found on disk. */
module ScanTurns {
  import opened Common
  import opened FileSystem
  import opened Database
  import opened WorkQueue
  import opened Index
  import opened Steps
  import opened Scanning
  import opened IndexInvariant

  // ---------------------------------------------------------------- files

  lemma RefreshedElsewhere(m: Memory, fs: FS, p: Path)
    requires Tracked(m, p)
    ensures var r := Refreshed(m, fs, p);
      r.files.Keys == m.files.Keys && forall q :: q in m.files && q != p ==> r.files[q] == m.files[q]
  {}

  /** While the files are live, the loop goes on with the rest, and leaves files alone it has not come to. */
  lemma {:induction false} ScanFilesSplit(m: Memory, fs: FS, a: seq<Path>, b: seq<Path>)
    requires AllTracked(m, a + b) && Distinct(a + b)
    requires forall i :: 0 <= i < |a| ==> Live(m, fs, a[i])
    ensures AllTracked(m, a)
    ensures var q := ScanFiles(m, fs, a);
      && q.files.Keys == m.files.Keys && (forall p :: p in m.files && p !in a ==> q.files[p] == m.files[p])
      && AllTracked(q, b) && ScanFiles(m, fs, a + b) == ScanFiles(q, fs, b)
    decreases |a|
  {
    assert forall i :: 0 <= i < |a| ==> a[i] == (a + b)[i];
    if a == [] {
      assert a + b == b;
    } else {
      var p, rest := a[0], a[1..];
      assert (a + b)[0] == p && (a + b)[1..] == rest + b;
      RefreshedElsewhere(m, fs, p);
      var m' := Refreshed(m, fs, p);
      forall i | 0 <= i < |rest + b| ensures (rest + b)[i] != p && Tracked(m', (rest + b)[i]) {
        assert (rest + b)[i] == (a + b)[i + 1];
      }
      forall i | 0 <= i < |rest| ensures Live(m', fs, rest[i]) {
        assert rest[i] == (rest + b)[i] && rest[i] == a[i + 1];
      }
      ScanFilesSplit(m', fs, rest, b);
      assert a == [p] + rest;
      assert ScanFiles(m, fs, a) == ScanFiles(m', fs, rest);
      assert ScanFiles(m, fs, a + b) == ScanFiles(m', fs, rest + b);
      forall i | 0 <= i < |b| ensures b[i] !in a && Tracked(m, b[i]) {
        assert b[i] == (a + b)[|a| + i];
      }
    }
  }

  /** What there is in memory when the loop comes to a file, and whether it goes on behind it. */
  lemma BeforeTurn(m: Memory, fs: FS, order: seq<Path>, k: nat)
    requires AllTracked(m, order) && Distinct(order) && k < |order|
    requires forall i :: 0 <= i < k ==> Live(m, fs, order[i])
    ensures var p, q := order[k], ScanFiles(m, fs, order[..k]);
      && q.files.Keys == m.files.Keys && Tracked(q, p) && q.files[p] == m.files[p]
      && ScanFiles(m, fs, order[..k + 1]) == ScanFiles(q, fs, [p])
      && (!Live(m, fs, p) ==> ScanFiles(m, fs, order) == ScanFiles(q, fs, [p]))
  {
    var p := order[k];
    assert order[..k] + order[k..] == order && order[..k] + [p] == order[..k + 1];
    ScanFilesSplit(m, fs, order[..k], order[k..]);
    ScanFilesSplit(m, fs, order[..k], [p]);
    assert order[k..][0] == p;
    forall i | 0 <= i < k ensures order[..k][i] != p {
      assert order[..k][i] == order[i];
    }
  }

  /** The history with the live flag of its latest version cleared. */
  function Dimmed(vs: seq<FileVersion>): (r: seq<FileVersion>)
    requires vs != []
    ensures |r| == |vs| && r[..|vs| - 1] == vs[..|vs| - 1]
    ensures r[|vs| - 1] == vs[|vs| - 1].(localExists := false)
  {
    vs[..|vs| - 1] + [vs[|vs| - 1].(localExists := false)]
  }

  /** A file that was not live before the scan ends the loop. */
  lemma DeadFileEndsScan(m: Memory, fs: FS, order: seq<Path>, k: nat)
    requires AllTracked(m, order) && Distinct(order) && k < |order|
    requires forall i :: 0 <= i < k ==> Live(m, fs, order[i])
    requires var vs := m.files[order[k]]; !vs[|vs| - 1].localExists
    ensures ScanFiles(m, fs, order) == ScanFiles(m, fs, order[..k])
  {
    BeforeTurn(m, fs, order, k);
  }

  /** A live file that has gone loses its live flag, in memory and by SQL, and ends the loop. */
  lemma GoneFileIsMarked(m: Memory, fs: FS, order: seq<Path>, k: nat)
    requires AllTracked(m, order) && Distinct(order) && k < |order|
    requires forall i :: 0 <= i < k ==> Live(m, fs, order[i])
    requires var vs := m.files[order[k]]; vs[|vs| - 1].localExists && !fs.Exists(order[k])
    ensures var p, q := order[k], ScanFiles(m, fs, order[..k]);
      ScanFiles(m, fs, order)
      == q.(files := q.files[p := Dimmed(m.files[p])], sql := q.sql + [ClearLocalExists(p)])
  {
    BeforeTurn(m, fs, order, k);
  }

  /** A live file that is there as it was indexed is left alone. */
  lemma SameFileIsKept(m: Memory, fs: FS, order: seq<Path>, k: nat)
    requires AllTracked(m, order) && Distinct(order) && k < |order|
    requires forall i :: 0 <= i <= k ==> Live(m, fs, order[i])
    requires var vs := m.files[order[k]]; vs[|vs| - 1].modtime == fs.Mtime(order[k])
    ensures ScanFiles(m, fs, order[..k + 1]) == ScanFiles(m, fs, order[..k])
  {
    BeforeTurn(m, fs, order, k);
    var q := ScanFiles(m, fs, order[..k]);
    assert ScanFiles(q, fs, [order[k]]) == ScanFiles(q, fs, []);
  }

  /** A live file that was modified gets a version, the one on disk, under the next name, in both indexes, by SQL
      and in the upload queue; the version before it stops being live, in memory only. */
  lemma ChangedFileIsRecorded(m: Memory, fs: FS, order: seq<Path>, k: nat)
    requires Indexed(m) && AllTracked(m, order) && Distinct(order) && k < |order|
    requires forall i :: 0 <= i <= k ==> Live(m, fs, order[i])
    requires var vs := m.files[order[k]]; vs[|vs| - 1].modtime != fs.Mtime(order[k])
    ensures var p, q := order[k], ScanFiles(m, fs, order[..k]);
      var n, t, d := Random(q.minted), fs.Mtime(p), Digest(fs.Content(p));
      ScanFiles(m, fs, order[..k + 1]) == Memory(
        q.files[p := Dimmed(m.files[p]) + [FileVersion(t, n, d, true, false)]],
        q.names[n := (p, t)],
        q.dirs,
        q.sql + [InsertFile(Row(p, t, n, d, true, false))],
        q.uploads + [UploadItem(p, n, t)],
        q.deletes,
        q.minted + 1,
        q.named)
  {
    BeforeTurn(m, fs, order, k);
    var p, q := order[k], ScanFiles(m, fs, order[..k]);
    assert ScanFiles(q, fs, [p]) == ScanFiles(Refreshed(q, fs, p), fs, []);
    ScanFilesReaches(m, fs, order[..k]);
    ReachedIndexed(m, fs, q);
    TrackedNamesDrawn(q);
    RecordsOne(q, fs, p);
  }

  lemma {:induction false} PlayedIndexed(m: Memory, fs: FS, steps: seq<Step>)
    requires LegalAll(m, fs, steps, false) && Indexed(m)
    ensures Indexed(PlayAll(m, fs, steps))
    decreases |steps|
  {
    if steps != [] {
      IndexedPlay(m, fs, steps[0]);
      PlayedIndexed(Play(m, fs, steps[0]), fs, steps[1..]);
    }
  }

  lemma ReachedIndexed(m: Memory, fs: FS, r: Memory)
    requires Indexed(m) && Reaches(m, fs, r, false)
    ensures Indexed(r)
  {
    var steps :| LegalAll(m, fs, steps, false) && Yields(m, fs, steps, r);
    PlayedIndexed(m, fs, steps);
  }

  lemma RecordsOne(q: Memory, fs: FS, p: Path)
    requires Live(q, fs, p) && Random(q.minted) !in q.names
    requires var vs := q.files[p]; vs[|vs| - 1].modtime != fs.Mtime(p)
    ensures var n, t, d := Random(q.minted), fs.Mtime(p), Digest(fs.Content(p));
      Refreshed(q, fs, p) == Memory(
        q.files[p := Dimmed(q.files[p]) + [FileVersion(t, n, d, true, false)]],
        q.names[n := (p, t)],
        q.dirs,
        q.sql + [InsertFile(Row(p, t, n, d, true, false))],
        q.uploads + [UploadItem(p, n, t)],
        q.deletes,
        q.minted + 1,
        q.named)
  {
    var vs := q.files[p];
    assert WithLast(vs, Last(vs).(localExists := false)) == Dimmed(vs);
    assert q.files[p := Dimmed(vs)][p := Dimmed(vs) + [Index.NewVersion(fs, p, q.minted)]]
        == q.files[p := Dimmed(vs) + [Index.NewVersion(fs, p, q.minted)]];
  }

  // ---------------------------------------------------------------- directories

  lemma {:induction false} ScanDirsSplit(m: Memory, fs: FS, a: seq<Path>, b: seq<Path>)
    requires AllWatched(m, a + b) && forall i :: 0 <= i < |a| ==> fs.Exists(a[i])
    ensures AllWatched(m, a)
    ensures var q := ScanDirs(m, fs, a);
      && (forall d :: d in m.dirs ==> d in q.dirs && q.dirs[d] == m.dirs[d])
      && AllWatched(q, b) && ScanDirs(m, fs, a + b) == ScanDirs(q, fs, b)
    decreases |a|
  {
    assert forall i :: 0 <= i < |a| ==> a[i] == (a + b)[i];
    if a == [] {
      assert a + b == b;
    } else {
      var d, rest := a[0], a[1..];
      assert (a + b)[0] == d && (a + b)[1..] == rest + b && a == [d] + rest;
      var m' := AddEntries(m, fs, d, fs.Entries(d), m.dirs[d]);
      assert forall i :: 0 <= i < |rest + b| ==> (rest + b)[i] == (a + b)[i + 1];
      ScanDirsSplit(m', fs, rest, b);
      assert ScanDirs(m, fs, a) == ScanDirs(m', fs, rest);
      assert ScanDirs(m, fs, a + b) == ScanDirs(m', fs, rest + b);
    }
  }

  lemma BeforeDirTurn(m: Memory, fs: FS, order: seq<Path>, k: nat)
    requires AllWatched(m, order) && k < |order| && forall i :: 0 <= i < k ==> fs.Exists(order[i])
    ensures var d, q := order[k], ScanDirs(m, fs, order[..k]);
      && d in q.dirs && q.dirs[d] == m.dirs[d]
      && ScanDirs(m, fs, order[..k + 1]) == ScanDirs(q, fs, [d])
      && (!fs.Exists(d) ==> ScanDirs(m, fs, order) == ScanDirs(q, fs, [d]))
  {
    var d := order[k];
    assert order[..k] + order[k..] == order && order[..k] + [d] == order[..k + 1];
    ScanDirsSplit(m, fs, order[..k], order[k..]);
    ScanDirsSplit(m, fs, order[..k], [d]);
    assert order[k..][0] == d;
  }

  /** A directory that has gone loses its watch, in memory and by SQL, and ends the loop. */
  lemma GoneDirectoryIsDropped(m: Memory, fs: FS, order: seq<Path>, k: nat)
    requires AllWatched(m, order) && k < |order| && forall i :: 0 <= i < k ==> fs.Exists(order[i])
    requires !fs.Exists(order[k])
    ensures var d, q := order[k], ScanDirs(m, fs, order[..k]);
      ScanDirs(m, fs, order) == q.(dirs := q.dirs - {d}, sql := q.sql + [DeleteDir(d)])
  {
    BeforeDirTurn(m, fs, order, k);
  }

  /** Of a directory that is there, the entries are looked at as its watch says. */
  lemma DirectoryIsVisited(m: Memory, fs: FS, order: seq<Path>, k: nat)
    requires AllWatched(m, order) && k < |order| && forall i :: 0 <= i <= k ==> fs.Exists(order[i])
    ensures var d, q := order[k], ScanDirs(m, fs, order[..k]);
      ScanDirs(m, fs, order[..k + 1]) == AddEntries(q, fs, d, fs.Entries(d), m.dirs[d])
  {
    BeforeDirTurn(m, fs, order, k);
    var d, q := order[k], ScanDirs(m, fs, order[..k]);
    var r := AddEntries(q, fs, d, fs.Entries(d), m.dirs[d]);
    assert ScanDirs(q, fs, [d]) == ScanDirs(r, fs, []);
  }

  // ---------------------------------------------------------------- whole operations

  /** Queues only grow at the back, names are only drawn, and the name of the index backup is not touched. */
  ghost predicate OnlyQueues(m: Memory, r: Memory) {
    m.sql <= r.sql && m.uploads <= r.uploads && m.deletes <= r.deletes && m.minted <= r.minted && r.named == m.named
  }

  lemma OnlyQueuesPlay(m: Memory, fs: FS, step: Step)
    requires Legal(m, fs, step)
    ensures OnlyQueues(m, Play(m, fs, step))
  {}

  lemma {:induction false} OnlyQueuesAll(m: Memory, fs: FS, steps: seq<Step>)
    requires LegalAll(m, fs, steps, false)
    ensures OnlyQueues(m, PlayAll(m, fs, steps))
    decreases |steps|
  {
    if steps != [] {
      OnlyQueuesPlay(m, fs, steps[0]);
      OnlyQueuesAll(Play(m, fs, steps[0]), fs, steps[1..]);
      OnlyQueuesTransitive(m, Play(m, fs, steps[0]), PlayAll(m, fs, steps));
    }
  }

  lemma OnlyQueuesTransitive(m: Memory, r: Memory, q: Memory)
    requires OnlyQueues(m, r) && OnlyQueues(r, q)
    ensures OnlyQueues(m, q)
  {}

  /** Whatever is added, deleted or scanned. */
  lemma OperationsOnlyQueue(m: Memory, fs: FS, p: Path, recursive: bool, fileOrder: seq<Path>, dirOrder: seq<Path>)
    ensures OnlyQueues(m, AddWatch(m, fs, p, recursive)) && OnlyQueues(m, DelWatch(m, fs, p, recursive))
    ensures AllTracked(m, fileOrder) && AllWatched(m, dirOrder) ==> OnlyQueues(m, Scan(m, fs, fileOrder, dirOrder))
  {
    OperationsAreSteps(m, fs, p, recursive, fileOrder, dirOrder);
    ReachedOnlyQueues(m, fs, AddWatch(m, fs, p, recursive), true);
    ReachedOnlyQueues(m, fs, DelWatch(m, fs, p, recursive), true);
    if AllTracked(m, fileOrder) && AllWatched(m, dirOrder) {
      ReachedOnlyQueues(m, fs, Scan(m, fs, fileOrder, dirOrder), false);
    }
  }

  lemma ReachedOnlyQueues(m: Memory, fs: FS, r: Memory, served: bool)
    requires Reaches(m, fs, r, served)
    ensures OnlyQueues(m, r)
  {
    var steps :| LegalAll(m, fs, steps, served) && Yields(m, fs, steps, r);
    OnlyQueuesAll(m, fs, steps);
  }

  lemma {:induction false} ScanDirsKeepsFiles(m: Memory, fs: FS, order: seq<Path>)
    requires AllWatched(m, order)
    ensures var r := ScanDirs(m, fs, order);
      forall p :: p in m.files ==> p in r.files && r.files[p] == m.files[p]
    decreases |order|
  {
    if order != [] && fs.Exists(order[0]) {
      ScanDirsKeepsFiles(AddEntries(m, fs, order[0], fs.Entries(order[0]), m.dirs[order[0]]), fs, order[1..]);
    }
  }

  /** The scan looks at the files first: what it queues for them comes first, and what it finds in directories
      afterwards leaves their histories alone. */
  lemma FilesComeFirst(m: Memory, fs: FS, fileOrder: seq<Path>, dirOrder: seq<Path>)
    requires AllTracked(m, fileOrder) && AllWatched(m, dirOrder)
    ensures var q, r := ScanFiles(m, fs, fileOrder), Scan(m, fs, fileOrder, dirOrder);
      OnlyQueues(q, r) && forall p :: p in m.files ==> p in q.files && p in r.files && r.files[p] == q.files[p]
  {
    ScanFilesKeepsDirs(m, fs, fileOrder);
    ScanFilesKeepsPaths(m, fs, fileOrder);
    var q := ScanFiles(m, fs, fileOrder);
    ScanDirsReaches(q, fs, dirOrder);
    ReachedOnlyQueues(q, fs, ScanDirs(q, fs, dirOrder), false);
    ScanDirsKeepsFiles(q, fs, dirOrder);
  }

  /** So after a scan that comes to it, a file that has gone is not live any more, and the SQL that says so is
      pending; what its history was before is unchanged otherwise. */
  lemma ScanMarksGoneFile(m: Memory, fs: FS, fileOrder: seq<Path>, dirOrder: seq<Path>, k: nat)
    requires AllTracked(m, fileOrder) && AllWatched(m, dirOrder) && Distinct(fileOrder) && k < |fileOrder|
    requires forall i :: 0 <= i < k ==> Live(m, fs, fileOrder[i])
    requires var vs := m.files[fileOrder[k]]; vs[|vs| - 1].localExists && !fs.Exists(fileOrder[k])
    ensures var r, p, vs := Scan(m, fs, fileOrder, dirOrder), fileOrder[k], m.files[fileOrder[k]];
      && p in r.files && r.files[p] == vs[..|vs| - 1] + [vs[|vs| - 1].(localExists := false)]
      && ClearLocalExists(p) in r.sql
  {
    GoneFileIsMarked(m, fs, fileOrder, k);
    FilesComeFirst(m, fs, fileOrder, dirOrder);
    var q := ScanFiles(m, fs, fileOrder);
    assert q.sql[|q.sql| - 1] == ClearLocalExists(fileOrder[k]);
  }

  // ---------------------------------------------------------------- after a restart

  /** A path that was read back without interruption is live exactly when its file is there and it has several
      rows, or its only row is live: whatever the later rows say, their versions come back live. */
  lemma RestoredLiveExactlyWhen(t: Tables, minted: nat, fs: FS, p: Path)
    ensures var rs := RowsOf(t.rows, p);
      Live(ReadBack(Started(minted), t), fs, p) <==> fs.Exists(p) && (|rs| > 1 || (|rs| == 1 && rs[0].localExists))
  {
    RestoredFields(Started(minted), t.rows, p);
    RestoredFiles(Started(minted), t.rows, p);
  }

  /** The first scan after a start notices a change of a file with several rows, when it comes to it: the file
      gets one version more, the one on disk. */
  lemma ChangeAfterRestart(t: Tables, minted: nat, fs: FS, order: seq<Path>, k: nat)
    requires TablesOk(t, minted)
    requires var m := ReadBack(Started(minted), t);
      && AllTracked(m, order) && Distinct(order) && k < |order|
      && (forall i :: 0 <= i < k ==> Live(m, fs, order[i]))
    requires var rs := RowsOf(t.rows, order[k]);
      |rs| > 1 && fs.Exists(order[k]) && Int32(rs[|rs| - 1].modtime) != fs.Mtime(order[k])
    ensures var m, p, rs := ReadBack(Started(minted), t), order[k], RowsOf(t.rows, order[k]);
      var r := ScanFiles(m, fs, order[..k + 1]);
      && p in r.files && |r.files[p]| == |rs| + 1
      && r.files[p][|rs|].modtime == fs.Mtime(p) && r.files[p][|rs|].fileHash == Digest(fs.Content(p))
      && r.files[p][|rs|].localExists && !r.files[p][|rs|].remoteExists
  {
    var m, p := ReadBack(Started(minted), t), order[k];
    RestoredFields(Started(minted), t.rows, p);
    RestoredFiles(Started(minted), t.rows, p);
    RestoredLiveExactlyWhen(t, minted, fs, p);
    RestoreIndexed(Started(minted), t.rows, minted);
    IndexedElsewhere(RestoreRows(Started(minted), t.rows), m);
    ChangedFileIsRecorded(m, fs, order, k);
  }
}
