/** One scan reaches the closure of what is watched, and then there is nothing left to do. */
module Scanning {
  import opened Common
  import opened FileSystem
  import opened Index

  /** The latest version is live and is the one on disk. */
  predicate Current(m: Memory, fs: FS, p: Path) {
    && Tracked(m, p) && fs.Exists(p)
    && Last(m.files[p]).localExists && Last(m.files[p]).modtime == fs.Mtime(p)
  }

  predicate Live(m: Memory, fs: FS, p: Path) {
    Tracked(m, p) && fs.Exists(p) && Last(m.files[p]).localExists
  }

  /** What a directory holds is watched: its regular files, and if the watch is recursive its directories. */
  predicate EntryWatched(m: Memory, fs: FS, e: Path, recursive: bool) {
    && (fs.IsRegular(e) && !IsSwap(e) ==> e in m.files)
    && (fs.IsDirectory(e) && recursive ==> e in m.dirs)
  }

  predicate EntriesWatched(m: Memory, fs: FS, entries: seq<Path>, recursive: bool) {
    forall i :: 0 <= i < |entries| ==> EntryWatched(m, fs, entries[i], recursive)
  }

  ghost predicate Settled(m: Memory, fs: FS) {
    && (forall p :: p in m.files ==> Current(m, fs, p))
    && (forall d :: d in m.dirs ==> fs.IsDirectory(d) && EntriesWatched(m, fs, fs.Entries(d), m.dirs[d]))
  }

  /** Memory only grew, new files are current, and new directories are complete. */
  ghost predicate Grown(m: Memory, fs: FS, r: Memory) {
    && (forall f :: f in m.files ==> f in r.files && r.files[f] == m.files[f])
    && (forall d :: d in m.dirs ==> d in r.dirs && r.dirs[d] == m.dirs[d])
    && (forall f :: f in r.files && f !in m.files ==> Current(r, fs, f))
    && (forall d :: d in r.dirs && d !in m.dirs ==>
          fs.IsDirectory(d) && EntriesWatched(r, fs, fs.Entries(d), r.dirs[d]))
  }

  lemma GrownTransitive(m: Memory, fs: FS, r: Memory, q: Memory)
    requires Grown(m, fs, r) && Grown(r, fs, q)
    ensures Grown(m, fs, q)
  {}

  lemma WatchedStays(m: Memory, fs: FS, r: Memory, entries: seq<Path>, recursive: bool)
    requires Grown(m, fs, r) && EntriesWatched(m, fs, entries, recursive)
    ensures EntriesWatched(r, fs, entries, recursive)
  {}

  lemma AddFileGrows(m: Memory, fs: FS, p: Path)
    requires fs.IsRegular(p)
    ensures Grown(m, fs, AddFileWatch(m, fs, p)) && EntryWatched(AddFileWatch(m, fs, p), fs, p, true)
  {}

  /** Adding a directory makes it and everything new below it complete. */
  lemma {:induction false} AddDirGrows(m: Memory, fs: FS, p: Path, recursive: bool)
    requires fs.IsDirectory(p)
    ensures Grown(m, fs, AddDirWatch(m, fs, p, recursive)) && p in AddDirWatch(m, fs, p, recursive).dirs
    decreases fs.Depth(p), |fs.Entries(p)| + 1
  {
    if p !in m.dirs {
      var w := WatchDir(m, p, recursive);
      var r := AddDirWatch(m, fs, p, recursive);
      AddEntriesGrows(w, fs, p, fs.Entries(p), recursive);
      assert r.dirs[p] == w.dirs[p] == recursive;
      forall d | d in r.dirs && d !in m.dirs
        ensures fs.IsDirectory(d) && EntriesWatched(r, fs, fs.Entries(d), r.dirs[d])
      {}
    }
  }

  lemma {:induction false} AddEntriesGrows(m: Memory, fs: FS, parent: Path, entries: seq<Path>, recursive: bool)
    requires fs.Below(parent, entries)
    ensures var r := AddEntries(m, fs, parent, entries, recursive);
      Grown(m, fs, r) && EntriesWatched(r, fs, entries, recursive)
    decreases fs.Depth(parent), |entries|
  {
    if entries != [] {
      var e := entries[0];
      var m' := m;
      if fs.IsDirectory(e) && recursive {
        AddDirGrows(m, fs, e, true);
        m' := AddDirWatch(m, fs, e, true);
      } else if fs.IsRegular(e) {
        AddFileGrows(m, fs, e);
        m' := AddFileWatch(m, fs, e);
      }
      assert EntryWatched(m', fs, e, recursive);
      var r := AddEntries(m, fs, parent, entries, recursive);
      AddEntriesGrows(m', fs, parent, entries[1..], recursive);
      GrownTransitive(m, fs, m', r);
      forall i | 0 <= i < |entries| ensures EntryWatched(r, fs, entries[i], recursive) {
        if i > 0 {
          assert EntryWatched(r, fs, entries[1..][i - 1], recursive);
        }
      }
    }
  }

  lemma RefreshedIsCurrent(m: Memory, fs: FS, p: Path)
    requires Live(m, fs, p)
    ensures var r := Refreshed(m, fs, p);
      && Current(r, fs, p) && r.files.Keys == m.files.Keys
      && (forall q :: q in m.files && (q != p || Current(m, fs, p)) ==> r.files[q] == m.files[q])
  {}

  /** The file loop, when every tracked file is there: each file it visits ends up current, the others
      stay as they are. */
  lemma {:induction false} ScanFilesSettles(m: Memory, fs: FS, order: seq<Path>)
    requires forall p :: p in m.files ==> Live(m, fs, p)
    requires AllTracked(m, order)
    ensures var r := ScanFiles(m, fs, order);
      && r.files.Keys == m.files.Keys
      && (forall p :: p in r.files ==> Live(r, fs, p))
      && (forall p :: p in m.files && Current(m, fs, p) ==> r.files[p] == m.files[p])
      && (forall i :: 0 <= i < |order| ==> Current(r, fs, order[i]))
    decreases |order|
  {
    if order != [] {
      var p := order[0];
      var m', r := Refreshed(m, fs, p), ScanFiles(m, fs, order);
      RefreshedIsCurrent(m, fs, p);
      ScanFilesSettles(m', fs, order[1..]);
      assert r == ScanFiles(m', fs, order[1..]);
      forall i | 0 <= i < |order| ensures Current(r, fs, order[i]) {
        if i > 0 {
          assert Current(r, fs, order[1..][i - 1]);
        }
      }
    }
  }

  /** The directory loop, when every watched directory is there. */
  lemma {:induction false} ScanDirsSettles(m: Memory, fs: FS, order: seq<Path>)
    requires AllWatched(m, order)
    requires forall i :: 0 <= i < |order| ==> fs.Exists(order[i])
    ensures var r := ScanDirs(m, fs, order);
      && Grown(m, fs, r)
      && (forall i :: 0 <= i < |order| ==> EntriesWatched(r, fs, fs.Entries(order[i]), m.dirs[order[i]]))
    decreases |order|
  {
    if order != [] {
      var d := order[0];
      var m' := AddEntries(m, fs, d, fs.Entries(d), m.dirs[d]);
      AddEntriesGrows(m, fs, d, fs.Entries(d), m.dirs[d]);
      ScanDirsSettles(m', fs, order[1..]);
      var r := ScanDirs(m', fs, order[1..]);
      GrownTransitive(m, fs, m', r);
      WatchedStays(m', fs, r, fs.Entries(d), m.dirs[d]);
      forall i | 0 <= i < |order| ensures EntriesWatched(r, fs, fs.Entries(order[i]), m.dirs[order[i]]) {
        if i > 0 {
          assert EntriesWatched(r, fs, fs.Entries(order[1..][i - 1]), m'.dirs[order[1..][i - 1]]);
        }
      }
    }
  }

  /** An order in which a hash table with these keys can be iterated: every key once. */
  ghost predicate Covers(order: seq<Path>, keys: set<Path>) {
    Distinct(order) && forall p :: p in keys <==> p in order
  }

  /** When all tracked files are present and live and all watched directories are there, one scan, in
      whatever order, makes every tracked file current, tracks every regular file of a watched directory,
      and watches every directory below a recursive watch. */
  lemma ScanReachesClosure(m: Memory, fs: FS, fileOrder: seq<Path>, dirOrder: seq<Path>)
    requires forall p :: p in m.files ==> Live(m, fs, p)
    requires forall d :: d in m.dirs ==> fs.IsDirectory(d)
    requires Covers(fileOrder, m.files.Keys) && Covers(dirOrder, m.dirs.Keys)
    ensures AllTracked(m, fileOrder) && AllWatched(m, dirOrder)
    ensures Settled(Scan(m, fs, fileOrder, dirOrder), fs)
  {
    assert forall i :: 0 <= i < |fileOrder| ==> fileOrder[i] in fileOrder;
    assert forall i :: 0 <= i < |dirOrder| ==> dirOrder[i] in dirOrder;
    ScanFilesKeepsDirs(m, fs, fileOrder);
    ScanFilesSettles(m, fs, fileOrder);
    var middle := ScanFiles(m, fs, fileOrder);
    ScanDirsSettles(middle, fs, dirOrder);
    var r := ScanDirs(middle, fs, dirOrder);
    forall p | p in r.files ensures Current(r, fs, p) {
      if p in middle.files {
        var i :| 0 <= i < |fileOrder| && fileOrder[i] == p;
        assert Current(middle, fs, fileOrder[i]);
      }
    }
    forall d | d in r.dirs ensures fs.IsDirectory(d) && EntriesWatched(r, fs, fs.Entries(d), r.dirs[d]) {
      if d in middle.dirs {
        var i :| 0 <= i < |dirOrder| && dirOrder[i] == d;
        assert EntriesWatched(r, fs, fs.Entries(dirOrder[i]), middle.dirs[dirOrder[i]]);
      }
    }
  }

  lemma {:induction false} WatchedAddsNothing(m: Memory, fs: FS, parent: Path, entries: seq<Path>, recursive: bool)
    requires fs.Below(parent, entries) && EntriesWatched(m, fs, entries, recursive)
    ensures AddEntries(m, fs, parent, entries, recursive) == m
    decreases |entries|
  {
    if entries != [] {
      assert EntryWatched(m, fs, entries[0], recursive);
      assert EntriesWatched(m, fs, entries[1..], recursive) by {
        forall i | 0 <= i < |entries[1..]| ensures EntryWatched(m, fs, entries[1..][i], recursive) {
          assert EntryWatched(m, fs, entries[i + 1], recursive);
        }
      }
      WatchedAddsNothing(m, fs, parent, entries[1..], recursive);
    }
  }

  lemma {:induction false} SettledFilesStay(m: Memory, fs: FS, order: seq<Path>)
    requires Settled(m, fs) && AllTracked(m, order)
    ensures ScanFiles(m, fs, order) == m
    decreases |order|
  {
    if order != [] {
      assert Current(m, fs, order[0]);
      SettledFilesStay(m, fs, order[1..]);
    }
  }

  lemma {:induction false} SettledDirsStay(m: Memory, fs: FS, order: seq<Path>)
    requires Settled(m, fs) && AllWatched(m, order)
    ensures ScanDirs(m, fs, order) == m
    decreases |order|
  {
    if order != [] {
      var d := order[0];
      WatchedAddsNothing(m, fs, d, fs.Entries(d), m.dirs[d]);
      SettledDirsStay(m, fs, order[1..]);
    }
  }

  /** A scan of a file system that did not change since the last one changes nothing: no index, no queue
      and no SQL, whatever the order. */
  lemma SecondScanIsIdle(m: Memory, fs: FS, fileOrder: seq<Path>, dirOrder: seq<Path>)
    requires Settled(m, fs) && AllTracked(m, fileOrder) && AllWatched(m, dirOrder)
    ensures Scan(m, fs, fileOrder, dirOrder) == m
  {
    SettledFilesStay(m, fs, fileOrder);
    SettledDirsStay(m, fs, dirOrder);
  }

  lemma {:induction false} CurrentStays(m: Memory, fs: FS, order: seq<Path>, p: Path)
    requires AllTracked(m, order) && Current(m, fs, p)
    ensures var r := ScanFiles(m, fs, order); p in r.files && r.files[p] == m.files[p]
    decreases |order|
  {
    if order != [] && Last(m.files[order[0]]).localExists && fs.Exists(order[0]) {
      CurrentStays(Refreshed(m, fs, order[0]), fs, order[1..], p);
    }
  }

  /** Whatever the order, the scan notices every change of a file that is live and present. */
  ghost predicate SeesEveryChange(m: Memory, fs: FS) {
    forall order :: Covers(order, m.files.Keys) && AllTracked(m, order) ==>
      forall p :: p in m.files && Live(m, fs, p) ==> Current(ScanFiles(m, fs, order), fs, p)
  }

  lemma DistinctCons(p: Path, rest: seq<Path>)
    requires Distinct(rest) && p !in rest
    ensures Distinct([p] + rest)
  {
    var order := [p] + rest;
    forall i, j | 0 <= i < j < |order| ensures order[i] != order[j] {
      assert order[j] == rest[j - 1] && order[j] in rest;
    }
  }

  lemma SomeOrder(keys: set<Path>) returns (order: seq<Path>)
    ensures Covers(order, keys)
    decreases |keys|
  {
    if keys == {} {
      order := [];
    } else {
      var p :| p in keys;
      var rest := SomeOrder(keys - {p});
      order := [p] + rest;
      forall q ensures q in keys <==> q in order {}
      DistinctCons(p, rest);
    }
  }

  lemma AllLiveSeen(m: Memory, fs: FS)
    requires forall p :: p in m.files ==> Live(m, fs, p)
    ensures SeesEveryChange(m, fs)
  {
    forall order, p | Covers(order, m.files.Keys) && AllTracked(m, order) && p in m.files && Live(m, fs, p)
      ensures Current(ScanFiles(m, fs, order), fs, p)
    {
      ScanFilesSettles(m, fs, order);
      var i :| 0 <= i < |order| && order[i] == p;
      assert Current(ScanFiles(m, fs, order), fs, order[i]);
    }
  }

  lemma NothingToSee(m: Memory, fs: FS)
    requires forall p :: p in m.files && Live(m, fs, p) ==> Current(m, fs, p)
    ensures SeesEveryChange(m, fs)
  {
    forall order, p | Covers(order, m.files.Keys) && AllTracked(m, order) && p in m.files && Live(m, fs, p)
      ensures Current(ScanFiles(m, fs, order), fs, p)
    {
      CurrentStays(m, fs, order, p);
    }
  }

  /** An order that starts with a given key. */
  lemma OrderFrom(keys: set<Path>, q: Path) returns (order: seq<Path>)
    requires q in keys
    ensures Covers(order, keys) && order != [] && order[0] == q
    ensures forall i :: 0 <= i < |order| ==> order[i] in keys
  {
    var rest := SomeOrder(keys - {q});
    order := [q] + rest;
    forall x ensures x in keys <==> x in order {}
    DistinctCons(q, rest);
    forall i | 0 <= i < |order| ensures order[i] in keys {
      assert order[i] in order;
    }
  }

  lemma ChangeMissed(m: Memory, fs: FS, q: Path, p: Path)
    requires forall x :: x in m.files ==> Tracked(m, x)
    requires q in m.files && !Live(m, fs, q) && p in m.files && Live(m, fs, p) && !Current(m, fs, p)
    ensures !SeesEveryChange(m, fs)
  {
    var order := OrderFrom(m.files.Keys, q);
    assert AllTracked(m, order);
    assert ScanFiles(m, fs, order).files[p] == m.files[p];
    assert !Current(ScanFiles(m, fs, order), fs, p);
  }

  /** The loops leave at the first file that is not live or not there.  So the scan can be relied on to
      notice changes exactly when there is no such file, or no change to notice. */
  lemma ScanSeesEveryChangeExactlyWhen(m: Memory, fs: FS)
    requires forall p :: p in m.files ==> Tracked(m, p)
    ensures SeesEveryChange(m, fs) <==>
      || (forall p :: p in m.files ==> Live(m, fs, p))
      || (forall p :: p in m.files && Live(m, fs, p) ==> Current(m, fs, p))
  {
    if forall p :: p in m.files ==> Live(m, fs, p) {
      AllLiveSeen(m, fs);
    } else if forall p :: p in m.files && Live(m, fs, p) ==> Current(m, fs, p) {
      NothingToSee(m, fs);
    } else {
      var q :| q in m.files && !Live(m, fs, q);
      var p :| p in m.files && Live(m, fs, p) && !Current(m, fs, p);
      ChangeMissed(m, fs, q, p);
    }
  }

  // ---------------------------------------------------------------- directories that have gone

  /** Every watched directory that is there has all it holds watched. */
  ghost predicate EntriesSeen(m: Memory, fs: FS, r: Memory) {
    forall d :: d in m.dirs && fs.Exists(d) ==> EntriesWatched(r, fs, fs.Entries(d), m.dirs[d])
  }

  /** Whatever the order, the scan notices everything new in the watched directories that are there. */
  ghost predicate SeesEveryEntry(m: Memory, fs: FS) {
    forall order :: Covers(order, m.dirs.Keys) && AllWatched(m, order) ==> EntriesSeen(m, fs, ScanDirs(m, fs, order))
  }

  /** When all that is there is watched already, the scan adds nothing. */
  lemma {:induction false} SeenStays(m: Memory, fs: FS, order: seq<Path>)
    requires AllWatched(m, order) && EntriesSeen(m, fs, m)
    ensures EntriesSeen(m, fs, ScanDirs(m, fs, order))
    decreases |order|
  {
    if order != [] {
      var d := order[0];
      if fs.Exists(d) {
        WatchedAddsNothing(m, fs, d, fs.Entries(d), m.dirs[d]);
        SeenStays(m, fs, order[1..]);
      } else {
        forall x | x in m.dirs && fs.Exists(x)
          ensures EntriesWatched(UnwatchDir(m, d), fs, fs.Entries(x), m.dirs[x])
        {
          assert EntriesWatched(m, fs, fs.Entries(x), m.dirs[x]);
        }
      }
    }
  }

  lemma AllThereSeen(m: Memory, fs: FS)
    requires forall d :: d in m.dirs ==> fs.Exists(d)
    ensures SeesEveryEntry(m, fs)
  {
    forall order, d | Covers(order, m.dirs.Keys) && AllWatched(m, order) && d in m.dirs
      ensures EntriesWatched(ScanDirs(m, fs, order), fs, fs.Entries(d), m.dirs[d])
    {
      ScanDirsSettles(m, fs, order);
      var i :| 0 <= i < |order| && order[i] == d;
      assert EntriesWatched(ScanDirs(m, fs, order), fs, fs.Entries(order[i]), m.dirs[order[i]]);
    }
  }

  lemma EntryMissed(m: Memory, fs: FS, g: Path)
    requires g in m.dirs && !fs.Exists(g) && !EntriesSeen(m, fs, m)
    ensures !SeesEveryEntry(m, fs)
  {
    var order := OrderFrom(m.dirs.Keys, g);
    assert AllWatched(m, order);
    var d :| d in m.dirs && fs.Exists(d) && !EntriesWatched(m, fs, fs.Entries(d), m.dirs[d]);
    var i :| 0 <= i < |fs.Entries(d)| && !EntryWatched(m, fs, fs.Entries(d)[i], m.dirs[d]);
    var r := ScanDirs(m, fs, order);
    assert r == UnwatchDir(m, g);
    assert !EntryWatched(r, fs, fs.Entries(d)[i], m.dirs[d]);
    assert !EntriesSeen(m, fs, r);
  }

  /** The loop over the directories leaves at the first that has gone.  So the scan can be relied on to notice
      what is new in the others exactly when there is no such directory, or nothing new. */
  lemma ScanSeesEveryEntryExactlyWhen(m: Memory, fs: FS)
    ensures SeesEveryEntry(m, fs) <==> (forall d :: d in m.dirs ==> fs.Exists(d)) || EntriesSeen(m, fs, m)
  {
    if forall d :: d in m.dirs ==> fs.Exists(d) {
      AllThereSeen(m, fs);
    } else if EntriesSeen(m, fs, m) {
      forall order | Covers(order, m.dirs.Keys) && AllWatched(m, order)
        ensures EntriesSeen(m, fs, ScanDirs(m, fs, order))
      {
        SeenStays(m, fs, order);
      }
    } else {
      var g :| g in m.dirs && !fs.Exists(g);
      EntryMissed(m, fs, g);
    }
  }

  lemma {:induction false} ScanFilesKeepsPaths(m: Memory, fs: FS, order: seq<Path>)
    requires AllTracked(m, order)
    ensures ScanFiles(m, fs, order).files.Keys == m.files.Keys
    decreases |order|
  {
    if order != [] && Last(m.files[order[0]]).localExists && fs.Exists(order[0]) {
      ScanFilesKeepsPaths(Refreshed(m, fs, order[0]), fs, order[1..]);
    }
  }

  /** What the first half of a scan does, or leaves undone, makes no difference to that. */
  lemma FilesDoNotHideEntries(m: Memory, fs: FS, order: seq<Path>)
    requires AllTracked(m, order)
    ensures SeesEveryEntry(ScanFiles(m, fs, order), fs) <==> SeesEveryEntry(m, fs)
  {
    var r := ScanFiles(m, fs, order);
    ScanFilesKeepsPaths(m, fs, order);
    ScanFilesKeepsDirs(m, fs, order);
    ScanSeesEveryEntryExactlyWhen(m, fs);
    ScanSeesEveryEntryExactlyWhen(r, fs);
    assert forall e, recursive :: EntryWatched(m, fs, e, recursive) <==> EntryWatched(r, fs, e, recursive);
    assert EntriesSeen(m, fs, m) <==> EntriesSeen(r, fs, r);
  }
}
