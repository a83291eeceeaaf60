/** The smallest changes a watcher operation makes to memory, and every operation as a sequence of them.
    The state machine interleaves these small steps with the other threads' steps. */
module Steps {
  import opened Common
  import opened FileSystem
  import opened Index

  datatype Step =
    | NewVersion(path: Path)
    | Forget(path: Path)
    | WatchDirectory(path: Path, recursive: bool)
    | UnwatchDirectory(path: Path)
    | Gone(path: Path)

  predicate Legal(m: Memory, fs: FS, step: Step) {
    match step
    case NewVersion(p) =>
      fs.Exists(p) && (p in m.files ==> m.files[p] != [] && Last(m.files[p]).modtime != fs.Mtime(p))
    case Forget(p) => true
    case WatchDirectory(p, _) => p !in m.dirs
    case UnwatchDirectory(p) => true
    case Gone(p) => Tracked(m, p)
  }

  function Play(m: Memory, fs: FS, step: Step): Memory
    requires Legal(m, fs, step)
  {
    match step
    case NewVersion(p) => AddFileVersion(if p in m.files then Supersede(m, p) else m, fs, p)
    case Forget(p) => DelFileWatch(m, p)
    case WatchDirectory(p, recursive) => WatchDir(m, p, recursive)
    case UnwatchDirectory(p) => UnwatchDir(m, p)
    case Gone(p) => MarkGone(m, p)
  }

  /** The steps that requests to add and to delete are made of, and new files and directories; the others
      are only taken by a scan of what is tracked already. */
  predicate Served(m: Memory, step: Step) {
    !step.Gone? && (step.NewVersion? ==> step.path !in m.files)
  }

  /** With `served` set, only steps of requests. */
  predicate LegalAll(m: Memory, fs: FS, steps: seq<Step>, served: bool)
    decreases |steps|
  {
    steps == []
    || (Legal(m, fs, steps[0]) && (served ==> Served(m, steps[0]))
        && LegalAll(Play(m, fs, steps[0]), fs, steps[1..], served))
  }

  function PlayAll(m: Memory, fs: FS, steps: seq<Step>): Memory
    requires LegalAll(m, fs, steps, false)
    decreases |steps|
  {
    if steps == [] then m else PlayAll(Play(m, fs, steps[0]), fs, steps[1..])
  }

  /** `r` is reached from `m` by legal small steps on the snapshot `fs`. */
  ghost predicate Reaches(m: Memory, fs: FS, r: Memory, served: bool) {
    exists steps :: LegalAll(m, fs, steps, served) && Yields(m, fs, steps, r)
  }

  ghost predicate Yields(m: Memory, fs: FS, steps: seq<Step>, r: Memory) {
    LegalAll(m, fs, steps, false) && PlayAll(m, fs, steps) == r
  }

  lemma {:induction false} LegalAnyway(m: Memory, fs: FS, steps: seq<Step>)
    requires LegalAll(m, fs, steps, true)
    ensures LegalAll(m, fs, steps, false)
    decreases |steps|
  {
    if steps != [] {
      LegalAnyway(Play(m, fs, steps[0]), fs, steps[1..]);
    }
  }

  lemma ReachesAnyway(m: Memory, fs: FS, r: Memory)
    requires Reaches(m, fs, r, true)
    ensures Reaches(m, fs, r, false)
  {
    var steps :| LegalAll(m, fs, steps, true) && Yields(m, fs, steps, r);
    LegalAnyway(m, fs, steps);
  }

  lemma ReachesSelf(m: Memory, fs: FS, served: bool)
    ensures Reaches(m, fs, m, served)
  {
    assert LegalAll(m, fs, [], served) && Yields(m, fs, [], m);
  }

  lemma ReachesStep(m: Memory, fs: FS, step: Step, served: bool)
    requires Legal(m, fs, step) && (served ==> Served(m, step))
    ensures Reaches(m, fs, Play(m, fs, step), served)
  {
    var r := Play(m, fs, step);
    assert [step][1..] == [];
    assert LegalAll(r, fs, [], served) && LegalAll(r, fs, [], false);
    assert LegalAll(m, fs, [step], served) && Yields(m, fs, [step], r);
  }

  lemma {:induction false} PlayConcat(m: Memory, fs: FS, a: seq<Step>, r: Memory, b: seq<Step>, q: Memory, served: bool)
    requires LegalAll(m, fs, a, served) && Yields(m, fs, a, r) && LegalAll(r, fs, b, served) && Yields(r, fs, b, q)
    ensures LegalAll(m, fs, a + b, served) && Yields(m, fs, a + b, q)
    decreases |a|
  {
    if a == [] {
      assert a + b == b;
    } else {
      assert (a + b)[1..] == a[1..] + b;
      PlayConcat(Play(m, fs, a[0]), fs, a[1..], r, b, q, served);
    }
  }

  lemma ReachesTransitive(m: Memory, fs: FS, r: Memory, q: Memory, served: bool)
    requires Reaches(m, fs, r, served) && Reaches(r, fs, q, served)
    ensures Reaches(m, fs, q, served)
  {
    var a :| LegalAll(m, fs, a, served) && Yields(m, fs, a, r);
    var b :| LegalAll(r, fs, b, served) && Yields(r, fs, b, q);
    PlayConcat(m, fs, a, r, b, q, served);
  }

  lemma AddFileWatchReaches(m: Memory, fs: FS, p: Path)
    requires fs.Exists(p)
    ensures Reaches(m, fs, AddFileWatch(m, fs, p), true)
  {
    if IsSwap(p) || p in m.files {
      ReachesSelf(m, fs, true);
    } else {
      ReachesStep(m, fs, NewVersion(p), true);
    }
  }

  lemma {:induction false} AddDirWatchReaches(m: Memory, fs: FS, p: Path, recursive: bool)
    ensures Reaches(m, fs, AddDirWatch(m, fs, p, recursive), true)
    decreases fs.Depth(p), |fs.Entries(p)| + 1
  {
    if p in m.dirs {
      ReachesSelf(m, fs, true);
    } else {
      ReachesStep(m, fs, WatchDirectory(p, recursive), true);
      var m' := WatchDir(m, p, recursive);
      AddEntriesReaches(m', fs, p, fs.Entries(p), recursive);
      ReachesTransitive(m, fs, m', AddDirWatch(m, fs, p, recursive), true);
    }
  }

  lemma {:induction false} AddEntriesReaches(
      m: Memory, fs: FS, parent: Path, entries: seq<Path>, recursive: bool)
    requires fs.Below(parent, entries)
    ensures Reaches(m, fs, AddEntries(m, fs, parent, entries, recursive), true)
    decreases fs.Depth(parent), |entries|
  {
    if entries == [] {
      ReachesSelf(m, fs, true);
    } else {
      var e := entries[0];
      var m' := m;
      if fs.IsDirectory(e) && recursive {
        AddDirWatchReaches(m, fs, e, true);
        m' := AddDirWatch(m, fs, e, true);
      } else if fs.IsRegular(e) {
        AddFileWatchReaches(m, fs, e);
        m' := AddFileWatch(m, fs, e);
      } else {
        ReachesSelf(m, fs, true);
      }
      AddEntriesReaches(m', fs, parent, entries[1..], recursive);
      ReachesTransitive(m, fs, m', AddEntries(m, fs, parent, entries, recursive), true);
    }
  }

  lemma {:induction false} DelDirWatchReaches(m: Memory, fs: FS, p: Path, recursive: bool)
    ensures Reaches(m, fs, DelDirWatch(m, fs, p, recursive), true)
    decreases fs.Depth(p), |fs.Entries(p)| + 1
  {
    DelEntriesReaches(m, fs, p, fs.Entries(p), recursive);
    var m' := DelEntries(m, fs, p, fs.Entries(p), recursive);
    ReachesStep(m', fs, UnwatchDirectory(p), true);
    ReachesTransitive(m, fs, m', DelDirWatch(m, fs, p, recursive), true);
  }

  lemma {:induction false} DelEntriesReaches(
      m: Memory, fs: FS, parent: Path, entries: seq<Path>, recursive: bool)
    requires fs.Below(parent, entries)
    ensures Reaches(m, fs, DelEntries(m, fs, parent, entries, recursive), true)
    decreases fs.Depth(parent), |entries|
  {
    if entries == [] {
      ReachesSelf(m, fs, true);
    } else {
      var e := entries[0];
      var m' := m;
      if fs.IsDirectory(e) && recursive {
        DelDirWatchReaches(m, fs, e, true);
        m' := DelDirWatch(m, fs, e, true);
      } else if fs.IsRegular(e) {
        ReachesStep(m, fs, Forget(e), true);
        m' := DelFileWatch(m, e);
      } else {
        ReachesSelf(m, fs, true);
      }
      DelEntriesReaches(m', fs, parent, entries[1..], recursive);
      ReachesTransitive(m, fs, m', DelEntries(m, fs, parent, entries, recursive), true);
    }
  }

  lemma {:induction false} ScanFilesReaches(m: Memory, fs: FS, order: seq<Path>)
    requires AllTracked(m, order)
    ensures Reaches(m, fs, ScanFiles(m, fs, order), false)
    decreases |order|
  {
    ReachesSelf(m, fs, false);
    if order != [] && Last(m.files[order[0]]).localExists {
      var p := order[0];
      if !fs.Exists(p) {
        ReachesStep(m, fs, Gone(p), false);
      } else if fs.Mtime(p) != Last(m.files[p]).modtime {
        ReachesStep(m, fs, NewVersion(p), false);
        var m' := AddFileVersion(Supersede(m, p), fs, p);
        ScanFilesReaches(m', fs, order[1..]);
        ReachesTransitive(m, fs, m', ScanFiles(m, fs, order), false);
      } else {
        ScanFilesReaches(m, fs, order[1..]);
      }
    }
  }

  lemma {:induction false} ScanDirsReaches(m: Memory, fs: FS, order: seq<Path>)
    requires AllWatched(m, order)
    ensures Reaches(m, fs, ScanDirs(m, fs, order), false)
    decreases |order|
  {
    ReachesSelf(m, fs, false);
    if order != [] {
      var d := order[0];
      if !fs.Exists(d) {
        ReachesStep(m, fs, UnwatchDirectory(d), false);
      } else {
        AddEntriesReaches(m, fs, d, fs.Entries(d), m.dirs[d]);
        var m' := AddEntries(m, fs, d, fs.Entries(d), m.dirs[d]);
        ReachesAnyway(m, fs, m');
        ScanDirsReaches(m', fs, order[1..]);
        ReachesTransitive(m, fs, m', ScanDirs(m, fs, order), false);
      }
    }
  }

  /** Adding a watch, deleting one and scanning, in whatever order the tables are iterated, are made of
      legal small steps only, the first two of steps of requests. */
  lemma OperationsAreSteps(m: Memory, fs: FS, p: Path, recursive: bool, fileOrder: seq<Path>, dirOrder: seq<Path>)
    ensures Reaches(m, fs, AddWatch(m, fs, p, recursive), true)
    ensures Reaches(m, fs, DelWatch(m, fs, p, recursive), true)
    ensures AllTracked(m, fileOrder) && AllWatched(m, dirOrder) ==>
      Reaches(m, fs, Scan(m, fs, fileOrder, dirOrder), false)
  {
    ReachesSelf(m, fs, true);
    if fs.IsDirectory(p) {
      AddDirWatchReaches(m, fs, p, recursive);
      DelDirWatchReaches(m, fs, p, recursive);
    } else if fs.IsRegular(p) {
      AddFileWatchReaches(m, fs, p);
      ReachesStep(m, fs, Forget(p), true);
    }
    if AllTracked(m, fileOrder) && AllWatched(m, dirOrder) {
      ScanReaches(m, fs, fileOrder, dirOrder);
    }
  }

  lemma ScanReaches(m: Memory, fs: FS, fileOrder: seq<Path>, dirOrder: seq<Path>)
    requires AllTracked(m, fileOrder) && AllWatched(m, dirOrder)
    ensures Reaches(m, fs, Scan(m, fs, fileOrder, dirOrder), false)
  {
    ScanFilesKeepsDirs(m, fs, fileOrder);
    ScanFilesReaches(m, fs, fileOrder);
    ScanDirsReaches(ScanFiles(m, fs, fileOrder), fs, dirOrder);
    ReachesTransitive(m, fs, ScanFiles(m, fs, fileOrder), Scan(m, fs, fileOrder, dirOrder), false);
  }
}
