/** Deleting a directory recursively undoes adding it recursively: on an untracked tree the index is as it
    was before, and exactly the names that were drawn are queued for deletion.  Without recursion, both only
    touch the directory itself and its regular files. */
module Undo {
  import opened Common
  import opened FileSystem
  import opened Index
  import opened IndexInvariant

  /** The regular files below a directory, in the order of the traversal. */
  function FilesUnder(fs: FS, p: Path): seq<Path>
    decreases fs.Depth(p), |fs.Entries(p)| + 1
  {
    FilesIn(fs, p, fs.Entries(p))
  }

  function FilesIn(fs: FS, parent: Path, entries: seq<Path>): seq<Path>
    requires fs.Below(parent, entries)
    decreases fs.Depth(parent), |entries|
  {
    if entries == [] then []
    else
      var e := entries[0];
      (if fs.IsDirectory(e) then FilesUnder(fs, e) else if fs.IsRegular(e) then [e] else [])
      + FilesIn(fs, parent, entries[1..])
  }

  /** A directory and the directories below it. */
  function DirsUnder(fs: FS, p: Path): seq<Path>
    decreases fs.Depth(p), |fs.Entries(p)| + 1
  {
    [p] + DirsIn(fs, p, fs.Entries(p))
  }

  function DirsIn(fs: FS, parent: Path, entries: seq<Path>): seq<Path>
    requires fs.Below(parent, entries)
    decreases fs.Depth(parent), |entries|
  {
    if entries == [] then []
    else
      var e := entries[0];
      (if fs.IsDirectory(e) then DirsUnder(fs, e) else []) + DirsIn(fs, parent, entries[1..])
  }

  // ---------------------------------------------------------------- trees have no repetitions

  /** A path and everything below it. */
  function Inside(fs: FS, p: Path): (r: set<Path>)
    ensures p in r
    decreases fs.Depth(p), |fs.Entries(p)| + 1
  {
    {p} + InsideAll(fs, p, fs.Entries(p))
  }

  function InsideAll(fs: FS, parent: Path, entries: seq<Path>): (r: set<Path>)
    requires fs.Below(parent, entries)
    decreases fs.Depth(parent), |entries|
  {
    if entries == [] then {} else Inside(fs, entries[0]) + InsideAll(fs, parent, entries[1..])
  }

  lemma {:induction false} InsideIsDeeper(fs: FS, p: Path, x: Path)
    requires x in Inside(fs, p)
    ensures x == p || |x| > |p|
    ensures x != p ==> exists q :: q in Inside(fs, p) && x in fs.Entries(q)
    decreases fs.Depth(p), |fs.Entries(p)| + 1
  {
    if x != p {
      InsideAllIsDeeper(fs, p, fs.Entries(p), x);
    }
  }

  lemma {:induction false} InsideAllIsDeeper(fs: FS, p: Path, entries: seq<Path>, x: Path)
    requires fs.Below(p, entries) && x in InsideAll(fs, p, entries)
    ensures |x| > |p|
    ensures x in entries || exists q :: q in InsideAll(fs, p, entries) && x in fs.Entries(q)
    decreases fs.Depth(p), |entries|
  {
    if x in Inside(fs, entries[0]) {
      InsideIsDeeper(fs, entries[0], x);
    } else {
      InsideAllIsDeeper(fs, p, entries[1..], x);
    }
  }

  lemma InsideEntry(fs: FS, p: Path, entries: seq<Path>, i: nat)
    requires fs.Below(p, entries) && i < |entries|
    ensures Inside(fs, entries[i]) <= InsideAll(fs, p, entries)
    decreases |entries|
  {
    if i > 0 {
      InsideEntry(fs, p, entries[1..], i - 1);
    }
  }

  /** In a tree, what is inside two paths has one of them inside the other. */
  lemma {:induction false} InsideNests(fs: FS, a: Path, b: Path, x: Path)
    requires fs.IsTree() && x in Inside(fs, a) && x in Inside(fs, b)
    ensures a in Inside(fs, b) || b in Inside(fs, a)
    decreases |x|
  {
    InsideIsDeeper(fs, a, x);
    InsideIsDeeper(fs, b, x);
    if x != a && x != b {
      var q :| q in Inside(fs, a) && x in fs.Entries(q);
      var r :| r in Inside(fs, b) && x in fs.Entries(r);
      assert q == r;
      InsideNests(fs, a, b, q);
    }
  }

  lemma SiblingsApart(fs: FS, p: Path, a: Path, b: Path)
    requires fs.IsTree() && a in fs.Entries(p) && b in fs.Entries(p) && a != b
    ensures Inside(fs, a) !! Inside(fs, b)
  {
    forall x | x in Inside(fs, a) ensures x !in Inside(fs, b) {
      if x in Inside(fs, b) {
        InsideNests(fs, a, b, x);
        var (low, high) := if a in Inside(fs, b) then (a, b) else (b, a);
        InsideIsDeeper(fs, high, low);
        var q :| q in Inside(fs, high) && low in fs.Entries(q);
        assert q == p;
        InsideIsDeeper(fs, high, p);
        assert false;
      }
    }
  }

  lemma {:induction false} ListsInside(fs: FS, p: Path, x: Path)
    ensures x in FilesUnder(fs, p) || x in DirsUnder(fs, p) ==> x in Inside(fs, p)
    decreases fs.Depth(p), |fs.Entries(p)| + 1
  {
    ListsInsideAll(fs, p, fs.Entries(p), x);
  }

  lemma {:induction false} ListsInsideAll(fs: FS, p: Path, entries: seq<Path>, x: Path)
    requires fs.Below(p, entries)
    ensures x in FilesIn(fs, p, entries) || x in DirsIn(fs, p, entries) ==> x in InsideAll(fs, p, entries)
    decreases fs.Depth(p), |entries|
  {
    if entries != [] {
      ListsInside(fs, entries[0], x);
      ListsInsideAll(fs, p, entries[1..], x);
    }
  }

  lemma DistinctConcat(a: seq<Path>, b: seq<Path>)
    requires Distinct(a) && Distinct(b) && forall x :: x in a ==> x !in b
    ensures Distinct(a + b)
  {
    forall i, j | 0 <= i < j < |a + b| ensures (a + b)[i] != (a + b)[j] {
      if i < |a| && j >= |a| {
        assert a[i] in a && b[j - |a|] in b;
      }
    }
  }

  /** In a tree no file and no directory is visited twice. */
  lemma {:induction false} ListsDistinct(fs: FS, p: Path)
    requires fs.IsTree()
    ensures Distinct(FilesUnder(fs, p)) && Distinct(DirsUnder(fs, p))
    decreases fs.Depth(p), |fs.Entries(p)| + 1
  {
    ListsDistinctAll(fs, p, fs.Entries(p));
    forall x | x in DirsIn(fs, p, fs.Entries(p)) ensures x != p {
      ListsInsideAll(fs, p, fs.Entries(p), x);
      InsideAllIsDeeper(fs, p, fs.Entries(p), x);
    }
    DistinctConcat([p], DirsIn(fs, p, fs.Entries(p)));
  }

  lemma {:induction false} ListsDistinctAll(fs: FS, p: Path, entries: seq<Path>)
    requires fs.IsTree() && fs.Below(p, entries) && Distinct(entries)
    requires forall e :: e in entries ==> e in fs.Entries(p)
    ensures Distinct(FilesIn(fs, p, entries)) && Distinct(DirsIn(fs, p, entries))
    decreases fs.Depth(p), |entries|
  {
    if entries != [] {
      var e, rest := entries[0], entries[1..];
      ListsDistinct(fs, e);
      ListsDistinctAll(fs, p, rest);
      forall x | x in Inside(fs, e) ensures x !in InsideAll(fs, p, rest) {
        ApartFromRest(fs, p, e, rest, x);
      }
      forall x ensures x in FilesUnder(fs, e) || x in DirsUnder(fs, e) ==> x in Inside(fs, e) {
        ListsInside(fs, e, x);
      }
      forall x ensures x in FilesIn(fs, p, rest) || x in DirsIn(fs, p, rest) ==> x in InsideAll(fs, p, rest) {
        ListsInsideAll(fs, p, rest, x);
      }
      var files := if fs.IsDirectory(e) then FilesUnder(fs, e) else if fs.IsRegular(e) then [e] else [];
      DistinctConcat(files, FilesIn(fs, p, rest));
      DistinctConcat(if fs.IsDirectory(e) then DirsUnder(fs, e) else [], DirsIn(fs, p, rest));
    }
  }

  lemma {:induction false} ApartFromRest(fs: FS, p: Path, e: Path, rest: seq<Path>, x: Path)
    requires fs.IsTree() && fs.Below(p, rest) && e in fs.Entries(p)
    requires forall r :: r in rest ==> r in fs.Entries(p) && r != e
    requires x in Inside(fs, e)
    ensures x !in InsideAll(fs, p, rest)
    decreases |rest|
  {
    if rest != [] {
      SiblingsApart(fs, p, e, rest[0]);
      ApartFromRest(fs, p, e, rest[1..], x);
    }
  }

  // ---------------------------------------------------------------- traversals as loops over lists

  /** Memory but for the directory index and the pending SQL. */
  function Rest(m: Memory): Memory {
    m.(dirs := map[], sql := [])
  }

  function AddFiles(m: Memory, fs: FS, files: seq<Path>): Memory
    decreases |files|
  {
    if files == [] then m else AddFiles(AddFileWatch(m, fs, files[0]), fs, files[1..])
  }

  function DelFiles(m: Memory, files: seq<Path>): Memory
    decreases |files|
  {
    if files == [] then m else DelFiles(DelFileWatch(m, files[0]), files[1..])
  }

  lemma {:induction false} AddFilesConcat(m: Memory, fs: FS, a: seq<Path>, b: seq<Path>)
    ensures AddFiles(m, fs, a + b) == AddFiles(AddFiles(m, fs, a), fs, b)
    decreases |a|
  {
    if a == [] {
      assert a + b == b;
    } else {
      assert (a + b)[1..] == a[1..] + b;
      AddFilesConcat(AddFileWatch(m, fs, a[0]), fs, a[1..], b);
    }
  }

  lemma {:induction false} DelFilesConcat(m: Memory, a: seq<Path>, b: seq<Path>)
    ensures DelFiles(m, a + b) == DelFiles(DelFiles(m, a), b)
    decreases |a|
  {
    if a == [] {
      assert a + b == b;
    } else {
      assert (a + b)[1..] == a[1..] + b;
      DelFilesConcat(DelFileWatch(m, a[0]), a[1..], b);
    }
  }

  lemma {:induction false} AddFilesRest(m: Memory, fs: FS, files: seq<Path>)
    ensures Rest(AddFiles(m, fs, files)) == Rest(AddFiles(Rest(m), fs, files))
    ensures AddFiles(m, fs, files).dirs == m.dirs
    decreases |files|
  {
    if files != [] {
      AddFilesRest(AddFileWatch(m, fs, files[0]), fs, files[1..]);
      AddFilesRest(AddFileWatch(Rest(m), fs, files[0]), fs, files[1..]);
    }
  }

  lemma {:induction false} DelFilesRest(m: Memory, files: seq<Path>)
    ensures Rest(DelFiles(m, files)) == Rest(DelFiles(Rest(m), files))
    ensures DelFiles(m, files).dirs == m.dirs
    decreases |files|
  {
    if files != [] {
      DelFilesRest(DelFileWatch(m, files[0]), files[1..]);
      DelFilesRest(DelFileWatch(Rest(m), files[0]), files[1..]);
    }
  }

  /** The directory index grew by recursive watches of these directories. */
  ghost predicate WatchesAdded(m: Memory, dirs: seq<Path>, r: Memory) {
    && (forall d :: d in r.dirs <==> d in m.dirs || d in dirs)
    && (forall d :: d in m.dirs ==> r.dirs[d] == m.dirs[d])
    && (forall d :: d in dirs && d !in m.dirs ==> r.dirs[d])
  }

  lemma WatchesAddedTransitive(m: Memory, a: seq<Path>, r: Memory, b: seq<Path>, q: Memory)
    requires WatchesAdded(m, a, r) && WatchesAdded(r, b, q)
    ensures WatchesAdded(m, a + b, q)
  {}

  lemma DistinctParts(a: seq<Path>, b: seq<Path>)
    requires Distinct(a + b)
    ensures Distinct(a) && Distinct(b) && forall x :: x in a ==> x !in b
  {
    assert forall i :: 0 <= i < |a| ==> a[i] == (a + b)[i];
    assert forall i :: 0 <= i < |b| ==> b[i] == (a + b)[|a| + i];
  }

  /** None of the directories is watched, and none of them is listed twice. */
  ghost predicate Fresh(m: Memory, dirs: seq<Path>) {
    Distinct(dirs) && forall d :: d in dirs ==> d !in m.dirs
  }

  lemma FreshParts(m: Memory, a: seq<Path>, b: seq<Path>, r: Memory)
    requires Fresh(m, a + b) && WatchesAdded(m, a, r)
    ensures Fresh(m, a) && Fresh(r, b)
  {
    DistinctParts(a, b);
    assert forall d :: d in a || d in b ==> d in a + b;
  }

  function DirsAt(fs: FS, e: Path): seq<Path> {
    if fs.IsDirectory(e) then DirsUnder(fs, e) else []
  }

  function FilesAt(fs: FS, e: Path): seq<Path> {
    if fs.IsDirectory(e) then FilesUnder(fs, e) else if fs.IsRegular(e) then [e] else []
  }

  function AddEntry(m: Memory, fs: FS, e: Path): Memory {
    if fs.IsDirectory(e) then AddDirWatch(m, fs, e, true)
    else if fs.IsRegular(e) then AddFileWatch(m, fs, e)
    else m
  }

  /** Adding a tree none of whose directories is watched watches exactly these directories ... */
  lemma {:induction false} AddDirDirs(m: Memory, fs: FS, p: Path)
    requires Fresh(m, DirsUnder(fs, p))
    ensures WatchesAdded(m, DirsUnder(fs, p), AddDirWatch(m, fs, p, true))
    decreases fs.Depth(p), |fs.Entries(p)| + 1
  {
    var below := DirsIn(fs, p, fs.Entries(p));
    var w := WatchDir(m, p, true);
    assert p in [p] + below;
    FreshParts(m, [p], below, w);
    AddEntriesDirs(w, fs, p, fs.Entries(p));
    WatchesAddedTransitive(m, [p], w, below, AddDirWatch(m, fs, p, true));
  }

  lemma AddEntryDirs(m: Memory, fs: FS, e: Path)
    requires fs.IsDirectory(e) ==> WatchesAdded(m, DirsUnder(fs, e), AddDirWatch(m, fs, e, true))
    ensures WatchesAdded(m, DirsAt(fs, e), AddEntry(m, fs, e))
  {}

  lemma {:induction false} AddEntriesDirs(m: Memory, fs: FS, parent: Path, entries: seq<Path>)
    requires fs.Below(parent, entries)
    requires Fresh(m, DirsIn(fs, parent, entries))
    ensures WatchesAdded(m, DirsIn(fs, parent, entries), AddEntries(m, fs, parent, entries, true))
    decreases fs.Depth(parent), |entries|
  {
    if entries != [] {
      var e := entries[0];
      var m' := AddEntry(m, fs, e);
      var more := DirsIn(fs, parent, entries[1..]);
      FreshFirst(m, DirsAt(fs, e), more);
      if fs.IsDirectory(e) {
        AddDirDirs(m, fs, e);
      }
      AddEntryDirs(m, fs, e);
      FreshParts(m, DirsAt(fs, e), more, m');
      AddEntriesDirs(m', fs, parent, entries[1..]);
      WatchesAddedTransitive(m, DirsAt(fs, e), m', more, AddEntries(m', fs, parent, entries[1..], true));
    }
  }

  lemma FreshFirst(m: Memory, a: seq<Path>, b: seq<Path>)
    requires Fresh(m, a + b)
    ensures Fresh(m, a)
  {
    DistinctParts(a, b);
    assert forall d :: d in a ==> d in a + b;
  }

  /** ... and does to the rest of memory what adding its files one by one does. */
  lemma {:induction false} AddDirRest(m: Memory, fs: FS, p: Path)
    requires Fresh(m, DirsUnder(fs, p))
    ensures Rest(AddDirWatch(m, fs, p, true)) == Rest(AddFiles(Rest(m), fs, FilesUnder(fs, p)))
    decreases fs.Depth(p), |fs.Entries(p)| + 1
  {
    var below := DirsIn(fs, p, fs.Entries(p));
    var w := WatchDir(m, p, true);
    assert p in [p] + below;
    FreshParts(m, [p], below, w);
    AddEntriesRest(w, fs, p, fs.Entries(p));
    assert Rest(w) == Rest(m);
  }

  lemma AddEntryRest(m: Memory, fs: FS, e: Path)
    requires fs.IsDirectory(e) ==>
      Rest(AddDirWatch(m, fs, e, true)) == Rest(AddFiles(Rest(m), fs, FilesUnder(fs, e)))
    ensures Rest(AddEntry(m, fs, e)) == Rest(AddFiles(Rest(m), fs, FilesAt(fs, e)))
  {}

  lemma {:induction false} AddEntriesRest(m: Memory, fs: FS, parent: Path, entries: seq<Path>)
    requires fs.Below(parent, entries)
    requires Fresh(m, DirsIn(fs, parent, entries))
    ensures Rest(AddEntries(m, fs, parent, entries, true)) == Rest(AddFiles(Rest(m), fs, FilesIn(fs, parent, entries)))
    decreases fs.Depth(parent), |entries|
  {
    if entries != [] {
      var e := entries[0];
      var m' := AddEntry(m, fs, e);
      var more := DirsIn(fs, parent, entries[1..]);
      FreshFirst(m, DirsAt(fs, e), more);
      if fs.IsDirectory(e) {
        AddDirDirs(m, fs, e);
        AddDirRest(m, fs, e);
      }
      AddEntryDirs(m, fs, e);
      AddEntryRest(m, fs, e);
      FreshParts(m, DirsAt(fs, e), more, m');
      AddEntriesRest(m', fs, parent, entries[1..]);
      RestOfTwo(m, fs, m', FilesAt(fs, e), FilesIn(fs, parent, entries[1..]));
    }
  }

  lemma RestOfTwo(m: Memory, fs: FS, r: Memory, a: seq<Path>, b: seq<Path>)
    requires Rest(r) == Rest(AddFiles(Rest(m), fs, a))
    ensures Rest(AddFiles(Rest(r), fs, b)) == Rest(AddFiles(Rest(m), fs, a + b))
  {
    AddFilesConcat(Rest(m), fs, a, b);
    AddFilesRest(AddFiles(Rest(m), fs, a), fs, b);
  }

  /** Deleting a tree: the same two statements. */
  lemma {:induction false} DelDirDirs(m: Memory, fs: FS, p: Path)
    ensures DelDirWatch(m, fs, p, true).dirs == m.dirs - (set d | d in DirsUnder(fs, p))
    decreases fs.Depth(p), |fs.Entries(p)| + 1
  {
    DelEntriesDirs(m, fs, p, fs.Entries(p));
  }

  lemma {:induction false} DelEntriesDirs(m: Memory, fs: FS, parent: Path, entries: seq<Path>)
    requires fs.Below(parent, entries)
    ensures DelEntries(m, fs, parent, entries, true).dirs == m.dirs - (set d | d in DirsIn(fs, parent, entries))
    decreases fs.Depth(parent), |entries|
  {
    if entries != [] {
      var e := entries[0];
      var m' := DelEntry(m, fs, e);
      if fs.IsDirectory(e) {
        DelDirDirs(m, fs, e);
      }
      assert m'.dirs == m.dirs - (set d | d in DirsAt(fs, e));
      DelEntriesDirs(m', fs, parent, entries[1..]);
    }
  }

  function DelEntry(m: Memory, fs: FS, e: Path): Memory {
    if fs.IsDirectory(e) then DelDirWatch(m, fs, e, true)
    else if fs.IsRegular(e) then DelFileWatch(m, e)
    else m
  }

  lemma {:induction false} DelDirRest(m: Memory, fs: FS, p: Path)
    ensures Rest(DelDirWatch(m, fs, p, true)) == Rest(DelFiles(Rest(m), FilesUnder(fs, p)))
    decreases fs.Depth(p), |fs.Entries(p)| + 1
  {
    DelEntriesRest(m, fs, p, fs.Entries(p));
  }

  lemma {:induction false} DelEntriesRest(m: Memory, fs: FS, parent: Path, entries: seq<Path>)
    requires fs.Below(parent, entries)
    ensures Rest(DelEntries(m, fs, parent, entries, true)) == Rest(DelFiles(Rest(m), FilesIn(fs, parent, entries)))
    decreases fs.Depth(parent), |entries|
  {
    if entries != [] {
      var e := entries[0];
      var m' := DelEntry(m, fs, e);
      if fs.IsDirectory(e) {
        DelDirRest(m, fs, e);
      } else if fs.IsRegular(e) {
        assert DelFiles(Rest(m), [e]) == DelFiles(DelFileWatch(Rest(m), e), []);
      }
      var files, more := FilesAt(fs, e), FilesIn(fs, parent, entries[1..]);
      assert Rest(m') == Rest(DelFiles(Rest(m), files));
      DelEntriesRest(m', fs, parent, entries[1..]);
      DelFilesConcat(Rest(m), files, more);
      DelFilesRest(DelFiles(Rest(m), files), more);
    }
  }

  // ---------------------------------------------------------------- adding and deleting a list of files

  function Watchable(files: seq<Path>): (r: seq<Path>)
    ensures forall f :: f in r <==> f in files && !IsSwap(f)
  {
    if files == [] then []
    else (if IsSwap(files[0]) then [] else [files[0]]) + Watchable(files[1..])
  }

  /** The `count` names that are drawn after the first `minted`. */
  function Drawing(minted: nat, count: nat): (r: seq<Name>)
    ensures |r| == count
  {
    seq(count, i requires 0 <= i < count => Random(minted + i))
  }

  /** The list of files was added: one version each, under the names drawn in order. */
  ghost predicate FilesAdded(m: Memory, fs: FS, ws: seq<Path>, r: Memory) {
    && r.minted == m.minted + |ws| && r.deletes == m.deletes
    && (forall f :: f in r.files <==> f in m.files || f in ws)
    && (forall f :: f in m.files ==> r.files[f] == m.files[f])
    && (forall i :: 0 <= i < |ws| ==>
          ws[i] in r.files && r.files[ws[i]] == [Index.NewVersion(fs, ws[i], m.minted + i)])
    && (forall n :: n in r.names <==> n in m.names || (n.Random? && m.minted <= n.id < m.minted + |ws|))
    && (forall n :: n in m.names ==> r.names[n] == m.names[n])
  }

  ghost predicate NamesBelow(m: Memory) {
    forall n :: n in m.names && n.Random? ==> n.id < m.minted
  }

  lemma FilesAddedOne(m: Memory, fs: FS, f: Path)
    requires f !in m.files && !IsSwap(f) && NamesBelow(m)
    ensures FilesAdded(m, fs, [f], AddFileWatch(m, fs, f)) && NamesBelow(AddFileWatch(m, fs, f))
  {}

  lemma FilesAddedTransitive(m: Memory, fs: FS, f: Path, m': Memory, rest: seq<Path>, r: Memory)
    requires FilesAdded(m, fs, [f], m') && FilesAdded(m', fs, rest, r)
    requires f !in m.files
    ensures FilesAdded(m, fs, [f] + rest, r)
  {
    var ws := [f] + rest;
    assert f in m'.files;
    forall i | 0 <= i < |ws|
      ensures ws[i] in r.files && r.files[ws[i]] == [Index.NewVersion(fs, ws[i], m.minted + i)]
    {
      if i == 0 {
        assert [f][0] in m'.files;
      } else {
        assert rest[i - 1] in r.files;
      }
    }
  }

  lemma {:induction false} AddedFiles(m: Memory, fs: FS, files: seq<Path>)
    requires Distinct(files) && forall f :: f in files ==> f !in m.files
    requires NamesBelow(m)
    ensures FilesAdded(m, fs, Watchable(files), AddFiles(m, fs, files))
    decreases |files|
  {
    if files != [] {
      var f, m' := files[0], AddFileWatch(m, fs, files[0]);
      var rest := Watchable(files[1..]);
      var r := AddFiles(m', fs, files[1..]);
      assert f in files && r == AddFiles(m, fs, files);
      DistinctTail(files);
      if IsSwap(f) {
        assert Watchable(files) == rest && m' == m;
        AddedFiles(m, fs, files[1..]);
      } else {
        assert Watchable(files) == [f] + rest;
        FilesAddedOne(m, fs, f);
        StillUntracked(m, fs, f, m', files[1..]);
        AddedFiles(m', fs, files[1..]);
        FilesAddedTransitive(m, fs, f, m', rest, r);
      }
    }
  }

  lemma StillUntracked(m: Memory, fs: FS, f: Path, m': Memory, rest: seq<Path>)
    requires FilesAdded(m, fs, [f], m') && f !in rest
    requires forall g :: g in rest ==> g !in m.files
    ensures forall g :: g in rest ==> g !in m'.files
  {}

  lemma DistinctTail(files: seq<Path>)
    requires Distinct(files) && files != []
    ensures Distinct(files[1..]) && files[0] !in files[1..]
  {}

  lemma DrawingFirst(minted: nat, count: nat)
    ensures Drawing(minted, count + 1) == [Random(minted)] + Drawing(minted + 1, count)
  {}

  function HashesOf(m: Memory, files: seq<Path>): seq<Name> {
    if files == [] then []
    else PathHashes(if files[0] in m.files then m.files[files[0]] else []) + HashesOf(m, files[1..])
  }

  lemma {:induction false} HashesFrame(m: Memory, r: Memory, files: seq<Path>)
    requires forall f :: f in files ==> (f in m.files <==> f in r.files) && (f in m.files ==> r.files[f] == m.files[f])
    ensures HashesOf(r, files) == HashesOf(m, files)
  {
    if files != [] {
      HashesFrame(m, r, files[1..]);
    }
  }

  lemma MinusConcat<K, V>(m: map<K, V>, a: seq<K>, b: seq<K>)
    ensures m - (set k | k in a) - (set k | k in b) == m - (set k | k in a + b)
  {}

  /** What deleting a list of files does. */
  lemma {:induction false} DeletedFiles(m: Memory, files: seq<Path>)
    requires Distinct(files)
    ensures var r := DelFiles(m, files);
      && r.files == m.files - (set f | f in files)
      && r.names == m.names - (set n | n in HashesOf(m, files))
    decreases |files|
  {
    if files != [] {
      var m', rest := DelFileWatch(m, files[0]), files[1..];
      DistinctTail(files);
      DeletedFiles(m', rest);
      HashesFrame(m, m', rest);
      MinusConcat(m.files, [files[0]], rest);
      MinusConcat(m.names, PathHashes(if files[0] in m.files then m.files[files[0]] else []), HashesOf(m, rest));
      assert files == [files[0]] + rest && {files[0]} == set f | f in [files[0]];
    }
  }

  lemma {:induction false} DeletedHashes(m: Memory, files: seq<Path>)
    requires Distinct(files)
    ensures DelFiles(m, files).deletes == m.deletes + HashesOf(m, files)
    decreases |files|
  {
    if files == [] {
      assert m.deletes + [] == m.deletes;
    } else {
      var m', rest := DelFileWatch(m, files[0]), files[1..];
      DistinctTail(files);
      DeletedHashes(m', rest);
      HashesFrame(m, m', rest);
      ConcatConcat(m.deletes, PathHashes(if files[0] in m.files then m.files[files[0]] else []), HashesOf(m, rest));
    }
  }

  lemma ConcatConcat<T>(a: seq<T>, b: seq<T>, c: seq<T>)
    ensures a + b + c == a + (b + c)
  {}

  /** Each of these files has one version, and the versions carry the names drawn in order. */
  ghost predicate Carry(m: Memory, ws: seq<Path>, minted: nat) {
    forall i :: 0 <= i < |ws| ==>
      ws[i] in m.files && |m.files[ws[i]]| == 1 && m.files[ws[i]][0].pathHash == Random(minted + i)
  }

  lemma CarryTail(m: Memory, w: Path, rest: seq<Path>, minted: nat)
    requires Carry(m, [w] + rest, minted)
    ensures w in m.files && PathHashes(m.files[w]) == [Random(minted)] && Carry(m, rest, minted + 1)
  {
    var ws := [w] + rest;
    assert ws[0] == w;
    forall i | 0 <= i < |rest|
      ensures rest[i] in m.files && |m.files[rest[i]]| == 1 && m.files[rest[i]][0].pathHash == Random(minted + 1 + i)
    {
      assert ws[i + 1] == rest[i];
    }
  }

  lemma {:induction false} HashesAreDrawing(m: Memory, files: seq<Path>, minted: nat)
    requires Carry(m, Watchable(files), minted)
    requires forall f :: f in files && IsSwap(f) ==> f !in m.files
    ensures HashesOf(m, files) == Drawing(minted, |Watchable(files)|)
    decreases |files|
  {
    if files != [] {
      var rest := Watchable(files[1..]);
      if IsSwap(files[0]) {
        assert files[0] in files && Watchable(files) == rest;
        HashesAreDrawing(m, files[1..], minted);
      } else {
        CarryTail(m, files[0], rest, minted);
        HashesAreDrawing(m, files[1..], minted + 1);
        DrawingFirst(minted, |rest|);
      }
    }
  }

  lemma AddedHashes(m: Memory, fs: FS, files: seq<Path>, a: Memory)
    requires FilesAdded(m, fs, Watchable(files), a)
    requires forall f :: f in files ==> f !in m.files
    ensures HashesOf(a, files) == Drawing(m.minted, |Watchable(files)|)
  {
    var ws := Watchable(files);
    forall i | 0 <= i < |ws|
      ensures ws[i] in a.files && |a.files[ws[i]]| == 1 && a.files[ws[i]][0].pathHash == Random(m.minted + i)
    {
      assert a.files[ws[i]] == [Index.NewVersion(fs, ws[i], m.minted + i)];
    }
    HashesAreDrawing(a, files, m.minted);
  }

  lemma FilesUndone(m: Memory, fs: FS, files: seq<Path>)
    requires Distinct(files) && forall f :: f in files ==> f !in m.files
    requires NamesBelow(m)
    ensures var r := DelFiles(AddFiles(m, fs, files), files);
      && r.files == m.files && r.names == m.names
      && r.deletes == m.deletes + Drawing(m.minted, |Watchable(files)|)
  {
    var a := AddFiles(m, fs, files);
    AddedFiles(m, fs, files);
    AddedHashes(m, fs, files, a);
    DeletedFiles(a, files);
    DeletedHashes(a, files);
    FilesRestored(m, fs, files, a);
    NamesRestored(m, fs, Watchable(files), a);
    assert a.deletes == m.deletes;
  }

  lemma FilesRestored(m: Memory, fs: FS, files: seq<Path>, a: Memory)
    requires FilesAdded(m, fs, Watchable(files), a)
    requires forall f :: f in files ==> f !in m.files
    ensures a.files - (set f | f in files) == m.files
  {}

  lemma NamesRestored(m: Memory, fs: FS, ws: seq<Path>, a: Memory)
    requires FilesAdded(m, fs, ws, a) && NamesBelow(m)
    ensures a.names - (set n | n in Drawing(m.minted, |ws|)) == m.names
  {
    forall n: Name | n.Random? && m.minted <= n.id < m.minted + |ws| ensures n in Drawing(m.minted, |ws|) {
      assert Drawing(m.minted, |ws|)[n.id - m.minted] == n;
    }
  }

  /** Recursive delete undoes recursive add, over any finite tree none of which was watched before: adding
      watches exactly the directories of the tree, recursively, and gives every regular file that is not a
      swap file one version, the one on disk, under the names drawn in order; deleting on the unchanged
      tree restores both indexes and queues for deletion exactly the names that were drawn. */
  lemma {:induction false} DeleteUndoesAdd(m: Memory, fs: FS, p: Path)
    requires Indexed(m) && fs.IsTree()
    requires forall d :: d in DirsUnder(fs, p) ==> d !in m.dirs
    requires forall f :: f in FilesUnder(fs, p) ==> f !in m.files
    ensures var a := AddDirWatch(m, fs, p, true);
      var r := DelDirWatch(a, fs, p, true);
      && WatchesAdded(m, DirsUnder(fs, p), a)
      && FilesAdded(m, fs, Watchable(FilesUnder(fs, p)), a)
      && r.dirs == m.dirs && r.files == m.files && r.names == m.names
      && r.deletes == m.deletes + Drawing(m.minted, a.minted - m.minted)
  {
    var files := FilesUnder(fs, p);
    var a := AddDirWatch(m, fs, p, true);
    var b := AddFiles(Rest(m), fs, files);
    ListsDistinct(fs, p);
    TrackedNamesDrawn(m);
    AddDirDirs(m, fs, p);
    AddDirRest(m, fs, p);
    AddedFiles(Rest(m), fs, files);
    SameRest(Rest(m), m, fs, Watchable(files), b, a);
    DelDirDirs(a, fs, p);
    DirsRestored(m, DirsUnder(fs, p), a);
    DelDirRest(a, fs, p);
    DelFilesRest(b, files);
    DelFilesRest(a, files);
    FilesUndone(Rest(m), fs, files);
    SameFields(DelDirWatch(a, fs, p, true), DelFiles(b, files));
  }

  lemma SameFields(m: Memory, r: Memory)
    requires Rest(m) == Rest(r)
    ensures m.files == r.files && m.names == r.names && m.deletes == r.deletes && m.minted == r.minted
  {}

  lemma SameRest(m: Memory, m': Memory, fs: FS, ws: seq<Path>, r: Memory, r': Memory)
    requires FilesAdded(m, fs, ws, r) && Rest(m) == Rest(m') && Rest(r) == Rest(r')
    ensures FilesAdded(m', fs, ws, r')
  {
    SameFields(m, m');
    SameFields(r, r');
  }

  lemma DirsRestored(m: Memory, dirs: seq<Path>, a: Memory)
    requires WatchesAdded(m, dirs, a) && forall d :: d in dirs ==> d !in m.dirs
    ensures a.dirs - (set d | d in dirs) == m.dirs
  {}

  // ---------------------------------------------------------------- watches that are not recursive

  lemma {:induction false} ShallowEntriesAdded(m: Memory, fs: FS, p: Path, entries: seq<Path>)
    requires fs.Below(p, entries)
    ensures var r := AddEntries(m, fs, p, entries, false);
      && r.dirs == m.dirs
      && (forall f :: f in r.files <==> f in m.files || (f in entries && fs.IsRegular(f) && !IsSwap(f)))
    decreases |entries|
  {
    if entries != [] {
      var e := entries[0];
      ShallowEntriesAdded(if fs.IsRegular(e) then AddFileWatch(m, fs, e) else m, fs, p, entries[1..]);
      assert entries == [e] + entries[1..];
    }
  }

  lemma {:induction false} ShallowEntriesDeleted(m: Memory, fs: FS, p: Path, entries: seq<Path>)
    requires fs.Below(p, entries)
    ensures var r := DelEntries(m, fs, p, entries, false);
      && r.dirs == m.dirs
      && r.files == m.files - (set f | f in entries && fs.IsRegular(f))
    decreases |entries|
  {
    if entries != [] {
      var e := entries[0];
      ShallowEntriesDeleted(if fs.IsRegular(e) then DelFileWatch(m, e) else m, fs, p, entries[1..]);
      assert entries == [e] + entries[1..];
    }
  }

  /** Without recursion, adding a directory watches it alone and tracks exactly the regular files in it that
      are not swap files, and deleting it drops exactly the regular files in it and the watch. */
  lemma ShallowAddAndDelete(m: Memory, fs: FS, p: Path)
    ensures p !in m.dirs ==>
      var a := AddDirWatch(m, fs, p, false);
      && a.dirs == m.dirs[p := false]
      && (forall f :: f in a.files <==> f in m.files || (f in fs.Entries(p) && fs.IsRegular(f) && !IsSwap(f)))
    ensures var d := DelDirWatch(m, fs, p, false);
      && d.dirs == m.dirs - {p}
      && d.files == m.files - (set f | f in fs.Entries(p) && fs.IsRegular(f))
  {
    ShallowEntriesAdded(WatchDir(m, p, false), fs, p, fs.Entries(p));
    ShallowEntriesDeleted(m, fs, p, fs.Entries(p));
  }
}
