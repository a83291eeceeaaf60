/** What the requests to watch and to unwatch do, for every kind of path there is. */
module Watches {
  import opened Common
  import opened FileSystem
  import opened Database
  import opened WorkQueue
  import opened Index
  import opened IndexInvariant
  import opened Undo

  // ---------------------------------------------------------------- the tree below a directory

  ghost predicate EntryOf(fs: FS, dirs: seq<Path>, x: Path) {
    exists d :: d in dirs && x in fs.Entries(d)
  }

  /** Everything that is found below the directories lies in one of them or among the entries themselves. */
  ghost predicate Found(fs: FS, files: seq<Path>, dirs: seq<Path>, entries: seq<Path>) {
    && (forall x :: x in files ==> fs.IsRegular(x) && (x in entries || EntryOf(fs, dirs, x)))
    && (forall x :: x in dirs ==> fs.IsDirectory(x) && (x in entries || EntryOf(fs, dirs, x)))
  }

  /** The entries and all that the directories hold are found. */
  ghost predicate Complete(fs: FS, files: seq<Path>, dirs: seq<Path>, entries: seq<Path>) {
    forall x :: x in entries || EntryOf(fs, dirs, x) ==>
      (fs.IsRegular(x) ==> x in files) && (fs.IsDirectory(x) ==> x in dirs)
  }

  lemma FoundBoth(
      fs: FS, files: seq<Path>, dirs: seq<Path>, e: seq<Path>, files': seq<Path>, dirs': seq<Path>, e': seq<Path>)
    requires Found(fs, files, dirs, e) && Complete(fs, files, dirs, e)
    requires Found(fs, files', dirs', e') && Complete(fs, files', dirs', e')
    ensures Found(fs, files + files', dirs + dirs', e + e') && Complete(fs, files + files', dirs + dirs', e + e')
  {
    forall x ensures EntryOf(fs, dirs + dirs', x) <==> EntryOf(fs, dirs, x) || EntryOf(fs, dirs', x) {}
  }

  lemma FoundHere(fs: FS, e: Path)
    requires var es := fs.Entries(e);
      Found(fs, FilesIn(fs, e, es), DirsIn(fs, e, es), es) && Complete(fs, FilesIn(fs, e, es), DirsIn(fs, e, es), es)
    ensures Found(fs, FilesAt(fs, e), DirsAt(fs, e), [e]) && Complete(fs, FilesAt(fs, e), DirsAt(fs, e), [e])
  {
    var es := fs.Entries(e);
    if fs.IsDirectory(e) {
      forall x ensures EntryOf(fs, DirsAt(fs, e), x) <==> x in es || EntryOf(fs, DirsIn(fs, e, es), x) {
        assert DirsAt(fs, e) == [e] + DirsIn(fs, e, es);
      }
    }
  }

  lemma {:induction false} TraversalFinds(fs: FS, parent: Path, entries: seq<Path>)
    requires fs.Below(parent, entries)
    ensures Found(fs, FilesIn(fs, parent, entries), DirsIn(fs, parent, entries), entries)
    ensures Complete(fs, FilesIn(fs, parent, entries), DirsIn(fs, parent, entries), entries)
    decreases fs.Depth(parent), |entries|
  {
    if entries != [] {
      var e, rest := entries[0], entries[1..];
      TraversalFinds(fs, e, fs.Entries(e));
      FoundHere(fs, e);
      TraversalFinds(fs, parent, rest);
      FoundBoth(fs, FilesAt(fs, e), DirsAt(fs, e), [e], FilesIn(fs, parent, rest), DirsIn(fs, parent, rest), rest);
      assert entries == [e] + rest;
      assert FilesIn(fs, parent, entries) == FilesAt(fs, e) + FilesIn(fs, parent, rest);
      assert DirsIn(fs, parent, entries) == DirsAt(fs, e) + DirsIn(fs, parent, rest);
    }
  }

  /** The two lists hold exactly what is below a directory: itself and every directory that is an entry of one
      of the list, and every regular file that is. */
  lemma ListsExactly(fs: FS, p: Path, x: Path)
    requires fs.IsDirectory(p)
    ensures x in DirsUnder(fs, p) <==> x == p || (fs.IsDirectory(x) && EntryOf(fs, DirsUnder(fs, p), x))
    ensures x in FilesUnder(fs, p) <==> fs.IsRegular(x) && EntryOf(fs, DirsUnder(fs, p), x)
  {
    var es := fs.Entries(p);
    TraversalFinds(fs, p, es);
    assert EntryOf(fs, DirsUnder(fs, p), x) <==> x in es || EntryOf(fs, DirsIn(fs, p, es), x);
  }

  // ---------------------------------------------------------------- adding

  /** A swap file is one with the extension, and something other than a slash in front of it. */
  lemma SwapFiles(p: Path, stem: string)
    ensures IsSwap(stem + ".swp") <==> stem != "" && stem[|stem| - 1] != '/'
    ensures |p| < 4 || p[|p| - 4..] != ".swp" ==> !IsSwap(p)
  {
    assert (stem + ".swp")[|stem|..] == ".swp";
  }

  /** Adding a regular file that is neither tracked nor a swap file. */
  lemma AddRegularFile(m: Memory, fs: FS, p: Path, recursive: bool)
    requires fs.IsRegular(p) && !IsSwap(p) && p !in m.files && Random(m.minted) !in m.names
    ensures var n, t, d := Random(m.minted), fs.Mtime(p), Digest(fs.Content(p));
      AddWatch(m, fs, p, recursive) == Memory(
        m.files[p := [FileVersion(t, n, d, true, false)]],
        m.names[n := (p, t)],
        m.dirs,
        m.sql + [InsertFile(Row(p, t, n, d, true, false))],
        m.uploads + [UploadItem(p, n, t)],
        m.deletes,
        m.minted + 1,
        m.named)
  {
    var v := Index.NewVersion(fs, p, m.minted);
    assert [] + [v] == [v];
  }

  /** Adding does nothing exactly when there is nothing at the path, nothing but a swap file, something other
      than a file or directory, or something that is tracked or watched already, with whatever flag. */
  lemma AddsNothingExactlyWhen(m: Memory, fs: FS, p: Path, recursive: bool)
    ensures AddWatch(m, fs, p, recursive) == m <==>
      || (!fs.IsRegular(p) && !fs.IsDirectory(p))
      || (fs.IsRegular(p) && (IsSwap(p) || p in m.files))
      || (fs.IsDirectory(p) && p in m.dirs)
  {
    if fs.IsDirectory(p) && p !in m.dirs {
      assert p in WatchDir(m, p, recursive).dirs;
      assert p in AddWatch(m, fs, p, recursive).dirs;
    } else if fs.IsRegular(p) && !IsSwap(p) && p !in m.files {
      assert AddWatch(m, fs, p, recursive).minted == m.minted + 1;
    }
  }

  /** What is queued for upload for new files, under the names drawn in order. */
  function Queued(fs: FS, ws: seq<Path>, minted: nat): (r: seq<UploadItem>)
    ensures |r| == |ws|
  {
    seq(|ws|, i requires 0 <= i < |ws| => UploadItem(ws[i], Random(minted + i), fs.Mtime(ws[i])))
  }

  ghost predicate UploadsAdded(m: Memory, fs: FS, ws: seq<Path>, r: Memory) {
    r.uploads == m.uploads + Queued(fs, ws, m.minted) && r.minted == m.minted + |ws| && r.named == m.named
  }

  lemma UploadsTransitive(m: Memory, fs: FS, f: Path, m': Memory, rest: seq<Path>, r: Memory)
    requires UploadsAdded(m, fs, [f], m') && UploadsAdded(m', fs, rest, r)
    ensures UploadsAdded(m, fs, [f] + rest, r)
  {
    assert Queued(fs, [f] + rest, m.minted) == Queued(fs, [f], m.minted) + Queued(fs, rest, m.minted + 1);
  }

  lemma {:induction false} AddedUploads(m: Memory, fs: FS, files: seq<Path>)
    requires Distinct(files) && forall f :: f in files ==> f !in m.files && fs.Exists(f)
    ensures UploadsAdded(m, fs, Watchable(files), AddFiles(m, fs, files))
    decreases |files|
  {
    if files == [] {
      assert m.uploads + Queued(fs, [], m.minted) == m.uploads;
    } else {
      var f, rest := files[0], files[1..];
      var m' := AddFileWatch(m, fs, f);
      DistinctTail(files);
      AddedUploads(m', fs, rest);
      if IsSwap(f) {
        assert Watchable(files) == Watchable(rest);
      } else {
        assert Watchable(files) == [f] + Watchable(rest);
        UploadsTransitive(m, fs, f, m', Watchable(rest), AddFiles(m', fs, rest));
      }
    }
  }

  /** Adding a directory recursively, when nothing of its tree is watched or tracked: exactly its directories are
      watched, all recursively; exactly its regular files but swap files are tracked, each with one version, the
      one on disk, under the names drawn in order, and these are queued for upload in that order. */
  lemma AddTree(m: Memory, fs: FS, p: Path)
    requires Indexed(m) && fs.IsTree() && fs.IsDirectory(p)
    requires forall d :: d in DirsUnder(fs, p) ==> d !in m.dirs
    requires forall f :: f in FilesUnder(fs, p) ==> f !in m.files
    ensures var a, ws := AddWatch(m, fs, p, true), Watchable(FilesUnder(fs, p));
      WatchesAdded(m, DirsUnder(fs, p), a) && FilesAdded(m, fs, ws, a) && UploadsAdded(m, fs, ws, a)
  {
    var files := FilesUnder(fs, p);
    DeleteUndoesAdd(m, fs, p);
    ListsDistinct(fs, p);
    AddDirRest(m, fs, p);
    forall f | f in files ensures fs.Exists(f) {
      ListsExactly(fs, p, f);
    }
    AddedUploads(Rest(m), fs, files);
    assert AddWatch(m, fs, p, true).uploads == Rest(AddFiles(Rest(m), fs, files)).uploads;
    assert AddWatch(m, fs, p, true).named == Rest(AddFiles(Rest(m), fs, files)).named;
  }

  /** The regular files among the entries of a directory. */
  function RegularIn(fs: FS, entries: seq<Path>): (r: seq<Path>)
    ensures forall f :: f in r <==> f in entries && fs.IsRegular(f)
  {
    if entries == [] then []
    else (if fs.IsRegular(entries[0]) then [entries[0]] else []) + RegularIn(fs, entries[1..])
  }

  lemma {:induction false} RegularDistinct(fs: FS, entries: seq<Path>)
    requires Distinct(entries)
    ensures Distinct(RegularIn(fs, entries))
  {
    if entries != [] {
      DistinctTail(entries);
      RegularDistinct(fs, entries[1..]);
      DistinctConcat(if fs.IsRegular(entries[0]) then [entries[0]] else [], RegularIn(fs, entries[1..]));
    }
  }

  lemma {:induction false} FlatEntriesAdded(m: Memory, fs: FS, p: Path, entries: seq<Path>)
    requires fs.Below(p, entries)
    ensures AddEntries(m, fs, p, entries, false) == AddFiles(m, fs, RegularIn(fs, entries))
    decreases |entries|
  {
    if entries != [] {
      var e, rest := entries[0], entries[1..];
      FlatEntriesAdded(if fs.IsRegular(e) then AddFileWatch(m, fs, e) else m, fs, p, rest);
      if fs.IsRegular(e) {
        assert ([e] + RegularIn(fs, rest))[1..] == RegularIn(fs, rest);
      } else {
        assert [] + RegularIn(fs, rest) == RegularIn(fs, rest);
      }
    }
  }

  /** Adding a directory without recursion, when none of its files is tracked: it alone is watched, and exactly
      its own regular files but swap files are tracked, in the same way. */
  lemma AddFlat(m: Memory, fs: FS, p: Path)
    requires Indexed(m) && fs.IsTree() && fs.IsDirectory(p) && p !in m.dirs
    requires forall f :: f in fs.Entries(p) && fs.IsRegular(f) ==> f !in m.files
    ensures var a, ws := AddWatch(m, fs, p, false), Watchable(RegularIn(fs, fs.Entries(p)));
      a.dirs == m.dirs[p := false] && FilesAdded(m, fs, ws, a) && UploadsAdded(m, fs, ws, a)
  {
    var w, files := WatchDir(m, p, false), RegularIn(fs, fs.Entries(p));
    var a := AddFiles(w, fs, files);
    FlatEntriesAdded(w, fs, p, fs.Entries(p));
    RegularDistinct(fs, fs.Entries(p));
    assert NamesBelow(w) by {
      TrackedNamesDrawn(m);
    }
    AddedFiles(w, fs, files);
    AddedUploads(w, fs, files);
    AddFilesRest(w, fs, files);
    AddedFrom(m, w, fs, Watchable(files), a);
  }

  lemma AddedFrom(m: Memory, w: Memory, fs: FS, ws: seq<Path>, a: Memory)
    requires w == m.(dirs := w.dirs, sql := w.sql) && FilesAdded(w, fs, ws, a) && UploadsAdded(w, fs, ws, a)
    ensures FilesAdded(m, fs, ws, a) && UploadsAdded(m, fs, ws, a)
  {
    forall i | 0 <= i < |ws|
      ensures ws[i] in a.files && a.files[ws[i]] == [Index.NewVersion(fs, ws[i], m.minted + i)]
    {
      assert ws[i] in a.files && a.files[ws[i]] == [Index.NewVersion(fs, ws[i], w.minted + i)];
    }
  }

  // ---------------------------------------------------------------- deleting

  /** Deleting a regular file: its history is forgotten and its names are queued for deletion, in order. */
  lemma DeleteRegularFile(m: Memory, fs: FS, p: Path, recursive: bool)
    requires Indexed(m) && fs.IsRegular(p) && p in m.files
    ensures var r := DelWatch(m, fs, p, recursive);
      && r.files == m.files - {p} && r.dirs == m.dirs
      && (forall n :: n in r.names <==> n in m.names && m.names[n].0 != p)
      && (forall n :: n in r.names ==> r.names[n] == m.names[n])
      && r.sql == m.sql + [DeleteFile(p)]
      && |r.deletes| == |m.deletes| + |m.files[p]| && r.deletes[..|m.deletes|] == m.deletes
      && (forall i :: 0 <= i < |m.files[p]| ==> r.deletes[|m.deletes| + i] == m.files[p][i].pathHash)
      && r.uploads == m.uploads && r.minted == m.minted && r.named == m.named
  {
    NamesForgotten(m, p);
  }

  lemma NamesForgotten(m: Memory, p: Path)
    requires Indexed(m) && p in m.files
    ensures forall n :: n in DelFileWatch(m, p).names <==> n in m.names && m.names[n].0 != p
  {
    assert HistoryOk(m, p, m.files[p]);
    forall n | n in m.names ensures n in PathHashes(m.files[p]) <==> m.names[n].0 == p {
      if m.names[n].0 == p {
        NamedHash(m.files[p], n);
      }
    }
  }

  /** A file that is not tracked is not queued for deletion, and a path at which there is neither a file nor a
      directory is left alone. */
  lemma DeletesNothing(m: Memory, fs: FS, p: Path, recursive: bool)
    requires !fs.IsDirectory(p) && p !in m.files
    ensures DelWatch(m, fs, p, recursive) == if fs.IsRegular(p) then m.(sql := m.sql + [DeleteFile(p)]) else m
  {
    assert m.names - (set n | n in PathHashes([])) == m.names;
    assert m.files - {p} == m.files && m.deletes + PathHashes([]) == m.deletes;
  }

  /** What is neither watched nor tracked by the two operations stays as it is. */
  ghost predicate OthersKept(m: Memory, r: Memory) {
    r.uploads == m.uploads && r.minted == m.minted && r.named == m.named
  }

  lemma {:induction false} DeletedOthers(m: Memory, files: seq<Path>)
    ensures OthersKept(m, DelFiles(m, files)) && DelFiles(m, files).dirs == m.dirs
    decreases |files|
  {
    if files != [] {
      DeletedOthers(DelFileWatch(m, files[0]), files[1..]);
    }
  }

  lemma {:induction false} NamesOfFiles(m: Memory, files: seq<Path>, n: Name)
    requires Indexed(m) && n in m.names
    ensures n in HashesOf(m, files) <==> m.names[n].0 in files
  {
    if files != [] {
      NamesOfFiles(m, files[1..], n);
      assert files == [files[0]] + files[1..];
      var p := files[0];
      if p in m.files {
        assert HistoryOk(m, p, m.files[p]);
        if m.names[n].0 == p {
          NamedHash(m.files[p], n);
        }
      }
    }
  }

  /** Deleting a directory: `files` are forgotten, their names queued for deletion in order. */
  ghost predicate FilesForgotten(m: Memory, files: seq<Path>, r: Memory) {
    && (forall f :: f in r.files <==> f in m.files && f !in files)
    && (forall f :: f in r.files ==> r.files[f] == m.files[f])
    && (forall n :: n in r.names <==> n in m.names && m.names[n].0 !in files)
    && (forall n :: n in r.names ==> r.names[n] == m.names[n])
    && r.deletes == m.deletes + HashesOf(m, files)
  }

  lemma ForgetsFiles(m: Memory, files: seq<Path>)
    requires Indexed(m) && Distinct(files)
    ensures FilesForgotten(m, files, DelFiles(m, files)) && OthersKept(m, DelFiles(m, files))
  {
    DeletedFiles(m, files);
    DeletedHashes(m, files);
    DeletedOthers(m, files);
    forall n | n in m.names ensures n in HashesOf(m, files) <==> m.names[n].0 in files {
      NamesOfFiles(m, files, n);
    }
  }

  /** Deleting a directory recursively, whatever is watched: exactly its tree is dropped. */
  lemma DeleteTree(m: Memory, fs: FS, p: Path)
    requires Indexed(m) && fs.IsTree() && fs.IsDirectory(p)
    ensures var r := DelWatch(m, fs, p, true);
      && FilesForgotten(m, FilesUnder(fs, p), r) && OthersKept(m, r)
      && (forall d :: d in r.dirs <==> d in m.dirs && d !in DirsUnder(fs, p))
      && (forall d :: d in r.dirs ==> r.dirs[d] == m.dirs[d])
  {
    var r, files := DelWatch(m, fs, p, true), FilesUnder(fs, p);
    ListsDistinct(fs, p);
    DelDirDirs(m, fs, p);
    DelDirRest(m, fs, p);
    DelFilesRest(m, files);
    ForgetsFiles(m, files);
    SameFields(r, DelFiles(m, files));
    assert r.uploads == Rest(r).uploads && r.named == Rest(r).named;
  }

  lemma {:induction false} FlatEntriesDeleted(m: Memory, fs: FS, p: Path, entries: seq<Path>)
    requires fs.Below(p, entries)
    ensures DelEntries(m, fs, p, entries, false) == DelFiles(m, RegularIn(fs, entries))
    decreases |entries|
  {
    if entries != [] {
      var e, rest := entries[0], entries[1..];
      FlatEntriesDeleted(if fs.IsRegular(e) then DelFileWatch(m, e) else m, fs, p, rest);
      if fs.IsRegular(e) {
        assert ([e] + RegularIn(fs, rest))[1..] == RegularIn(fs, rest);
      } else {
        assert [] + RegularIn(fs, rest) == RegularIn(fs, rest);
      }
    }
  }

  /** Without recursion, exactly its own regular files and its own watch. */
  lemma DeleteFlat(m: Memory, fs: FS, p: Path)
    requires Indexed(m) && fs.IsTree() && fs.IsDirectory(p)
    ensures var r := DelWatch(m, fs, p, false);
      FilesForgotten(m, RegularIn(fs, fs.Entries(p)), r) && OthersKept(m, r) && r.dirs == m.dirs - {p}
  {
    var files := RegularIn(fs, fs.Entries(p));
    FlatEntriesDeleted(m, fs, p, fs.Entries(p));
    RegularDistinct(fs, fs.Entries(p));
    ForgetsFiles(m, files);
    DeletedOthers(m, files);
  }

  /** Unwatching undoes watching: for a directory, recursively, over any tree none of which was watched, and
      for a file. */
  lemma UnwatchUndoesWatch(m: Memory, fs: FS, p: Path)
    requires Indexed(m) && fs.IsTree()
    requires fs.IsDirectory(p) ==>
      && (forall d :: d in DirsUnder(fs, p) ==> d !in m.dirs)
      && (forall f :: f in FilesUnder(fs, p) ==> f !in m.files)
    requires fs.IsRegular(p) ==> p !in m.files
    ensures var a := AddWatch(m, fs, p, true);
      var r := DelWatch(a, fs, p, true);
      && r.dirs == m.dirs && r.files == m.files && r.names == m.names && a.minted >= m.minted
      && r.deletes == m.deletes + Drawing(m.minted, a.minted - m.minted)
  {
    if fs.IsDirectory(p) {
      TreeUndone(m, fs, p);
    } else if fs.IsRegular(p) {
      FileUndone(m, fs, p);
    } else {
      assert m.deletes + Drawing(m.minted, 0) == m.deletes;
    }
  }

  lemma TreeUndone(m: Memory, fs: FS, p: Path)
    requires Indexed(m) && fs.IsTree() && fs.IsDirectory(p)
    requires forall d :: d in DirsUnder(fs, p) ==> d !in m.dirs
    requires forall f :: f in FilesUnder(fs, p) ==> f !in m.files
    ensures var a := AddWatch(m, fs, p, true);
      var r := DelWatch(a, fs, p, true);
      && r.dirs == m.dirs && r.files == m.files && r.names == m.names && a.minted >= m.minted
      && r.deletes == m.deletes + Drawing(m.minted, a.minted - m.minted)
  {
    DeleteUndoesAdd(m, fs, p);
  }

  lemma FileUndone(m: Memory, fs: FS, p: Path)
    requires Indexed(m) && fs.IsRegular(p) && p !in m.files
    ensures var a := AddFileWatch(m, fs, p);
      var r := DelFileWatch(a, p);
      && r.dirs == m.dirs && r.files == m.files && r.names == m.names && a.minted >= m.minted
      && r.deletes == m.deletes + Drawing(m.minted, a.minted - m.minted)
  {
    TrackedNamesDrawn(m);
    FilesUndone(m, fs, [p]);
    var a := AddFileWatch(m, fs, p);
    assert AddFiles(m, fs, [p]) == AddFiles(a, fs, []) && DelFiles(a, [p]) == DelFiles(DelFileWatch(a, p), []);
    assert Watchable([p]) == if IsSwap(p) then [] else [p];
  }
}
