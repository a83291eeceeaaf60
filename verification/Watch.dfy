/** The watcher: its fields are updated in place, and every method is proved to do to them what the
    functions of module Index say. */
module Watch {
  import opened Common
  import opened FileSystem
  import opened Database
  import opened WorkQueue
  import opened Index

  class Watch {
    const queue: Queue
    const db: DB
    var fileIndex: map<Path, seq<FileVersion>>
    var pathHashIndex: map<Name, (Path, int)>
    var dirIndex: map<Path, bool>
    var sqlQueue: seq<Statement>
    /** How many names the random generator has produced. */
    var minted: nat
    /** Is `indexBackupName` set?  It is empty until it has been read back or derived. */
    var named: bool

    ghost function View(): Memory
      reads this, queue
    {
      Memory(fileIndex, pathHashIndex, dirIndex, sqlQueue, queue.uploadQueue, queue.deleteQueue, minted,
             named)
    }

    constructor (queue: Queue, db: DB, minted: nat)
      ensures this.queue == queue && this.db == db
      ensures View() == Started(minted).(uploads := queue.uploadQueue, deletes := queue.deleteQueue)
    {
      this.queue, this.db := queue, db;
      fileIndex, pathHashIndex, dirIndex, sqlQueue := map[], map[], map[], [];
      this.minted, named := minted, false;
    }

    method AddWatch(fs: FS, path: Path, recursive: bool)
      modifies this, queue`uploadQueue
      ensures View() == Index.AddWatch(old(View()), fs, path, recursive)
    {
      if !fs.Exists(path) {
        return;
      } else if fs.IsDirectory(path) {
        AddDirWatch(fs, path, recursive);
      } else if fs.IsRegular(path) {
        AddFileWatch(fs, path);
      }
    }

    method AddDirWatch(fs: FS, path: Path, recursive: bool)
      modifies this, queue`uploadQueue
      ensures View() == Index.AddDirWatch(old(View()), fs, path, recursive)
      decreases fs.Depth(path), 1
    {
      if path !in dirIndex {
        dirIndex := dirIndex[path := recursive];
        sqlQueue := sqlQueue + [InsertDir(path, recursive)];
        AddDirEntries(fs, path, recursive);
      }
    }

    /** The loop over the entries in addDirWatch. */
    method AddDirEntries(fs: FS, path: Path, recursive: bool)
      modifies this, queue`uploadQueue
      ensures View() == Index.AddEntries(old(View()), fs, path, fs.Entries(path), recursive)
      decreases fs.Depth(path), 0
    {
      var entries := fs.Entries(path);
      var i := 0;
      while i < |entries|
        invariant 0 <= i <= |entries|
        invariant Index.AddEntries(View(), fs, path, entries[i..], recursive)
               == Index.AddEntries(old(View()), fs, path, entries, recursive)
      {
        var entry := entries[i];
        ghost var before := View();
        if fs.IsDirectory(entry) && recursive {
          AddDirWatch(fs, entry, true);
        } else if fs.IsRegular(entry) {
          AddFileWatch(fs, entry);
        }
        AddEntriesNext(before, fs, path, entries, i, recursive, View());
        i := i + 1;
      }
    }

    method AddFileWatch(fs: FS, path: Path)
      modifies this, queue`uploadQueue
      ensures View() == Index.AddFileWatch(old(View()), fs, path)
    {
      if IsSwap(path) {
        return;
      }
      if path !in fileIndex {
        ghost var before := fileIndex;
        fileIndex := fileIndex[path := []];
        AddFileVersion(fs, path);
        assert before[path := []][path := fileIndex[path]] == before[path := fileIndex[path]];
      }
    }

    method AddFileVersion(fs: FS, path: Path)
      modifies this, queue`uploadQueue
      ensures View() == Index.AddFileVersion(old(View()), fs, path)
    {
      var modtime := fs.Mtime(path);
      var pathHash := Random(minted);
      minted := minted + 1;
      var fileHash := Digest(fs.Content(path));
      var versions := if path in fileIndex then fileIndex[path] else [];
      fileIndex := fileIndex[path := versions + [FileVersion(modtime, pathHash, fileHash, true, false)]];
      if pathHash !in pathHashIndex {
        pathHashIndex := pathHashIndex[pathHash := (path, modtime)];
      }
      sqlQueue := sqlQueue + [InsertFile(Row(path, modtime, pathHash, fileHash, true, false))];
      var _ := queue.EnqueueUpload(fs, path, pathHash, modtime);
    }

    method DelWatch(fs: FS, path: Path, recursive: bool)
      modifies this, queue`deleteQueue
      ensures View() == Index.DelWatch(old(View()), fs, path, recursive)
    {
      if !fs.Exists(path) {
        return;
      } else if fs.IsDirectory(path) {
        DelDirWatch(fs, path, recursive);
      } else if fs.IsRegular(path) {
        DelFileWatch(path);
      }
    }

    method DelDirWatch(fs: FS, path: Path, recursive: bool)
      modifies this, queue`deleteQueue
      ensures View() == Index.DelDirWatch(old(View()), fs, path, recursive)
      decreases fs.Depth(path)
    {
      var entries := fs.Entries(path);
      var i := 0;
      while i < |entries|
        invariant 0 <= i <= |entries|
        invariant Index.DelEntries(View(), fs, path, entries[i..], recursive)
               == Index.DelEntries(old(View()), fs, path, entries, recursive)
      {
        var entry := entries[i];
        ghost var before := View();
        if fs.IsDirectory(entry) && recursive {
          DelDirWatch(fs, entry, true);
        } else if fs.IsRegular(entry) {
          DelFileWatch(entry);
        }
        DelEntriesNext(before, fs, path, entries, i, recursive, View());
        i := i + 1;
      }
      dirIndex := dirIndex - {path};
      sqlQueue := sqlQueue + [DeleteDir(path)];
    }

    method DelFileWatch(path: Path)
      modifies this, queue`deleteQueue
      ensures View() == Index.DelFileWatch(old(View()), path)
    {
      var versions := if path in fileIndex then fileIndex[path] else [];
      var hashes := PathHashes(versions);
      var i := 0;
      while i < |versions|
        invariant 0 <= i <= |versions|
        invariant queue.deleteQueue == old(queue.deleteQueue) + hashes[..i]
        invariant pathHashIndex == old(pathHashIndex) - (set n | n in hashes[..i])
        invariant fileIndex == old(fileIndex) && dirIndex == old(dirIndex) && sqlQueue == old(sqlQueue)
        invariant minted == old(minted) && named == old(named)
      {
        queue.EnqueueDelete(versions[i].pathHash);
        pathHashIndex := pathHashIndex - {versions[i].pathHash};
        assert hashes[..i + 1] == hashes[..i] + [versions[i].pathHash];
        i := i + 1;
      }
      assert hashes[..i] == hashes;
      fileIndex := fileIndex - {path};
      sqlQueue := sqlQueue + [DeleteFile(path)];
    }

    /** `fileOrder` and `dirOrder` are the orders in which the two hash tables happen to be iterated. */
    method ScanFileChange(fs: FS, fileOrder: seq<Path>, dirOrder: seq<Path>)
      requires AllTracked(View(), fileOrder) && AllWatched(View(), dirOrder)
      modifies this, queue`uploadQueue
      ensures View() == Index.Scan(old(View()), fs, fileOrder, dirOrder)
    {
      ScanFilesKeepsDirs(View(), fs, fileOrder);
      ScanFileVersions(fs, fileOrder);
      ScanDirectories(fs, dirOrder);
    }

    /** The loop over the directory index in scanFileChange. */
    method ScanDirectories(fs: FS, dirOrder: seq<Path>)
      requires AllWatched(View(), dirOrder)
      modifies this, queue`uploadQueue
      ensures View() == Index.ScanDirs(old(View()), fs, dirOrder)
    {
      ghost var before := View();
      assert dirOrder[0..] == dirOrder;
      var i := 0;
      while i < |dirOrder|
        invariant 0 <= i <= |dirOrder|
        invariant AllWatched(View(), dirOrder[i..])
        invariant Index.ScanDirs(View(), fs, dirOrder[i..]) == Index.ScanDirs(before, fs, dirOrder)
      {
        var dir := dirOrder[i];
        ScanDirsNext(View(), fs, dirOrder, i);
        if !fs.Exists(dir) {
          dirIndex := dirIndex - {dir};
          sqlQueue := sqlQueue + [DeleteDir(dir)];
          return;
        }
        ScanEntries(fs, dir, dirIndex[dir]);
        i := i + 1;
      }
    }

    /** The loop over the file index in scanFileChange. */
    method ScanFileVersions(fs: FS, fileOrder: seq<Path>)
      requires AllTracked(View(), fileOrder)
      modifies this, queue`uploadQueue
      ensures View() == Index.ScanFiles(old(View()), fs, fileOrder)
    {
      var i := 0;
      while i < |fileOrder|
        invariant 0 <= i <= |fileOrder|
        invariant AllTracked(View(), fileOrder[i..])
        invariant Index.ScanFiles(View(), fs, fileOrder[i..]) == Index.ScanFiles(old(View()), fs, fileOrder)
      {
        var path := fileOrder[i];
        assert fileOrder[i..][0] == path && fileOrder[i..][1..] == fileOrder[i + 1..];
        var versions := fileIndex[path];
        if !Last(versions).localExists {
          break;
        }
        if !fs.Exists(path) {
          fileIndex := fileIndex[path := WithLast(versions, Last(versions).(localExists := false))];
          sqlQueue := sqlQueue + [ClearLocalExists(path)];
          return;
        }
        var recentModTime := fs.Mtime(path);
        if recentModTime != Last(versions).modtime {
          fileIndex := fileIndex[path := WithLast(versions, Last(versions).(localExists := false))];
          AddFileVersion(fs, path);
        }
        i := i + 1;
      }
    }

    /** The loop over the entries of one watched directory in scanFileChange. */
    method ScanEntries(fs: FS, dir: Path, recursive: bool)
      modifies this, queue`uploadQueue
      ensures View() == Index.AddEntries(old(View()), fs, dir, fs.Entries(dir), recursive)
    {
      var entries := fs.Entries(dir);
      var i := 0;
      while i < |entries|
        invariant 0 <= i <= |entries|
        invariant Index.AddEntries(View(), fs, dir, entries[i..], recursive)
               == Index.AddEntries(old(View()), fs, dir, entries, recursive)
      {
        var entry := entries[i];
        assert entries[i..][0] == entry && entries[i..][1..] == entries[i + 1..];
        if fs.IsDirectory(entry) && recursive {
          if entry !in dirIndex {
            AddDirWatch(fs, entry, true);
          }
        } else if fs.IsRegular(entry) {
          if entry !in fileIndex {
            AddFileWatch(fs, entry);
          }
        }
        i := i + 1;
      }
    }

    method ExecQueuedSQL()
      modifies this`sqlQueue, db
      ensures sqlQueue == []
      ensures db.tables == ApplyAll(old(db.tables), old(sqlQueue))
    {
      if sqlQueue != [] {
        db.ExecSQL(sqlQueue);
        sqlQueue := [];
      }
    }

    method ResolvePathHash(pathHash: Name) returns (r: Result<Option<(Path, int)>, ()>)
      ensures r.Ok? <==> Resolves(View(), pathHash)
      ensures r.Ok? && pathHash in pathHashIndex ==> r.value == Some(pathHashIndex[pathHash])
    {
      if pathHash in pathHashIndex {
        return Ok(Some(pathHashIndex[pathHash]));
      } else if named && pathHash == IndexBackup {
        return Ok(None);
      }
      return Err(());
    }

    /** Fails where the source's lookups throw. */
    method VerifyHash(pathHash: Name, fileHash: Digest) returns (r: Result<bool, ()>)
      ensures r.Err? <==> pathHash !in pathHashIndex || pathHashIndex[pathHash].0 !in fileIndex
      ensures r.Ok? ==> (r.value <==> Index.VerifyHash(View(), pathHash, fileHash))
    {
      if pathHash !in pathHashIndex || pathHashIndex[pathHash].0 !in fileIndex {
        return Err(());
      }
      var versions := fileIndex[pathHashIndex[pathHash].0];
      var i := 0;
      while i < |versions|
        invariant 0 <= i <= |versions|
        invariant forall j :: 0 <= j < i ==> versions[j].pathHash != pathHash || versions[j].fileHash != fileHash
      {
        if versions[i].pathHash == pathHash && versions[i].fileHash == fileHash {
          assert versions[i] in versions;
          return Ok(true);
        }
        i := i + 1;
      }
      return Ok(false);
    }

    /** Fails where the source's `at` throws: the path is no longer tracked. */
    method UploadSuccess(path: Path, objectName: Name) returns (ok: bool)
      modifies this
      ensures ok <==> IsBackup(old(View()), objectName) || path in old(fileIndex)
      ensures View() == if ok then Index.UploadSuccess(old(View()), path, objectName) else old(View())
    {
      if named && objectName == IndexBackup {
        return true;
      }
      if path !in fileIndex {
        return false;
      }
      var versions := fileIndex[path];
      ghost var marked := versions;
      var i := |versions|;
      while i > 0
        invariant 0 <= i <= |versions| == |marked| && fileIndex == old(fileIndex)[path := marked]
        invariant forall k :: 0 <= k < |versions| ==>
          marked[k] == if k < i then versions[k] else MarkRemote(versions, objectName)[k]
        invariant unchanged(`pathHashIndex) && unchanged(`dirIndex) && unchanged(`sqlQueue) && unchanged(`minted)
        invariant unchanged(`named)
      {
        i := i - 1;
        if versions[i].pathHash == objectName {
          fileIndex := fileIndex[path := fileIndex[path][i := versions[i].(remoteExists := true)]];
          marked := marked[i := versions[i].(remoteExists := true)];
        }
      }
      assert marked == MarkRemote(versions, objectName);
      sqlQueue := sqlQueue + [SetRemoteExists(objectName)];
      return true;
    }

    /** restoreDB when nothing comes between: what is in memory stays, the tables are put behind it. */
    method RestoreDB()
      modifies this
      ensures View() == ReadBack(old(View()), db.tables)
    {
      RestoreFileIdx();
      RestoreDirIdx();
      RestoreIdxBackupName();
    }

    method RestoreFileIdx()
      modifies this
      ensures View() == RestoreRows(old(View()), db.tables.rows)
    {
      var rows := db.tables.rows;
      var i := 0;
      while i < |rows|
        invariant 0 <= i <= |rows| && db.tables == old(db.tables)
        invariant RestoreRows(View(), rows[i..]) == RestoreRows(old(View()), rows)
      {
        assert rows[i..][0] == rows[i] && rows[i..][1..] == rows[i + 1..];
        RestoreFileRow(rows[i]);
        i := i + 1;
      }
    }

    /** The rows come in any order. */
    method RestoreDirIdx()
      modifies this
      ensures View() == old(View()).(dirs := db.tables.dirs + old(dirIndex))
    {
      var dirs := db.tables.dirs;
      var left := dirs.Keys;
      while left != {}
        invariant left <= dirs.Keys && db.tables == old(db.tables)
        invariant View() == old(View()).(dirs := dirIndex)
        invariant Merged(old(dirIndex), dirs, left, dirIndex)
        decreases |left|
      {
        var d :| d in left;
        MergedNext(View(), old(dirIndex), dirs, left, d);
        RestoreDirRow(d, dirs[d]);
        left := left - {d};
      }
      MergedAll(old(dirIndex), dirs, dirIndex);
    }

    /** What restoreFileIdx does with one row, under the lock; between two rows the lock is free. */
    method RestoreFileRow(row: Row)
      modifies this
      ensures View() == RestoreRow(old(View()), row)
    {
      if row.path !in fileIndex {
        fileIndex := fileIndex[row.path :=
          [FileVersion(Int32(row.modtime), row.pathHash, row.fileHash, row.localExists, row.remoteExists)]];
      } else {
        fileIndex := fileIndex[row.path :=
          fileIndex[row.path] + [FileVersion(Int32(row.modtime), row.pathHash, NoDigest, true, false)]];
      }
      if row.pathHash !in pathHashIndex {
        pathHashIndex := pathHashIndex[row.pathHash := (row.path, Int32(row.modtime))];
      }
    }

    /** What restoreDirIdx does with one row, under the lock. */
    method RestoreDirRow(dir: Path, recursive: bool)
      modifies this
      ensures View() == RestoreDir(old(View()), dir, recursive)
    {
      if dir !in dirIndex {
        dirIndex := dirIndex[dir := recursive];
      }
    }

    /** restoreIdxBackupName, or deriveIdxBackupName when there is no name yet. */
    method RestoreIdxBackupName()
      modifies this`named
      ensures View() == old(View()).(named := true)
    {
      named := true;
    }
  }
}
