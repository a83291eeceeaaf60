/** What the watcher's operations do to its memory, written as functions of the memory and of the file
    system snapshot they run on. */
module Index {
  import opened Common
  import opened FileSystem
  import opened Database
  import opened WorkQueue

  datatype FileVersion = FileVersion(
    modtime: int, pathHash: Name, fileHash: Digest,
    localExists: bool, remoteExists: bool)

  /** The index (`files`, its reverse lookup `names`, and `dirs`), the SQL that is pending, the work queued
      for the remote, the number of random names drawn so far, and whether the name of the index backup has
      been read back or derived yet: until then it is empty. */
  datatype Memory = Memory(
    files: map<Path, seq<FileVersion>>,
    names: map<Name, (Path, int)>,
    dirs: map<Path, bool>,
    sql: seq<Statement>,
    uploads: seq<UploadItem>,
    deletes: seq<Name>,
    minted: nat,
    named: bool)

  predicate Tracked(m: Memory, p: Path) {
    p in m.files && m.files[p] != []
  }

  predicate AllTracked(m: Memory, order: seq<Path>) {
    forall i :: 0 <= i < |order| ==> Tracked(m, order[i])
  }

  predicate AllWatched(m: Memory, order: seq<Path>) {
    forall i :: 0 <= i < |order| ==> order[i] in m.dirs
  }

  function Last(vs: seq<FileVersion>): FileVersion
    requires vs != []
  {
    vs[|vs| - 1]
  }

  function WithLast(vs: seq<FileVersion>, v: FileVersion): (r: seq<FileVersion>)
    requires vs != []
  {
    vs[..|vs| - 1] + [v]
  }

  function PathHashes(vs: seq<FileVersion>): (r: seq<Name>)
    ensures |r| == |vs|
    ensures forall i :: 0 <= i < |vs| ==> r[i] == vs[i].pathHash
  {
    seq(|vs|, i requires 0 <= i < |vs| => vs[i].pathHash)
  }

  function NewVersion(fs: FS, p: Path, id: nat): FileVersion {
    FileVersion(fs.Mtime(p), Random(id), Digest(fs.Content(p)), true, false)
  }

  function RowOf(p: Path, v: FileVersion): Row {
    Row(p, v.modtime, v.pathHash, v.fileHash, true, false)
  }

  function AddFileVersion(m: Memory, fs: FS, p: Path): Memory {
    var v := NewVersion(fs, p, m.minted);
    Memory(
      m.files[p := (if p in m.files then m.files[p] else []) + [v]],
      if v.pathHash in m.names then m.names else m.names[v.pathHash := (p, v.modtime)],
      m.dirs,
      m.sql + [InsertFile(RowOf(p, v))],
      m.uploads + (if fs.Exists(p) then [UploadItem(p, v.pathHash, v.modtime)] else []),
      m.deletes,
      m.minted + 1,
      m.named)
  }

  function AddFileWatch(m: Memory, fs: FS, p: Path): Memory {
    if IsSwap(p) || p in m.files then m else AddFileVersion(m, fs, p)
  }

  function WatchDir(m: Memory, p: Path, recursive: bool): Memory {
    m.(dirs := m.dirs[p := recursive], sql := m.sql + [InsertDir(p, recursive)])
  }

  function UnwatchDir(m: Memory, p: Path): Memory {
    m.(dirs := m.dirs - {p}, sql := m.sql + [DeleteDir(p)])
  }

  function AddDirWatch(m: Memory, fs: FS, p: Path, recursive: bool): (r: Memory)
    ensures forall d :: d in m.dirs ==> d in r.dirs && r.dirs[d] == m.dirs[d]
    ensures forall f :: f in m.files ==> f in r.files && r.files[f] == m.files[f]
    decreases fs.Depth(p), |fs.Entries(p)| + 1
  {
    if p in m.dirs then m else AddEntries(WatchDir(m, p, recursive), fs, p, fs.Entries(p), recursive)
  }

  function AddEntries(m: Memory, fs: FS, parent: Path, entries: seq<Path>, recursive: bool): (r: Memory)
    requires fs.Below(parent, entries)
    ensures forall d :: d in m.dirs ==> d in r.dirs && r.dirs[d] == m.dirs[d]
    ensures forall f :: f in m.files ==> f in r.files && r.files[f] == m.files[f]
    decreases fs.Depth(parent), |entries|
  {
    if entries == [] then m
    else
      var e := entries[0];
      var m' :=
        if fs.IsDirectory(e) && recursive then AddDirWatch(m, fs, e, true)
        else if fs.IsRegular(e) then AddFileWatch(m, fs, e)
        else m;
      AddEntries(m', fs, parent, entries[1..], recursive)
  }

  /** One turn of the loops over directory entries. */
  lemma AddEntriesNext(m: Memory, fs: FS, parent: Path, entries: seq<Path>, i: nat, recursive: bool, next: Memory)
    requires fs.Below(parent, entries) && i < |entries|
    requires next ==
      if fs.IsDirectory(entries[i]) && recursive then AddDirWatch(m, fs, entries[i], true)
      else if fs.IsRegular(entries[i]) then AddFileWatch(m, fs, entries[i])
      else m
    ensures AddEntries(m, fs, parent, entries[i..], recursive)
         == AddEntries(next, fs, parent, entries[i + 1..], recursive)
  {}

  function AddWatch(m: Memory, fs: FS, p: Path, recursive: bool): Memory {
    if fs.IsDirectory(p) then AddDirWatch(m, fs, p, recursive)
    else if fs.IsRegular(p) then AddFileWatch(m, fs, p)
    else m
  }

  function DelFileWatch(m: Memory, p: Path): Memory {
    var hashes := PathHashes(if p in m.files then m.files[p] else []);
    m.(files := m.files - {p},
       names := m.names - (set n | n in hashes),
       sql := m.sql + [DeleteFile(p)],
       deletes := m.deletes + hashes)
  }

  function DelDirWatch(m: Memory, fs: FS, p: Path, recursive: bool): Memory
    decreases fs.Depth(p), |fs.Entries(p)| + 1
  {
    UnwatchDir(DelEntries(m, fs, p, fs.Entries(p), recursive), p)
  }

  function DelEntries(m: Memory, fs: FS, parent: Path, entries: seq<Path>, recursive: bool): Memory
    requires fs.Below(parent, entries)
    decreases fs.Depth(parent), |entries|
  {
    if entries == [] then m
    else
      var e := entries[0];
      var m' :=
        if fs.IsDirectory(e) && recursive then DelDirWatch(m, fs, e, true)
        else if fs.IsRegular(e) then DelFileWatch(m, e)
        else m;
      DelEntries(m', fs, parent, entries[1..], recursive)
  }

  lemma DelEntriesNext(m: Memory, fs: FS, parent: Path, entries: seq<Path>, i: nat, recursive: bool, next: Memory)
    requires fs.Below(parent, entries) && i < |entries|
    requires next ==
      if fs.IsDirectory(entries[i]) && recursive then DelDirWatch(m, fs, entries[i], true)
      else if fs.IsRegular(entries[i]) then DelFileWatch(m, entries[i])
      else m
    ensures DelEntries(m, fs, parent, entries[i..], recursive)
         == DelEntries(next, fs, parent, entries[i + 1..], recursive)
  {}

  function DelWatch(m: Memory, fs: FS, p: Path, recursive: bool): Memory {
    if fs.IsDirectory(p) then DelDirWatch(m, fs, p, recursive)
    else if fs.IsRegular(p) then DelFileWatch(m, p)
    else m
  }

  /** The latest version stops being the one on disk: only memory is told. */
  function Supersede(m: Memory, p: Path): Memory
    requires Tracked(m, p)
  {
    m.(files := m.files[p := WithLast(m.files[p], Last(m.files[p]).(localExists := false))])
  }

  function MarkGone(m: Memory, p: Path): Memory
    requires Tracked(m, p)
  {
    Supersede(m, p).(sql := m.sql + [ClearLocalExists(p)])
  }

  /** What the first half of a scan does with a file that is live and there. */
  function Refreshed(m: Memory, fs: FS, p: Path): Memory
    requires Tracked(m, p)
  {
    if fs.Mtime(p) != Last(m.files[p]).modtime then AddFileVersion(Supersede(m, p), fs, p) else m
  }

  /** The first half of a scan.  A file that is not live, or is found to be gone, ends it. */
  function ScanFiles(m: Memory, fs: FS, order: seq<Path>): Memory
    requires AllTracked(m, order)
    decreases |order|
  {
    if order == [] then m
    else
      var p := order[0];
      if !Last(m.files[p]).localExists then m
      else if !fs.Exists(p) then MarkGone(m, p)
      else ScanFiles(Refreshed(m, fs, p), fs, order[1..])
  }

  /** The second half of a scan.  A watched directory that is gone is dropped and ends it. */
  function ScanDirs(m: Memory, fs: FS, order: seq<Path>): Memory
    requires AllWatched(m, order)
    decreases |order|
  {
    if order == [] then m
    else
      var d := order[0];
      if !fs.Exists(d) then UnwatchDir(m, d)
      else ScanDirs(AddEntries(m, fs, d, fs.Entries(d), m.dirs[d]), fs, order[1..])
  }

  /** One turn of the loop over the watched directories. */
  lemma ScanDirsNext(m: Memory, fs: FS, order: seq<Path>, i: nat)
    requires i < |order| && AllWatched(m, order[i..])
    ensures order[i] in m.dirs
    ensures !fs.Exists(order[i]) ==> ScanDirs(m, fs, order[i..]) == UnwatchDir(m, order[i])
    ensures fs.Exists(order[i]) ==>
      var r := AddEntries(m, fs, order[i], fs.Entries(order[i]), m.dirs[order[i]]);
      AllWatched(r, order[i + 1..]) && ScanDirs(m, fs, order[i..]) == ScanDirs(r, fs, order[i + 1..])
  {
    assert order[i..][0] == order[i] && order[i..][1..] == order[i + 1..];
  }

  lemma {:induction false} ScanFilesKeepsDirs(m: Memory, fs: FS, order: seq<Path>)
    requires AllTracked(m, order)
    ensures ScanFiles(m, fs, order).dirs == m.dirs
    decreases |order|
  {
    if order != [] && Last(m.files[order[0]]).localExists && fs.Exists(order[0]) {
      ScanFilesKeepsDirs(Refreshed(m, fs, order[0]), fs, order[1..]);
    }
  }

  function Scan(m: Memory, fs: FS, fileOrder: seq<Path>, dirOrder: seq<Path>): Memory
    requires AllTracked(m, fileOrder)
    requires AllWatched(m, dirOrder)
  {
    ScanFilesKeepsDirs(m, fs, fileOrder);
    ScanDirs(ScanFiles(m, fs, fileOrder), fs, dirOrder)
  }

  /** The remote stored the object: every version of the path with that name is marked. */
  function MarkRemote(vs: seq<FileVersion>, n: Name): (r: seq<FileVersion>)
    ensures |r| == |vs|
  {
    seq(|vs|, i requires 0 <= i < |vs| => if vs[i].pathHash == n then vs[i].(remoteExists := true) else vs[i])
  }

  predicate IsBackup(m: Memory, n: Name) {
    m.named && n == IndexBackup
  }

  function UploadSuccess(m: Memory, p: Path, n: Name): Memory
    requires IsBackup(m, n) || p in m.files
  {
    if IsBackup(m, n) then m
    else m.(files := m.files[p := MarkRemote(m.files[p], n)], sql := m.sql + [SetRemoteExists(n)])
  }

  predicate Resolves(m: Memory, n: Name) {
    n in m.names || IsBackup(m, n)
  }

  /** Does the index hold this digest for the version with this name? */
  predicate VerifyHash(m: Memory, n: Name, d: Digest) {
    n in m.names && m.names[n].0 in m.files &&
    exists v :: v in m.files[m.names[n].0] && v.pathHash == n && v.fileHash == d
  }

  /** Reading the index back from a row: the first row of a path is read whole, of a later one only the
      modtime and the name survive; modtimes come back as 32-bit ints. */
  function Restored(r: Row, first: bool): FileVersion {
    if first then FileVersion(Int32(r.modtime), r.pathHash, r.fileHash, r.localExists, r.remoteExists)
    else FileVersion(Int32(r.modtime), r.pathHash, NoDigest, true, false)
  }

  /** One file row.  Whatever is in memory by then stays. */
  function RestoreRow(m: Memory, r: Row): Memory {
    m.(files := m.files[r.path :=
           if r.path in m.files then m.files[r.path] + [Restored(r, false)] else [Restored(r, true)]],
       names := if r.pathHash in m.names then m.names else m.names[r.pathHash := (r.path, Int32(r.modtime))])
  }

  function RestoreRows(m: Memory, rows: seq<Row>): Memory
    decreases |rows|
  {
    if rows == [] then m else RestoreRows(RestoreRow(m, rows[0]), rows[1..])
  }

  /** One directory row: insertion does not overwrite. */
  function RestoreDir(m: Memory, d: Path, recursive: bool): Memory {
    if d in m.dirs then m else m.(dirs := m.dirs[d := recursive])
  }

  /** `r` is `dirs` with all of `more` but `left` inserted. */
  ghost predicate Merged(dirs: map<Path, bool>, more: map<Path, bool>, left: set<Path>, r: map<Path, bool>) {
    forall d ::
      && (d in r <==> d in dirs || (d in more && d !in left))
      && (d in r ==> r[d] == if d in dirs then dirs[d] else more[d])
  }

  lemma MergedNext(m: Memory, dirs: map<Path, bool>, more: map<Path, bool>, left: set<Path>, d: Path)
    requires Merged(dirs, more, left, m.dirs) && d in left && d in more
    ensures Merged(dirs, more, left - {d}, RestoreDir(m, d, more[d]).dirs)
  {}

  lemma MergedAll(dirs: map<Path, bool>, more: map<Path, bool>, r: map<Path, bool>)
    requires Merged(dirs, more, {}, r)
    ensures r == more + dirs
  {}

  /** Everything that is still to be read back, file rows first and the backup's name last. */
  function ReadBack(m: Memory, rest: Tables): Memory {
    var r := RestoreRows(m, rest.rows);
    r.(dirs := rest.dirs + r.dirs, named := true)
  }

  /** What is in memory when the daemon has just been started. */
  function Started(minted: nat): Memory {
    Memory(map[], map[], map[], [], [], [], minted, false)
  }
}
