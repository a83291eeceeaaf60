/** The daemon as a state machine.  One action is one small step of the watcher, one item of a sweep, a flush,
    a restart, one row that is read back, or an edit of a file by anybody; a run is any sequence of them. */
module Machine {
  import opened Common
  import opened FileSystem
  import opened Database
  import opened WorkQueue
  import opened Index
  import opened Steps
  import opened SecretStream

  /** Relative path of the temporary copy of the index that is uploaded as its backup. */
  const BACKUP_FILE: Path := "index.backup"

  /** A sweep stands `skip` items behind the front of its queue. */
  datatype Sweep = Idle | Uploading(skip: nat) | Deleting(skip: nat)

  /** `rest` holds the rows that have yet to be read back, and `cleaning` the listed objects a clean-up has
      yet to look at.  `recorded` and `runStart` are history: the content that was indexed under each random
      name, and the first name of this run. */
  datatype State = State(
    mem: Memory,
    db: Tables,
    bucket: map<Name, seq<Octet>>,
    fs: FS,
    sweep: Sweep,
    cleaning: seq<Name>,
    rest: Tables,
    key: Key,
    recorded: seq<seq<byte>>,
    runStart: nat)

  datatype Action =
    | Edit(fs: FS)
    | Watching(step: Step)
    | Flush
    | BackUpIndex
    | BeginUploads
    | UploadNext(stored: bool, header: seq<Octet>)
    | BeginDeletes
    | DeleteNext(ok: bool)
    | EndSweep
    | ListForCleaning(listed: seq<Name>)
    | CleanNext
    | Restart
    | RestoreFile
    | RestoreDirectory(dir: Path)
    | RestoreName

  function Init(key: Key, fs: FS, bucket: map<Name, seq<Octet>>): State {
    State(Started(0), Tables(map[], []), bucket, fs, Idle, [], Tables(map[], []), key, [], 0)
  }

  /** The watcher's thread is still reading rows back: it neither scans nor flushes nor backs up the index,
      while requests and the remote's thread are served.  The name of the backup comes last; deriving it may
      fail, and then everything goes on without one. */
  predicate Restoring(s: State) {
    s.rest != Tables(map[], [])
  }

  predicate CanPlay(s: State, step: Step) {
    Legal(s.mem, s.fs, step) && (Restoring(s) ==> Served(s.mem, step))
  }

  /** One item of the upload sweep: dropped when its file is gone or was modified since, stepped over when
      the transfer fails or the index refuses the news, and else stored and popped -- off the front. */
  function UploadStep(m: Memory, bucket: map<Name, seq<Octet>>, fs: FS, key: Key, skip: nat, stored: bool,
                      header: seq<Octet>): (r: (Memory, map<Name, seq<Octet>>, nat))
    requires skip < |m.uploads|
    ensures |r.0.uploads| - r.2 == |m.uploads| - skip - 1
  {
    var item := m.uploads[skip];
    if !fs.Exists(item.path) || fs.Mtime(item.path) != item.modtime then
      (m.(uploads := m.uploads[1..]), bucket, skip)
    else if !stored then
      (m, bucket, skip + 1)
    else
      var bucket' := bucket[item.objectName := Encrypted(key, header, fs.Content(item.path))];
      if IsBackup(m, item.objectName) || item.path in m.files then
        (UploadSuccess(m, item.path, item.objectName).(uploads := m.uploads[1..]), bucket', skip)
      else
        (m, bucket', skip + 1)
  }

  function DeleteStep(m: Memory, bucket: map<Name, seq<Octet>>, skip: nat, ok: bool)
    : (r: (Memory, map<Name, seq<Octet>>, nat))
    requires skip < |m.deletes|
    ensures |r.0.deletes| - r.2 == |m.deletes| - skip - 1
  {
    if ok then (m.(deletes := m.deletes[1..]), bucket - {m.deletes[skip]}, skip)
    else (m, bucket, skip + 1)
  }

  datatype DownloadError =
    | TransferFailed
    | DecryptionFailed(left: seq<byte>)
    | Untracked(left: seq<byte>)
    | HashMismatch

  /** Did the transfer complete, and what did the header buffer hold before decryption? */
  datatype Transfer = Transfer(completed: bool, junk: seq<Octet>)

  /** One item of the download sweep: fetch the object, decrypt it, and check the hash of the result
      against the index.  `left` is what a failed download leaves in the target file. */
  function Download(m: Memory, bucket: map<Name, seq<Octet>>, key: Key, n: Name, t: Transfer)
    : Result<seq<byte>, DownloadError>
    requires |t.junk| == HEADER
  {
    if !t.completed || n !in bucket then Err(TransferFailed)
    else
      var plain := Decrypted(key, bucket[n], t.junk);
      if !plain.accepted then Err(DecryptionFailed(plain.written))
      else if n !in m.names || m.names[n].0 !in m.files then Err(Untracked(plain.written))
      else if VerifyHash(m, n, Digest(plain.written)) then Ok(plain.written)
      else Err(HashMismatch)
  }

  /** One listed object: queued for deletion when nothing resolves it. */
  function CleanStep(m: Memory, n: Name): Memory {
    if Resolves(m, n) then m else m.(deletes := m.deletes + [n])
  }

  function RecordedAfter(recorded: seq<seq<byte>>, fs: FS, step: Step): seq<seq<byte>> {
    if step.NewVersion? then recorded + [fs.Content(step.path)] else recorded
  }

  /** An action that is not enabled leaves the state as it is. */
  function Next(s: State, a: Action): State {
    match a
    case Edit(fs) => s.(fs := fs)
    case Watching(step) =>
      if !CanPlay(s, step) then s
      else s.(mem := Play(s.mem, s.fs, step),
              recorded := RecordedAfter(s.recorded, s.fs, step))
    case Flush => if Restoring(s) then s else s.(db := ApplyAll(s.db, s.mem.sql), mem := s.mem.(sql := []))
    case BackUpIndex =>
      if Restoring(s) || !s.mem.named || !s.fs.Exists(BACKUP_FILE) then s
      else s.(mem := s.mem.(uploads :=
                s.mem.uploads + [UploadItem(BACKUP_FILE, IndexBackup, s.fs.Mtime(BACKUP_FILE))]))
    case BeginUploads => if s.sweep.Idle? then s.(sweep := Uploading(0)) else s
    case UploadNext(stored, header) =>
      if !s.sweep.Uploading? || s.sweep.skip >= |s.mem.uploads| || |header| != HEADER then s
      else
        var (m, bucket, skip) := UploadStep(s.mem, s.bucket, s.fs, s.key, s.sweep.skip, stored, header);
        s.(mem := m, bucket := bucket, sweep := Uploading(skip))
    case BeginDeletes => if s.sweep.Idle? then s.(sweep := Deleting(0)) else s
    case DeleteNext(ok) =>
      if !s.sweep.Deleting? || s.sweep.skip >= |s.mem.deletes| then s
      else
        var (m, bucket, skip) := DeleteStep(s.mem, s.bucket, s.sweep.skip, ok);
        s.(mem := m, bucket := bucket, sweep := Deleting(skip))
    case EndSweep =>
      if (s.sweep.Uploading? && s.sweep.skip >= |s.mem.uploads|)
         || (s.sweep.Deleting? && s.sweep.skip >= |s.mem.deletes|) then s.(sweep := Idle) else s
    case ListForCleaning(listed) =>
      if forall n | n in listed :: n in s.bucket then s.(cleaning := listed) else s
    case CleanNext =>
      if s.cleaning == [] then s
      else s.(mem := CleanStep(s.mem, s.cleaning[0]), cleaning := s.cleaning[1..])
    case Restart =>
      s.(mem := Started(s.mem.minted), rest := s.db, sweep := Idle, cleaning := [], runStart := s.mem.minted)
    case RestoreFile =>
      if s.rest.rows == [] then s
      else s.(mem := RestoreRow(s.mem, s.rest.rows[0]), rest := s.rest.(rows := s.rest.rows[1..]))
    case RestoreDirectory(d) =>
      if s.rest.rows != [] || d !in s.rest.dirs then s
      else s.(mem := RestoreDir(s.mem, d, s.rest.dirs[d]), rest := s.rest.(dirs := s.rest.dirs - {d}))
    case RestoreName =>
      if s.rest != Tables(map[], []) then s else s.(mem := s.mem.(named := true))
  }

  /** A backup of the index is queued for upload as the temporary file next to the daemon, under its name. */
  lemma BackUpQueues(s: State)
    ensures var ready := s.rest == Tables(map[], []) && s.mem.named && s.fs.Exists("index.backup");
      Next(s, BackUpIndex) == if !ready then s else
        s.(mem := s.mem.(uploads :=
          s.mem.uploads + [UploadItem("index.backup", IndexBackup, s.fs.Mtime("index.backup"))]))
  {}

  predicate CanUploadNext(s: State, header: seq<Octet>) {
    s.sweep.Uploading? && s.sweep.skip < |s.mem.uploads| && |header| == HEADER
  }

  /** The index was told that the item is stored, and the front of the queue was popped. */
  predicate Told(s: State, r: State, item: UploadItem) {
    && !IsBackup(s.mem, item.objectName) && item.path in s.mem.files && s.mem.uploads != []
    && r.mem == UploadSuccess(s.mem, item.path, item.objectName).(uploads := s.mem.uploads[1..])
    && item.objectName in r.bucket
  }

  /** All that the upload of one item can come to. */
  lemma UploadNextCases(s: State, stored: bool, header: seq<Octet>)
    requires CanUploadNext(s, header)
    ensures var r := Next(s, UploadNext(stored, header));
      var item := s.mem.uploads[s.sweep.skip];
      && r == s.(mem := r.mem, bucket := r.bucket, sweep := r.sweep)
      && (r.bucket == s.bucket
          || (s.fs.Exists(item.path) && s.fs.Mtime(item.path) == item.modtime
              && r.bucket == s.bucket[item.objectName := Encrypted(s.key, header, s.fs.Content(item.path))]))
      && (r.mem == s.mem || r.mem == s.mem.(uploads := s.mem.uploads[1..]) || Told(s, r, item))
  {}

  function Exec(s: State, run: seq<Action>): State
    decreases |run|
  {
    if run == [] then s else Exec(Next(s, run[0]), run[1..])
  }

  lemma {:induction false} ExecConcat(s: State, a: seq<Action>, b: seq<Action>)
    ensures Exec(s, a + b) == Exec(Exec(s, a), b)
    decreases |a|
  {
    if a == [] {
      assert a + b == b;
    } else {
      assert (a + b)[1..] == a[1..] + b;
      ExecConcat(Next(s, a[0]), a[1..], b);
    }
  }

  /** The tables as they will be once the pending batch has been executed. */
  function Committed(s: State): Tables {
    ApplyAll(s.db, s.mem.sql)
  }

  /** The actions that leave the index alone. */
  predicate Quiet(a: Action) {
    !a.Watching? && !a.UploadNext? && !a.Restart? && !a.RestoreFile? && !a.RestoreDirectory?
  }

  lemma QuietNext(s: State, a: Action)
    requires Quiet(a)
    ensures var r := Next(s, a);
      && r.mem.files == s.mem.files && r.mem.names == s.mem.names && r.mem.dirs == s.mem.dirs
      && r.mem.minted == s.mem.minted && r.rest == s.rest
      && r.recorded == s.recorded && r.runStart == s.runStart && r.key == s.key
      && (r.db == s.db || r.db == Committed(s)) && Committed(r) == Committed(s)
      && r.fs == (if a.Edit? then a.fs else s.fs)
  {
    if a.Flush? {
    } else if a.DeleteNext? {
    } else {
    }
  }

  /** Reading one row back leaves alone everything but the index and the rows to read. */
  lemma RestoreNext(s: State, a: Action)
    requires a.RestoreFile? || a.RestoreDirectory?
    ensures var r := Next(s, a);
      && r == s.(mem := r.mem, rest := r.rest)
      && r.mem == s.mem.(files := r.mem.files, names := r.mem.names, dirs := r.mem.dirs)
      && Committed(r) == Committed(s)
      && ReadBack(r.mem, r.rest) == ReadBack(s.mem, s.rest)
  {
    if a.RestoreDirectory? && s.rest.rows == [] && a.dir in s.rest.dirs {
      var r := Next(s, a);
      assert r.rest.dirs + r.mem.dirs == s.rest.dirs + s.mem.dirs;
    }
  }

  // ---------------------------------------------------------------- starts that nobody interrupts

  lemma {:induction false} RestoreFilesRun(s: State)
    ensures Exec(s, seq(|s.rest.rows|, _ => RestoreFile))
         == s.(mem := RestoreRows(s.mem, s.rest.rows), rest := s.rest.(rows := []))
    decreases |s.rest.rows|
  {
    if s.rest.rows != [] {
      var run := seq(|s.rest.rows|, _ => RestoreFile);
      assert run[1..] == seq(|s.rest.rows| - 1, _ => RestoreFile);
      RestoreFilesRun(Next(s, RestoreFile));
    }
  }

  function RestoreDirectories(dirs: seq<Path>): (r: seq<Action>)
    ensures |r| == |dirs|
  {
    seq(|dirs|, i requires 0 <= i < |dirs| => RestoreDirectory(dirs[i]))
  }

  lemma RestoreDirNext(s: State, d: Path)
    requires s.rest.rows == []
    ensures var r := Next(s, RestoreDirectory(d));
      && r == s.(mem := s.mem.(dirs := r.mem.dirs), rest := Tables(r.rest.dirs, []))
      && r.rest.dirs + r.mem.dirs == s.rest.dirs + s.mem.dirs
      && r.rest.dirs == s.rest.dirs - {d}
  {}

  lemma {:induction false} RestoreDirsRun(s: State, dirs: seq<Path>)
    requires s.rest.rows == []
    ensures var r := Exec(s, RestoreDirectories(dirs));
      && r == s.(mem := s.mem.(dirs := r.mem.dirs), rest := Tables(r.rest.dirs, []))
      && r.rest.dirs + r.mem.dirs == s.rest.dirs + s.mem.dirs
      && (forall d :: d in r.rest.dirs ==> d in s.rest.dirs && d !in dirs)
    decreases |dirs|
  {
    if dirs != [] {
      var run, r := RestoreDirectories(dirs), Next(s, RestoreDirectory(dirs[0]));
      assert run[1..] == RestoreDirectories(dirs[1..]);
      RestoreDirNext(s, dirs[0]);
      RestoreDirsRun(r, dirs[1..]);
    }
  }

  /** Reading the index back when nothing comes between, the directories in any order, is a run of the state
      machine. */
  lemma WholeRestoreIsRun(s: State, dirs: seq<Path>)
    requires forall d :: d in s.rest.dirs ==> d in dirs
    ensures Exec(s, seq(|s.rest.rows|, _ => RestoreFile) + RestoreDirectories(dirs) + [RestoreName])
         == s.(mem := ReadBack(s.mem, s.rest), rest := Tables(map[], []))
  {
    ExecThree(s, seq(|s.rest.rows|, _ => RestoreFile), RestoreDirectories(dirs), RestoreName);
    RestoreFilesRun(s);
    RestoreDirsThenName(s.(mem := RestoreRows(s.mem, s.rest.rows), rest := s.rest.(rows := [])), dirs);
  }

  lemma RestoreDirsThenName(s: State, dirs: seq<Path>)
    requires s.rest.rows == [] && forall d :: d in s.rest.dirs ==> d in dirs
    ensures Next(Exec(s, RestoreDirectories(dirs)), RestoreName)
         == s.(mem := s.mem.(dirs := s.rest.dirs + s.mem.dirs, named := true), rest := Tables(map[], []))
  {
    RestoreDirsRun(s, dirs);
    var r := Exec(s, RestoreDirectories(dirs));
    assert r.rest.dirs == map[];
    assert map[] + r.mem.dirs == r.mem.dirs;
  }

  lemma ExecThree(s: State, a: seq<Action>, b: seq<Action>, last: Action)
    ensures Exec(s, a + b + [last]) == Next(Exec(Exec(s, a), b), last)
  {
    ExecConcat(s, a + b, [last]);
    ExecConcat(s, a, b);
    ExecOne(Exec(s, a + b), last);
  }

  lemma ExecOne(s: State, a: Action)
    ensures Exec(s, [a]) == Next(s, a)
  {
    assert [a][1..] == [];
    assert Exec(Next(s, a), []) == Next(s, a);
  }

  /** The bucket holds nothing under a name that has yet to be drawn. */
  predicate Used(n: Name, minted: nat) {
    n.Random? ==> n.id < minted
  }
}
