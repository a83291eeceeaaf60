/** Nothing that is tracked is ever deleted from the bucket -- as long as no clean-up runs into rows that are
    still being read back. */
module Safety {
  import opened Common
  import opened FileSystem
  import opened Database
  import opened WorkQueue
  import opened Index
  import opened Steps
  import opened Machine
  import opened IndexInvariant
  import opened Refinement
  import Sweeps

  type Bucket = Sweeps.Bucket

  /** Every version of the path that is marked as stored is in the bucket; with `all` unset, only the
      versions recorded since the last restart. */
  ghost predicate Stored(vs: seq<FileVersion>, bucket: Bucket, runStart: nat, all: bool) {
    forall i :: 0 <= i < |vs| && vs[i].remoteExists && (all || Recorded(vs[i], runStart)) ==> vs[i].pathHash in bucket
  }

  ghost predicate RowsStored(rows: seq<Row>, bucket: Bucket) {
    forall i :: 0 <= i < |rows| && rows[i].remoteExists ==> rows[i].pathHash in bucket
  }

  /** The name is tracked, is that of the index backup, or will be tracked once everything is read back. */
  ghost predicate WillResolve(s: State, n: Name) {
    n in s.mem.names || Due(s.rest.rows, n) || n == IndexBackup
  }

  /** It is not known yet, but will be. */
  ghost predicate Awaited(s: State, n: Name) {
    Due(s.rest.rows, n) || (n == IndexBackup && !s.mem.named)
  }

  /** Names in the queues and in the bucket are used up, and nothing recorded in this run is tracked and
      queued for deletion. */
  ghost predicate NamesSafe(s: State) {
    && (forall k :: 0 <= k < |s.mem.deletes| ==>
          && Used(s.mem.deletes[k], s.mem.minted)
          && (Drawn(s.mem.deletes[k], s.runStart) || s.mem.deletes[k] !in s.mem.names))
    && (forall k :: 0 <= k < |s.cleaning| ==> Used(s.cleaning[k], s.mem.minted))
    && (forall n :: n in s.bucket ==> Used(n, s.mem.minted))
  }

  /** Nothing that is or will be tracked, nor the index backup, is queued for deletion. */
  ghost predicate DeletesSafe(s: State) {
    forall k :: 0 <= k < |s.mem.deletes| ==> !WillResolve(s, s.mem.deletes[k])
  }

  /** Every tracked version that is marked as stored is in the bucket. */
  ghost predicate TrackedStored(s: State, all: bool) {
    forall p :: p in s.mem.files ==> Stored(s.mem.files[p], s.bucket, s.runStart, all)
  }

  /** `all` speaks of restored versions and of the rows as well. */
  ghost predicate Safe(s: State, all: bool) {
    && NamesSafe(s)
    && TrackedStored(s, all)
    && (all ==> DeletesSafe(s) && RowsStored(Committed(s).rows, s.bucket) && RowsStored(s.rest.rows, s.bucket))
  }

  // ---------------------------------------------------------------- the queues

  lemma NamesPlay(m: Memory, fs: FS, step: Step)
    requires Legal(m, fs, step)
    ensures var r := Play(m, fs, step);
      && r.minted == (if step.NewVersion? then m.minted + 1 else m.minted)
      && (forall n :: n in r.names ==> n in m.names || n == Random(m.minted))
      && m.deletes <= r.deletes
      && (!step.Forget? ==> r.deletes == m.deletes)
  {}

  /** The names a dropped file leaves in the delete queue were its own. */
  lemma ForgottenNames(m: Memory, p: Path, k: nat)
    requires Indexed(m) && |m.deletes| <= k < |DelFileWatch(m, p).deletes|
    ensures var n := DelFileWatch(m, p).deletes[k];
      n in m.names && Drawn(n, m.minted) && n !in DelFileWatch(m, p).names
  {
    assert p in m.files ==> HistoryOk(m, p, m.files[p]);
  }

  lemma NamesSafePlay(s: State, step: Step)
    requires Inv(s) && NamesSafe(s) && CanPlay(s, step)
    ensures NamesSafe(Next(s, Watching(step)))
  {
    var r := Next(s, Watching(step));
    NamesPlay(s.mem, s.fs, step);
    forall k | 0 <= k < |r.mem.deletes|
      ensures Used(r.mem.deletes[k], r.mem.minted)
      ensures Drawn(r.mem.deletes[k], s.runStart) || r.mem.deletes[k] !in r.mem.names
    {
      if k < |s.mem.deletes| {
        assert r.mem.deletes[k] == s.mem.deletes[k];
      } else {
        ForgottenNames(s.mem, step.path, k);
      }
    }
  }

  lemma DeletesSafePlay(s: State, step: Step)
    requires Inv(s) && NamesSafe(s) && DeletesSafe(s) && CanPlay(s, step)
    ensures DeletesSafe(Next(s, Watching(step)))
  {
    var r := Next(s, Watching(step));
    NamesPlay(s.mem, s.fs, step);
    forall k | 0 <= k < |r.mem.deletes| ensures !WillResolve(r, r.mem.deletes[k]) {
      if k < |s.mem.deletes| {
        assert r.mem.deletes[k] == s.mem.deletes[k];
      } else {
        ForgottenNames(s.mem, step.path, k);
      }
    }
  }

  lemma NamesSafeUploadNext(s: State, stored: bool, header: seq<SecretStream.Octet>)
    requires Inv(s) && NamesSafe(s) && CanUploadNext(s, header)
    ensures NamesSafe(Next(s, UploadNext(stored, header)))
    ensures DeletesSafe(s) ==> DeletesSafe(Next(s, UploadNext(stored, header)))
  {
    var r := Next(s, UploadNext(stored, header));
    UploadNextCases(s, stored, header);
    assert ItemOk(s.mem, s.mem.uploads[s.sweep.skip]);
    forall n ensures WillResolve(r, n) <==> WillResolve(s, n) {}
  }

  lemma NamesSafeQuiet(s: State, a: Action)
    requires NamesSafe(s) && Quiet(a)
    ensures NamesSafe(Next(s, a))
  {
    var r := Next(s, a);
    QuietNext(s, a);
    if a.ListForCleaning? {
      forall k | 0 <= k < |r.cleaning| ensures Used(r.cleaning[k], r.mem.minted) {
        assert r.cleaning != s.cleaning ==> a.listed[k] in a.listed;
      }
    } else if a.CleanNext? {
      forall k | 0 <= k < |r.cleaning| ensures Used(r.cleaning[k], r.mem.minted) {
        assert s.cleaning != [] ==> r.cleaning[k] == s.cleaning[k + 1];
      }
    } else if a.DeleteNext? {
    } else {
    }
  }

  lemma NamesSafeRestoreFile(s: State)
    requires Inv(s) && NamesSafe(s) && s.rest.rows != []
    ensures NamesSafe(Next(s, RestoreFile))
    ensures DeletesSafe(s) ==> DeletesSafe(Next(s, RestoreFile))
  {
    var r := Next(s, RestoreFile);
    forall n ensures WillResolve(r, n) <==> WillResolve(s, n) {
      DueFirst(s.rest.rows, n);
    }
  }

  lemma NamesSafeNext(s: State, a: Action)
    requires Inv(s) && NamesSafe(s)
    ensures NamesSafe(Next(s, a))
  {
    if a.Watching? {
      if CanPlay(s, a.step) {
        NamesSafePlay(s, a.step);
      }
    } else if a.UploadNext? {
      if CanUploadNext(s, a.header) {
        NamesSafeUploadNext(s, a.stored, a.header);
      }
    } else if a.RestoreFile? {
      if s.rest.rows != [] {
        NamesSafeRestoreFile(s);
      }
    } else if Quiet(a) {
      NamesSafeQuiet(s, a);
    }
  }

  /** The clean-up does not look at a name that is still to be read back. */
  ghost predicate CleansSafely(s: State, a: Action) {
    a.CleanNext? && s.cleaning != [] ==> !Awaited(s, s.cleaning[0])
  }

  lemma DeletesSafeClean(s: State)
    requires Inv(s) && DeletesSafe(s) && s.cleaning != []
    ensures DeletesSafe(Next(s, CleanNext)) <==> CleansSafely(s, CleanNext)
  {
    var r, n := Next(s, CleanNext), s.cleaning[0];
    TrackedNamesDrawn(s.mem);
    assert forall x :: WillResolve(r, x) <==> WillResolve(s, x);
    if Resolves(s.mem, n) {
      assert r.mem == s.mem;
    } else {
      assert Awaited(s, n) <==> WillResolve(s, n);
      assert r.mem.deletes == s.mem.deletes + [n] && r.mem.deletes[|s.mem.deletes|] == n;
    }
  }

  lemma DeletesSafeQuiet(s: State, a: Action)
    requires DeletesSafe(s) && Quiet(a) && !a.CleanNext?
    ensures DeletesSafe(Next(s, a))
  {
    QuietNext(s, a);
    if a.DeleteNext? {
    } else {
    }
  }

  /** An action keeps tracked names out of the delete queue exactly when it is not a clean-up that looks at a
      name still to be read back: such a name is queued for deletion, and tracked afterwards. */
  lemma DeletesSafeExactlyWhen(s: State, a: Action)
    requires Inv(s) && NamesSafe(s) && DeletesSafe(s)
    ensures DeletesSafe(Next(s, a)) <==> CleansSafely(s, a)
  {
    if a.Watching? {
      if CanPlay(s, a.step) {
        DeletesSafePlay(s, a.step);
      }
    } else if a.UploadNext? {
      if CanUploadNext(s, a.header) {
        NamesSafeUploadNext(s, a.stored, a.header);
      }
    } else if a.RestoreFile? {
      if s.rest.rows != [] {
        NamesSafeRestoreFile(s);
      }
    } else if a.RestoreDirectory? {
      RestoreNext(s, a);
    } else if a.CleanNext? {
      if s.cleaning != [] {
        DeletesSafeClean(s);
      }
    } else if !a.Restart? {
      DeletesSafeQuiet(s, a);
    }
  }

  // ---------------------------------------------------------------- the bucket

  lemma StoredAfter(m: Memory, fs: FS, step: Step, p: Path, bucket: Bucket, runStart: nat, all: bool)
    requires Legal(m, fs, step)
    requires Stored(VersionsOf(m, p), bucket, runStart, all)
    ensures Stored(VersionsOf(Play(m, fs, step), p), bucket, runStart, all)
  {}

  lemma RowsStoredAfter(t: Tables, stmt: Statement, bucket: Bucket)
    requires RowsStored(t.rows, bucket)
    requires stmt.InsertFile? ==> !stmt.row.remoteExists
    requires stmt.SetRemoteExists? ==> stmt.pathHash in bucket
    ensures RowsStored(Apply(t, stmt).rows, bucket)
  {
    if stmt.DeleteFile? {
      var rows := WithoutPath(t.rows, stmt.path);
      forall i | 0 <= i < |rows| && rows[i].remoteExists ensures rows[i].pathHash in bucket {
        WithoutPathMembers(t.rows, stmt.path, i);
      }
    }
  }

  lemma SafeWatching(s: State, step: Step, all: bool)
    requires Inv(s) && Safe(s, all) && CanPlay(s, step)
    ensures Safe(Next(s, Watching(step)), all)
  {
    var r := Next(s, Watching(step));
    NamesSafePlay(s, step);
    forall p | p in r.mem.files ensures Stored(r.mem.files[p], r.bucket, r.runStart, all) {
      assert p in s.mem.files ==> Stored(s.mem.files[p], s.bucket, s.runStart, all);
      StoredAfter(s.mem, s.fs, step, p, s.bucket, s.runStart, all);
    }
    if all {
      DeletesSafePlay(s, step);
      CommittedPlay(s, step);
      RowsStoredAfter(Committed(s), StatementOf(s.mem, s.fs, step), s.bucket);
    }
  }

  lemma SafeTold(s: State, r: State, item: UploadItem, all: bool)
    requires Safe(s, all) && NamesSafe(r) && (all ==> DeletesSafe(r)) && Told(s, r, item)
    requires r == s.(mem := r.mem, bucket := r.bucket, sweep := r.sweep)
    requires s.bucket.Keys <= r.bucket.Keys
    ensures Safe(r, all)
  {
    forall p | p in r.mem.files ensures Stored(r.mem.files[p], r.bucket, r.runStart, all) {
      assert Stored(s.mem.files[p], s.bucket, s.runStart, all);
    }
    CommittedAppend(s, SetRemoteExists(item.objectName), r.mem);
    if all {
      assert RowsStored(Committed(s).rows, r.bucket);
      RowsStoredAfter(Committed(s), SetRemoteExists(item.objectName), r.bucket);
    }
  }

  /** The index is left alone and the bucket only grows. */
  lemma SafeGrowing(s: State, r: State, all: bool)
    requires Safe(s, all) && NamesSafe(r) && (all ==> DeletesSafe(r))
    requires r.mem.files == s.mem.files && r.runStart == s.runStart && Committed(r) == Committed(s)
    requires r.rest.rows == s.rest.rows && s.bucket.Keys <= r.bucket.Keys
    ensures Safe(r, all)
  {
    forall p | p in r.mem.files ensures Stored(r.mem.files[p], r.bucket, r.runStart, all) {
      assert Stored(s.mem.files[p], s.bucket, s.runStart, all);
    }
  }

  lemma SafeUploadNext(s: State, stored: bool, header: seq<SecretStream.Octet>, all: bool)
    requires Inv(s) && Safe(s, all) && CanUploadNext(s, header)
    ensures Safe(Next(s, UploadNext(stored, header)), all)
  {
    var r := Next(s, UploadNext(stored, header));
    var item := s.mem.uploads[s.sweep.skip];
    UploadNextCases(s, stored, header);
    NamesSafeUploadNext(s, stored, header);
    if Told(s, r, item) {
      SafeTold(s, r, item, all);
    } else {
      SafeGrowing(s, r, all);
    }
  }

  /** Every row that will be in the tables has a name that is or will be tracked. */
  lemma RowsResolve(s: State, i: nat)
    requires Inv(s) && i < |Committed(s).rows|
    ensures WillResolve(s, Committed(s).rows[i].pathHash)
  {
    assert CoveredRow(s.mem, s.rest.rows, Committed(s).rows[i]);
  }

  lemma SafeDeleteNext(s: State, ok: bool, all: bool)
    requires Inv(s) && Safe(s, all)
    requires s.sweep.Deleting? && s.sweep.skip < |s.mem.deletes|
    ensures Safe(Next(s, DeleteNext(ok)), all)
  {
    var r := Next(s, DeleteNext(ok));
    var n := s.mem.deletes[s.sweep.skip];
    QuietNext(s, DeleteNext(ok));
    NamesSafeQuiet(s, DeleteNext(ok));
    assert forall x :: x in s.bucket && x != n ==> x in r.bucket;
    forall p | p in r.mem.files ensures Stored(r.mem.files[p], r.bucket, r.runStart, all) {
      assert Stored(s.mem.files[p], s.bucket, s.runStart, all);
      assert HistoryOk(s.mem, p, s.mem.files[p]);
      assert all ==> !WillResolve(s, n);
    }
    if all {
      DeletesSafeQuiet(s, DeleteNext(ok));
      SafeRowsDelete(s, r, n);
    }
  }

  lemma SafeRowsDelete(s: State, r: State, n: Name)
    requires Inv(s) && !WillResolve(s, n)
    requires RowsStored(Committed(s).rows, s.bucket) && RowsStored(s.rest.rows, s.bucket)
    requires Committed(r) == Committed(s) && r.rest == s.rest
    requires forall x :: x in s.bucket && x != n ==> x in r.bucket
    ensures RowsStored(Committed(r).rows, r.bucket) && RowsStored(r.rest.rows, r.bucket)
  {
    var rows := Committed(s).rows;
    forall i | 0 <= i < |rows| ensures rows[i].pathHash != n {
      RowsResolve(s, i);
    }
  }

  ghost predicate DeletePending(sql: seq<Statement>, p: Path) {
    DeleteFile(p) in sql
  }

  /** The restart loses no deletion of a path of which a stored version has lost its object already. */
  ghost predicate RestartsSafely(s: State, a: Action) {
    a.Restart? ==>
      forall r :: r in s.db.rows && r.remoteExists && DeletePending(s.mem.sql, r.path) ==> r.pathHash in s.bucket
  }

  /** The row, marked as stored, under the same name, is still there. */
  ghost predicate StoredUnder(rows: seq<Row>, p: Path, n: Name) {
    exists i :: 0 <= i < |rows| && rows[i].path == p && rows[i].pathHash == n && rows[i].remoteExists
  }

  lemma {:induction false} WithoutOtherPath(rows: seq<Row>, q: Path, p: Path, n: Name)
    requires p != q && StoredUnder(rows, p, n)
    ensures StoredUnder(WithoutPath(rows, q), p, n)
    decreases |rows|
  {
    var front, last := rows[..|rows| - 1], rows[|rows| - 1];
    var r := WithoutPath(rows, q);
    if last.path == p && last.pathHash == n && last.remoteExists {
      assert r[|r| - 1] == last;
    } else {
      var i :| 0 <= i < |rows| && rows[i].path == p && rows[i].pathHash == n && rows[i].remoteExists;
      assert front[i] == rows[i];
      WithoutOtherPath(front, q, p, n);
      var k :| 0 <= k < |WithoutPath(front, q)| && WithoutPath(front, q)[k].path == p
        && WithoutPath(front, q)[k].pathHash == n && WithoutPath(front, q)[k].remoteExists;
      assert r[k] == WithoutPath(front, q)[k];
    }
  }

  lemma RowSurvivesOne(t: Tables, stmt: Statement, p: Path, n: Name)
    requires StoredUnder(t.rows, p, n) && stmt != DeleteFile(p)
    ensures StoredUnder(Apply(t, stmt).rows, p, n)
  {
    if stmt.DeleteFile? {
      WithoutOtherPath(t.rows, stmt.path, p, n);
    } else {
      var i :| 0 <= i < |t.rows| && t.rows[i].path == p && t.rows[i].pathHash == n && t.rows[i].remoteExists;
      var r := Apply(t, stmt).rows[i];
      assert r.path == p && r.pathHash == n && r.remoteExists;
    }
  }

  lemma {:induction false} RowSurvives(t: Tables, sql: seq<Statement>, p: Path, n: Name)
    requires StoredUnder(t.rows, p, n) && !DeletePending(sql, p)
    ensures StoredUnder(ApplyAll(t, sql).rows, p, n)
    decreases |sql|
  {
    if sql != [] {
      RowSurvivesOne(t, sql[0], p, n);
      RowSurvives(Apply(t, sql[0]), sql[1..], p, n);
    }
  }

  /** What can be told before a restart: when all rows with the pending SQL executed have their objects, so do
      the rows as they were flushed, exactly when this holds of the flushed rows with a pending deletion. */
  lemma FlushedStoredExactlyWhen(s: State)
    requires RowsStored(Committed(s).rows, s.bucket)
    ensures RowsStored(s.db.rows, s.bucket) <==> RestartsSafely(s, Restart)
  {
    if RestartsSafely(s, Restart) {
      var rows := s.db.rows;
      forall i | 0 <= i < |rows| && rows[i].remoteExists ensures rows[i].pathHash in s.bucket {
        if !DeletePending(s.mem.sql, rows[i].path) {
          assert StoredUnder(rows, rows[i].path, rows[i].pathHash);
          RowSurvives(s.db, s.mem.sql, rows[i].path, rows[i].pathHash);
        }
      }
    }
  }

  /** In particular a restart that loses no deletion of a file does no harm, whatever else it loses. */
  lemma LosingNoDeletionIsSafe(s: State)
    requires forall k :: 0 <= k < |s.mem.sql| ==> !s.mem.sql[k].DeleteFile?
    ensures RestartsSafely(s, Restart)
  {}

  /** A restart is safe for what is recorded after it; for everything it reads back, too, if it loses no
      deletion that has taken effect in the bucket. */
  lemma SafeRestart(s: State, all: bool)
    requires Inv(s) && Safe(s, all) && (all ==> RestartsSafely(s, Restart))
    ensures Safe(Next(s, Restart), all)
  {
    assert Committed(Next(s, Restart)) == s.db;
    if all {
      FlushedStoredExactlyWhen(s);
    }
  }

  lemma StoredRestored(vs: seq<FileVersion>, row: Row, bucket: Bucket, runStart: nat, all: bool)
    requires Stored(vs, bucket, runStart, all) && Drawn(row.pathHash, runStart)
    requires all && row.remoteExists ==> row.pathHash in bucket
    ensures Stored(vs + [Restored(row, vs == [])], bucket, runStart, all)
  {}

  lemma SafeRestoreFile(s: State, all: bool)
    requires Inv(s) && Safe(s, all) && s.rest.rows != []
    ensures Safe(Next(s, RestoreFile), all)
  {
    var r, row := Next(s, RestoreFile), s.rest.rows[0];
    assert Committed(r) == Committed(s);
    NamesSafeRestoreFile(s);
    IndexedHistories(s.mem);
    forall p | p in r.mem.files ensures Stored(r.mem.files[p], r.bucket, r.runStart, all) {
      assert p in s.mem.files ==> Stored(s.mem.files[p], s.bucket, s.runStart, all);
      if p == row.path {
        StoredRestored(VersionsOf(s.mem, p), row, s.bucket, s.runStart, all);
        assert r.mem.files[p] == VersionsOf(s.mem, p) + [Restored(row, VersionsOf(s.mem, p) == [])];
      }
    }
  }

  /** With `all` set: no restart loses a deletion that has taken effect in the bucket, and no clean-up looks at
      a name still to be read back. */
  ghost predicate Careful(s: State, a: Action, all: bool) {
    all ==> RestartsSafely(s, a) && CleansSafely(s, a)
  }

  lemma SafeOther(s: State, a: Action, all: bool)
    requires Inv(s) && Safe(s, all) && Careful(s, a, all)
    requires (Quiet(a) || a.RestoreDirectory?) && !a.DeleteNext?
    ensures Safe(Next(s, a), all)
  {
    var r := Next(s, a);
    NamesSafeNext(s, a);
    if all {
      DeletesSafeExactlyWhen(s, a);
    }
    if a.RestoreDirectory? {
      RestoreNext(s, a);
      assert r.mem.files == s.mem.files && r.rest.rows == s.rest.rows;
    } else {
      QuietNext(s, a);
    }
    SafeGrowing(s, r, all);
  }

  lemma {:induction false} SafeNext(s: State, a: Action, all: bool)
    requires Inv(s) && Safe(s, all) && Careful(s, a, all)
    ensures Safe(Next(s, a), all)
  {
    if a.Watching? {
      if CanPlay(s, a.step) {
        SafeWatching(s, a.step, all);
      }
    } else if a.UploadNext? {
      if CanUploadNext(s, a.header) {
        SafeUploadNext(s, a.stored, a.header, all);
      }
    } else if a.DeleteNext? {
      if s.sweep.Deleting? && s.sweep.skip < |s.mem.deletes| {
        SafeDeleteNext(s, a.ok, all);
      }
    } else if a.Restart? {
      SafeRestart(s, all);
    } else if a.RestoreFile? {
      if s.rest.rows != [] {
        SafeRestoreFile(s, all);
      }
    } else {
      SafeOther(s, a, all);
    }
  }

  /** Of everything, restored versions and rows included, safety is kept by exactly these actions. */
  lemma SafeExactlyWhen(s: State, a: Action)
    requires Inv(s) && Safe(s, true)
    ensures Safe(Next(s, a), true) <==> Careful(s, a, true)
  {
    if Careful(s, a, true) {
      SafeNext(s, a, true);
    } else if a.Restart? {
      FlushedStoredExactlyWhen(s);
      assert !RowsStored(Next(s, a).rest.rows, s.bucket);
    } else {
      DeletesSafeExactlyWhen(s, a);
    }
  }

  ghost predicate CarefulAll(s: State, run: seq<Action>, all: bool)
    decreases |run|
  {
    run == [] || (Careful(s, run[0], all) && CarefulAll(Next(s, run[0]), run[1..], all))
  }

  lemma {:induction false} SafeExec(s: State, run: seq<Action>, all: bool)
    requires Inv(s) && Safe(s, all) && CarefulAll(s, run, all)
    ensures Inv(Exec(s, run)) && Safe(Exec(s, run), all)
    decreases |run|
  {
    if run != [] {
      InvNext(s, run[0]);
      SafeNext(s, run[0], all);
      SafeExec(Next(s, run[0]), run[1..], all);
    }
  }

  /** Everything is safe at every point of the run. */
  ghost predicate SafeThroughout(s: State, run: seq<Action>)
    decreases |run|
  {
    Safe(s, true) && (run == [] || SafeThroughout(Next(s, run[0]), run[1..]))
  }

  lemma {:induction false} SafeThroughoutExactlyWhen(s: State, run: seq<Action>)
    requires Inv(s) && Safe(s, true)
    ensures SafeThroughout(s, run) <==> CarefulAll(s, run, true)
    decreases |run|
  {
    if run != [] {
      SafeExactlyWhen(s, run[0]);
      InvNext(s, run[0]);
      if Careful(s, run[0], true) {
        SafeThroughoutExactlyWhen(Next(s, run[0]), run[1..]);
      } else {
        assert !SafeThroughout(Next(s, run[0]), run[1..]);
      }
    }
  }

  lemma {:induction false} CarefulAnyway(s: State, run: seq<Action>)
    ensures CarefulAll(s, run, false)
    decreases |run|
  {
    if run != [] {
      CarefulAnyway(Next(s, run[0]), run[1..]);
    }
  }

  // ---------------------------------------------------------------- every run

  ghost predicate NothingRandom(bucket: Bucket) {
    forall n :: n in bucket ==> !n.Random?
  }

  ghost predicate CleansSafelyAll(s: State, run: seq<Action>)
    decreases |run|
  {
    run == [] || (CleansSafely(s, run[0]) && CleansSafelyAll(Next(s, run[0]), run[1..]))
  }

  ghost predicate DeletesSafeThroughout(s: State, run: seq<Action>)
    decreases |run|
  {
    DeletesSafe(s) && (run == [] || DeletesSafeThroughout(Next(s, run[0]), run[1..]))
  }

  lemma {:induction false} DeletesSafeThroughoutExactlyWhen(s: State, run: seq<Action>)
    requires Inv(s) && NamesSafe(s) && DeletesSafe(s)
    ensures DeletesSafeThroughout(s, run) <==> CleansSafelyAll(s, run)
    ensures CleansSafelyAll(s, run) ==> DeletesSafe(Exec(s, run))
    decreases |run|
  {
    if run != [] {
      DeletesSafeExactlyWhen(s, run[0]);
      InvNext(s, run[0]);
      NamesSafeNext(s, run[0]);
      if CleansSafely(s, run[0]) {
        DeletesSafeThroughoutExactlyWhen(Next(s, run[0]), run[1..]);
      } else {
        assert !DeletesSafeThroughout(Next(s, run[0]), run[1..]);
      }
    }
  }

  /** Remote safety, over every interleaving of watch changes, scans, sweeps, failed transfers, mis-popped
      items, clean-ups, restarts and the rows that are read back after them: every tracked version recorded
      since the last restart that is marked as stored is in the bucket; and at no point anything that is or
      will be tracked is queued for deletion exactly when no clean-up looks at a name still to be read
      back. */
  lemma RemoteSafety(key: SecretStream.Key, fs: FS, bucket: Bucket, run: seq<Action>)
    requires NothingRandom(bucket)
    ensures TrackedStored(Exec(Init(key, fs, bucket), run), false)
    ensures DeletesSafeThroughout(Init(key, fs, bucket), run) <==> CleansSafelyAll(Init(key, fs, bucket), run)
  {
    InvInit(key, fs, bucket);
    CarefulAnyway(Init(key, fs, bucket), run);
    SafeExec(Init(key, fs, bucket), run, false);
    DeletesSafeThroughoutExactlyWhen(Init(key, fs, bucket), run);
  }

  /** At every point of a run, restarts included that lose whatever is pending, every tracked version that is
      marked as stored is in the bucket, and so is the object of every such row that will be in the tables or is
      still to be read back, and nothing that is or will be tracked is queued for deletion: exactly when no
      clean-up looks at a name still to be read back, and no restart loses a deletion that has taken effect in
      the bucket. */
  lemma RemoteSafetyAcrossRestarts(key: SecretStream.Key, fs: FS, bucket: Bucket, run: seq<Action>)
    requires NothingRandom(bucket)
    ensures SafeThroughout(Init(key, fs, bucket), run) <==> CarefulAll(Init(key, fs, bucket), run, true)
    ensures var s := Exec(Init(key, fs, bucket), run);
      CarefulAll(Init(key, fs, bucket), run, true) ==>
        TrackedStored(s, true) && RowsStored(Committed(s).rows, s.bucket) && DeletesSafe(s)
  {
    InvInit(key, fs, bucket);
    SafeThroughoutExactlyWhen(Init(key, fs, bucket), run);
    if CarefulAll(Init(key, fs, bucket), run, true) {
      SafeExec(Init(key, fs, bucket), run, true);
    }
  }

  ghost predicate FirstRowStored(rs: seq<Row>, bucket: Bucket) {
    rs != [] && rs[0].remoteExists ==> rs[0].pathHash in bucket
  }

  lemma RestoredStored(rs: seq<Row>, bucket: Bucket, runStart: nat)
    ensures Stored(Resumed([], rs), bucket, runStart, true) <==> FirstRowStored(rs, bucket)
  {
    var vs := Resumed([], rs);
    if rs != [] {
      assert vs[0] == Restored(rs[0], true);
    }
  }

  /** Any restart, whatever SQL it loses, when nobody interrupts the reading back: what is restored as stored
      is in the bucket exactly when this holds of the first row of every path in the tables as they were
      flushed. */
  lemma RestartStoredExactlyWhen(s: State)
    ensures var r := Next(s, Restart);
      TrackedStored(r.(mem := ReadBack(r.mem, r.rest)), true)
      <==> forall p :: FirstRowStored(RowsOf(s.db.rows, p), s.bucket)
  {
    var r := Next(s, Restart);
    var q := r.(mem := ReadBack(r.mem, r.rest));
    forall p ensures FirstRowStored(RowsOf(s.db.rows, p), s.bucket) <==> StoredAt(q, p) {
      RestoredFiles(r.mem, s.db.rows, p);
      RestoredStored(RowsOf(s.db.rows, p), s.bucket, r.runStart);
      assert VersionsOf(q.mem, p) == Resumed([], RowsOf(s.db.rows, p));
    }
    if TrackedStored(q, true) {
      forall p ensures FirstRowStored(RowsOf(s.db.rows, p), s.bucket) {
        assert StoredAt(q, p);
      }
    } else {
      var p :| p in q.mem.files && !Stored(q.mem.files[p], q.bucket, q.runStart, true);
      assert !StoredAt(q, p);
      assert !FirstRowStored(RowsOf(s.db.rows, p), s.bucket);
    }
  }

  ghost predicate StoredAt(s: State, p: Path) {
    p in s.mem.files ==> Stored(s.mem.files[p], s.bucket, s.runStart, true)
  }

  /** Clean-up, in every state that is reached without a clean-up looking at a name still to be read back:
      when the listed objects are cleaned up and then a delete sweep succeeds, no other listed object than
      tracked ones and the index backup remains; and all objects that are or will be tracked are untouched
      exactly when the listing has none that is still to be read back. */
  lemma CleanUpKeepsTracked(key: SecretStream.Key, fs: FS, bucket: Bucket, run: seq<Action>, listed: seq<Name>)
    requires NothingRandom(bucket) && CleansSafelyAll(Init(key, fs, bucket), run)
    ensures var s := Exec(Init(key, fs, bucket), run);
      var c := Sweeps.CleanAll(s.mem, listed);
      var (r, b) := Sweeps.DeleteSweep(c, s.bucket, 0, Sweeps.AllSucceed(|c.deletes|));
      && r == s.mem.(deletes := [])
      && (forall n :: n in b && n in listed ==> Resolves(s.mem, n))
      && ((forall n :: n in s.bucket && WillResolve(s, n) ==> n in b && b[n] == s.bucket[n])
          <==> (forall n :: n in s.bucket && n in listed ==> !Awaited(s, n)))
  {
    var s := Exec(Init(key, fs, bucket), run);
    InvInit(key, fs, bucket);
    InvExec(Init(key, fs, bucket), run);
    DeletesSafeThroughoutExactlyWhen(Init(key, fs, bucket), run);
    CleanUpHere(s, listed);
  }

  lemma CleanUpHere(s: State, listed: seq<Name>)
    requires Inv(s) && DeletesSafe(s)
    ensures var c := Sweeps.CleanAll(s.mem, listed);
      var (r, b) := Sweeps.DeleteSweep(c, s.bucket, 0, Sweeps.AllSucceed(|c.deletes|));
      && r == s.mem.(deletes := [])
      && (forall n :: n in b && n in listed ==> Resolves(s.mem, n))
      && ((forall n :: n in s.bucket && WillResolve(s, n) ==> n in b && b[n] == s.bucket[n])
          <==> (forall n :: n in s.bucket && n in listed ==> !Awaited(s, n)))
  {
    TrackedNamesDrawn(s.mem);
    Sweeps.CleanThenDelete(s.mem, s.bucket, listed);
    var c := Sweeps.CleanAll(s.mem, listed);
    var b := Sweeps.DeleteSweep(c, s.bucket, 0, Sweeps.AllSucceed(|c.deletes|)).1;
    forall n | n in s.bucket && WillResolve(s, n) ensures n in b <==> !(n in listed && Awaited(s, n)) {
      assert forall k :: 0 <= k < |s.mem.deletes| ==> !WillResolve(s, s.mem.deletes[k]) && s.mem.deletes[k] != n;
      assert Awaited(s, n) <==> !Resolves(s.mem, n);
    }
    forall n | Awaited(s, n) ensures WillResolve(s, n) {}
  }
}
