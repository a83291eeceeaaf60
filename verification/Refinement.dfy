/** Memory is what the tables will be: executing the pending SQL and grouping the rows by path gives back
    the index, on every run and across every restart. */
module Refinement {
  import opened Common
  import opened FileSystem
  import opened Database
  import opened WorkQueue
  import opened Index
  import opened Steps
  import opened Machine
  import opened IndexInvariant

  /** Was the version recorded since the last restart? */
  predicate Recorded(v: FileVersion, runStart: nat) {
    v.pathHash.Random? && v.pathHash.id >= runStart
  }

  /** The version with index `i` of a path is held in memory as it was recorded: a restart loses the hash
      and the flags of all versions of a path but the first. */
  predicate Exact(v: FileVersion, i: nat, runStart: nat) {
    i == 0 || Recorded(v, runStart)
  }

  ghost predicate Agree(v: FileVersion, r: Row, i: nat, runStart: nat) {
    && r.pathHash == v.pathHash
    && Int32(r.modtime) == Int32(v.modtime)
    && (Recorded(v, runStart) ==> r.modtime == v.modtime)
    && (v.remoteExists ==> r.remoteExists)
    && (Exact(v, i, runStart) ==> r.fileHash == v.fileHash && r.remoteExists == v.remoteExists)
  }

  /** The history of a path and its rows. */
  ghost predicate Mirrors(vs: seq<FileVersion>, rs: seq<Row>, runStart: nat) {
    && |vs| == |rs|
    && (forall i :: 0 <= i < |vs| ==> Agree(vs[i], rs[i], i, runStart))
    && (vs != [] && Exact(Last(vs), |vs| - 1, runStart) ==> rs[|rs| - 1].localExists == Last(vs).localExists)
  }

  ghost predicate Refines(m: Memory, t: Tables, runStart: nat) {
    && t.dirs == m.dirs
    && (forall p :: Mirrors(VersionsOf(m, p), RowsOf(t.rows, p), runStart))
  }

  /** The history of a path with the rows of it that are left put behind it. */
  function History(m: Memory, rest: seq<Row>, p: Path): seq<FileVersion> {
    Resumed(VersionsOf(m, p), RowsOf(rest, p))
  }

  /** The same of what memory will be once `rest` has been read back. */
  ghost predicate RefinesWith(m: Memory, rest: Tables, t: Tables, runStart: nat) {
    && t.dirs == rest.dirs + m.dirs
    && (forall p :: Mirrors(History(m, rest.rows, p), RowsOf(t.rows, p), runStart))
  }

  lemma RefinesWithNothing(m: Memory, t: Tables, runStart: nat)
    ensures RefinesWith(m, Tables(map[], []), t, runStart) <==> Refines(m, t, runStart)
  {
    assert map[] + m.dirs == m.dirs;
    forall p ensures History(m, [], p) == VersionsOf(m, p) {}
  }

  /** That is what reading it back makes of memory. */
  lemma RefinesWithIsReadBack(m: Memory, rest: Tables, t: Tables, runStart: nat)
    requires Histories(m)
    ensures RefinesWith(m, rest, t, runStart) <==> Refines(ReadBack(m, rest), t, runStart)
  {
    RestoredFiles(m, rest.rows, "");
    forall p ensures VersionsOf(ReadBack(m, rest), p) == History(m, rest.rows, p) {
      RestoredFiles(m, rest.rows, p);
    }
  }

  /** The one statement a small step queues. */
  function StatementOf(m: Memory, fs: FS, step: Step): Statement {
    match step
    case NewVersion(p) => InsertFile(RowOf(p, Index.NewVersion(fs, p, m.minted)))
    case Forget(p) => DeleteFile(p)
    case WatchDirectory(p, recursive) => InsertDir(p, recursive)
    case UnwatchDirectory(p) => DeleteDir(p)
    case Gone(p) => ClearLocalExists(p)
  }

  lemma StepQueuesStatement(m: Memory, fs: FS, step: Step)
    requires Legal(m, fs, step)
    ensures Play(m, fs, step).sql == m.sql + [StatementOf(m, fs, step)]
  {}

  function Superseded(vs: seq<FileVersion>): (r: seq<FileVersion>)
    ensures |r| == |vs|
  {
    if vs == [] then [] else WithLast(vs, Last(vs).(localExists := false))
  }

  lemma MirrorsNewVersion(vs: seq<FileVersion>, rs: seq<Row>, p: Path, v: FileVersion, runStart: nat)
    requires Mirrors(vs, rs, runStart) && v.localExists && !v.remoteExists
    ensures Mirrors(Superseded(vs) + [v], rs + [RowOf(p, v)], runStart)
  {}

  lemma MirrorsGone(vs: seq<FileVersion>, rs: seq<Row>, p: Path, runStart: nat)
    requires Mirrors(vs, rs, runStart) && vs != []
    requires forall i :: 0 <= i < |rs| ==> rs[i].path == p
    ensures Mirrors(Superseded(vs), ClearLocal(rs, p), runStart)
  {}

  lemma MirrorsRemote(vs: seq<FileVersion>, rs: seq<Row>, n: Name, runStart: nat)
    requires Mirrors(vs, rs, runStart)
    ensures Mirrors(MarkRemote(vs, n), SetRemote(rs, n), runStart)
  {}

  lemma MirrorsOtherName(vs: seq<FileVersion>, rs: seq<Row>, n: Name, runStart: nat)
    requires Mirrors(vs, rs, runStart)
    requires forall i :: 0 <= i < |vs| ==> vs[i].pathHash != n
    ensures SetRemote(rs, n) == rs
  {}

  /** What a small step does to the history of one path. */
  function VersionsAfter(m: Memory, fs: FS, step: Step, p: Path): seq<FileVersion> {
    var vs := VersionsOf(m, p);
    match step
    case NewVersion(q) => if p == q then Superseded(vs) + [Index.NewVersion(fs, q, m.minted)] else vs
    case Forget(q) => if p == q then [] else vs
    case WatchDirectory(_, _) => vs
    case UnwatchDirectory(_) => vs
    case Gone(q) => if p == q then Superseded(vs) else vs
  }

  lemma VersionsOfPlay(m: Memory, fs: FS, step: Step, p: Path)
    requires Legal(m, fs, step)
    ensures VersionsOf(Play(m, fs, step), p) == VersionsAfter(m, fs, step, p)
  {}

  /** One path's view of a small step. */
  lemma MirrorsAfter(m: Memory, fs: FS, step: Step, rs: seq<Row>, runStart: nat, p: Path)
    requires Legal(m, fs, step)
    requires Mirrors(VersionsOf(m, p), rs, runStart)
    requires forall i :: 0 <= i < |rs| ==> rs[i].path == p
    ensures Mirrors(VersionsAfter(m, fs, step, p), RowsAfter(rs, StatementOf(m, fs, step), p), runStart)
  {
    var vs := VersionsOf(m, p);
    if step.NewVersion? && p == step.path {
      MirrorsNewVersion(vs, rs, p, Index.NewVersion(fs, p, m.minted), runStart);
    } else if step.Gone? && p == step.path {
      MirrorsGone(vs, rs, p, runStart);
    }
  }

  // ---------------------------------------------------------------- while rows are being read back

  /** The step is about this path's history. */
  predicate Touches(step: Step, p: Path) {
    (step.NewVersion? || step.Forget? || step.Gone?) && step.path == p
  }

  lemma UntouchedAfter(m: Memory, fs: FS, step: Step, rs: seq<Row>, p: Path)
    requires !Touches(step, p)
    ensures VersionsAfter(m, fs, step, p) == VersionsOf(m, p)
    ensures RowsAfter(rs, StatementOf(m, fs, step), p) == rs
  {}

  /** The step is about nothing that is still to be read back: no file of which a row is left, and no
      directory that is left, unless it is added just as it was. */
  ghost predicate Undisturbed(rest: Tables, step: Step) {
    match step
    case NewVersion(p) => !OfPath(rest.rows, p)
    case Forget(p) => !OfPath(rest.rows, p)
    case Gone(p) => !OfPath(rest.rows, p)
    case WatchDirectory(d, recursive) => d in rest.dirs ==> rest.dirs[d] == recursive
    case UnwatchDirectory(d) => d !in rest.dirs
  }

  lemma IndexedHistories(m: Memory)
    requires Indexed(m)
    ensures Histories(m)
  {
    forall p | p in m.files ensures m.files[p] != [] {
      assert HistoryOk(m, p, m.files[p]);
    }
  }

  lemma HistoryAll(m: Memory, rest: seq<Row>, p: Path)
    requires !OfPath(rest, p)
    ensures History(m, rest, p) == VersionsOf(m, p)
  {
    RowsOfNone(rest, p);
  }

  /** One path's view of an undisturbed step. */
  lemma MirrorsPlay(m: Memory, rest: Tables, fs: FS, step: Step, rs: seq<Row>, runStart: nat, p: Path)
    requires Legal(m, fs, step) && Undisturbed(rest, step)
    requires Mirrors(History(m, rest.rows, p), rs, runStart)
    requires forall i :: 0 <= i < |rs| ==> rs[i].path == p
    ensures Mirrors(History(Play(m, fs, step), rest.rows, p), RowsAfter(rs, StatementOf(m, fs, step), p), runStart)
  {
    VersionsOfPlay(m, fs, step, p);
    if Touches(step, p) {
      HistoryAll(m, rest.rows, p);
      HistoryAll(Play(m, fs, step), rest.rows, p);
      MirrorsAfter(m, fs, step, rs, runStart, p);
    } else {
      UntouchedAfter(m, fs, step, rs, p);
    }
  }

  lemma DirsPlay(m: Memory, rest: Tables, fs: FS, step: Step, t: Tables)
    requires Legal(m, fs, step) && t.dirs == rest.dirs + m.dirs
    ensures (step.WatchDirectory? || step.UnwatchDirectory? ==> Undisturbed(rest, step))
      <==> Apply(t, StatementOf(m, fs, step)).dirs == rest.dirs + Play(m, fs, step).dirs
  {
    if step.WatchDirectory? {
      DirAdded(m.dirs, rest.dirs, t.dirs, step.path, step.recursive);
    } else if step.UnwatchDirectory? {
      DirDropped(m.dirs, rest.dirs, t.dirs, step.path);
    }
  }

  lemma DirAdded(dirs: map<Path, bool>, rest: map<Path, bool>, all: map<Path, bool>, d: Path, recursive: bool)
    requires all == rest + dirs && d !in dirs
    ensures (d in rest ==> rest[d] == recursive)
      <==> (if d in all then all else all[d := recursive]) == rest + dirs[d := recursive]
  {
    var r := rest + dirs[d := recursive];
    assert r[d] == recursive;
    assert d in rest ==> all[d] == rest[d];
  }

  lemma DirDropped(dirs: map<Path, bool>, rest: map<Path, bool>, all: map<Path, bool>, d: Path)
    requires all == rest + dirs
    ensures d !in rest <==> all - {d} == rest + (dirs - {d})
  {
    assert d !in all - {d};
    assert d in rest ==> d in rest + (dirs - {d});
  }

  /** An undisturbed step queues the one statement that does to the rows what the step does to memory. */
  lemma RefinesPlay(m: Memory, rest: Tables, fs: FS, step: Step, t: Tables, runStart: nat)
    requires Legal(m, fs, step) && Undisturbed(rest, step)
    requires RefinesWith(m, rest, t, runStart)
    ensures RefinesWith(Play(m, fs, step), rest, Apply(t, StatementOf(m, fs, step)), runStart)
  {
    var r, u := Play(m, fs, step), Apply(t, StatementOf(m, fs, step));
    forall p ensures Mirrors(History(r, rest.rows, p), RowsOf(u.rows, p), runStart) {
      RowsOfApply(t, StatementOf(m, fs, step), p);
      MirrorsPlay(m, rest, fs, step, RowsOf(t.rows, p), runStart, p);
    }
    DirsPlay(m, rest, fs, step, t);
  }

  /** A step that disturbs what is left to be read back sets memory and tables apart. */
  lemma DisturbedPlay(m: Memory, rest: Tables, fs: FS, step: Step, t: Tables, runStart: nat)
    requires Legal(m, fs, step) && Pending(m, rest.rows, runStart) && !Undisturbed(rest, step) && !step.Gone?
    requires RefinesWith(m, rest, t, runStart)
    ensures !RefinesWith(Play(m, fs, step), rest, Apply(t, StatementOf(m, fs, step)), runStart)
  {
    DirsPlay(m, rest, fs, step, t);
    if step.NewVersion? || step.Forget? {
      var p := step.path;
      VersionsOfPlay(m, fs, step, p);
      RowsOfApply(t, StatementOf(m, fs, step), p);
      DisturbedHistory(
        VersionsAfter(m, fs, step, p), rest.rows, m, fs, step, RowsOf(t.rows, p), runStart);
    }
  }

  lemma DisturbedHistory(
      vs: seq<FileVersion>, rest: seq<Row>, m: Memory, fs: FS, step: Step, rs: seq<Row>, runStart: nat)
    requires (step.NewVersion? || step.Forget?) && OfPath(rest, step.path) && Pending(m, rest, runStart)
    ensures !Mirrors(Resumed(vs, RowsOf(rest, step.path)), RowsAfter(rs, StatementOf(m, fs, step), step.path), runStart)
  {
    var ws := RowsOf(rest, step.path);
    RowsOfNone(rest, step.path);
    RowsOfMembers(rest, step.path, |ws| - 1);
    var hs, qs := Resumed(vs, ws), RowsAfter(rs, StatementOf(m, fs, step), step.path);
    assert Drawn(Last(hs).pathHash, runStart);
    if step.NewVersion? && |hs| == |qs| {
      assert qs[|hs| - 1].pathHash == Random(m.minted);
      assert !Agree(Last(hs), qs[|hs| - 1], |hs| - 1, runStart);
    }
  }

  lemma {:induction false} RowsOfMembers(rows: seq<Row>, p: Path, i: nat)
    requires i < |RowsOf(rows, p)|
    ensures RowsOf(rows, p)[i] in rows
    decreases |rows|
  {
    var front := rows[..|rows| - 1];
    if i < |RowsOf(front, p)| {
      RowsOfMembers(front, p, i);
    }
  }

  lemma MirrorsUploadSuccess(m: Memory, rest: seq<Row>, p: Path, n: Name, rs: seq<Row>, runStart: nat, q: Path)
    requires Indexed(m) && p in m.files && !IsBackup(m, n)
    requires n in m.names ==> m.names[n].0 == p
    requires !Due(rest, n)
    requires Mirrors(History(m, rest, q), rs, runStart)
    ensures Mirrors(History(UploadSuccess(m, p, n), rest, q), SetRemote(rs, n), runStart)
  {
    var vs, ws := VersionsOf(m, q), RowsOf(rest, q);
    forall i | 0 <= i < |ws| ensures ws[i].pathHash != n {
      RowsOfMembers(rest, q, i);
    }
    if q == p {
      MirrorsRemote(Resumed(vs, ws), rs, n, runStart);
      MarkResumed(vs, ws, n);
    } else {
      assert q in m.files ==> HistoryOk(m, q, m.files[q]);
      MirrorsOtherName(Resumed(vs, ws), rs, n, runStart);
    }
  }

  lemma MarkResumed(vs: seq<FileVersion>, ws: seq<Row>, n: Name)
    requires forall i :: 0 <= i < |ws| ==> ws[i].pathHash != n
    ensures MarkRemote(Resumed(vs, ws), n) == Resumed(MarkRemote(vs, n), ws)
  {}

  lemma RefinesUploadSuccess(m: Memory, rest: Tables, p: Path, n: Name, t: Tables, runStart: nat)
    requires Indexed(m) && p in m.files && !IsBackup(m, n)
    requires n in m.names ==> m.names[n].0 == p
    requires !Due(rest.rows, n)
    requires RefinesWith(m, rest, t, runStart)
    ensures RefinesWith(UploadSuccess(m, p, n), rest, Apply(t, SetRemoteExists(n)), runStart)
  {
    var r, u := UploadSuccess(m, p, n), Apply(t, SetRemoteExists(n));
    forall q ensures Mirrors(History(r, rest.rows, q), RowsOf(u.rows, q), runStart) {
      RowsOfSetRemote(t.rows, n, q);
      MirrorsUploadSuccess(m, rest.rows, p, n, RowsOf(t.rows, q), runStart, q);
    }
  }

  lemma MirrorsRestored(rs: seq<Row>, minted: nat)
    requires forall i :: 0 <= i < |rs| ==> Drawn(rs[i].pathHash, minted)
    ensures Mirrors(Resumed([], rs), rs, minted)
  {
    var vs := Resumed([], rs);
    forall i | 0 <= i < |vs| ensures Agree(vs[i], rs[i], i, minted) {
      assert vs[i] == Restored(rs[i], i == 0);
    }
  }

  /** What will have been read back after a start agrees with the tables. */
  lemma RefinesRestore(t: Tables, minted: nat)
    requires TablesOk(t, minted)
    ensures RefinesWith(Started(minted), t, t, minted)
  {
    forall p ensures Mirrors(History(Started(minted), t.rows, p), RowsOf(t.rows, p), minted) {
      var rs := RowsOf(t.rows, p);
      forall i | 0 <= i < |rs| ensures Drawn(rs[i].pathHash, minted) {
        RowsOfMembers(t.rows, p, i);
      }
      MirrorsRestored(rs, minted);
    }
  }

  /** Reading back one row moves it from what is left to the history of its path. */
  lemma HistoryFirst(m: Memory, rows: seq<Row>, p: Path)
    requires Histories(m) && rows != []
    ensures History(RestoreRow(m, rows[0]), rows[1..], p) == History(m, rows, p)
  {
    var rest := RowsOf(rows[1..], p);
    RowsOfFirst(rows, p);
    if rows[0].path == p {
      ResumedFirst(VersionsOf(m, p), rows[0], rest);
    } else {
      assert [] + rest == rest;
    }
  }

  // ---------------------------------------------------------------- every run

  /** Every row that will be in the tables has a tracked name of its path, or is still to be read back. */
  ghost predicate Covered(m: Memory, rest: seq<Row>, rows: seq<Row>) {
    forall i :: 0 <= i < |rows| ==> CoveredRow(m, rest, rows[i])
  }

  ghost predicate CoveredRow(m: Memory, rest: seq<Row>, r: Row) {
    || (r.pathHash in m.names && m.names[r.pathHash].0 == r.path)
    || (exists k :: 0 <= k < |rest| && rest[k].pathHash == r.pathHash && rest[k].path == r.path)
  }

  /** What holds in every reachable state, however the reading back is interrupted. */
  ghost predicate Inv(s: State) {
    && Indexed(s.mem)
    && Pending(s.mem, s.rest.rows, s.runStart)
    && TablesOk(s.db, s.mem.minted)
    && TablesOk(Committed(s), s.mem.minted)
    && Covered(s.mem, s.rest.rows, Committed(s).rows)
    && s.mem.minted == |s.recorded|
  }

  /** Memory, once everything has been read back, agrees with the tables, once the pending SQL has been
      executed. */
  ghost predicate Agrees(s: State) {
    RefinesWith(s.mem, s.rest, Committed(s), s.runStart)
  }

  lemma CommittedAppend(s: State, stmt: Statement, mem: Memory)
    requires mem.sql == s.mem.sql + [stmt]
    ensures Committed(s.(mem := mem)) == Apply(Committed(s), stmt)
  {
    ApplyAllConcat(s.db, s.mem.sql, [stmt]);
    assert ApplyAll(Committed(s), [stmt]) == ApplyAll(Apply(Committed(s), stmt), []);
  }

  lemma CommittedPlay(s: State, step: Step)
    requires CanPlay(s, step)
    ensures Committed(Next(s, Watching(step))) == Apply(Committed(s), StatementOf(s.mem, s.fs, step))
  {
    var r := Next(s, Watching(step));
    StepQueuesStatement(s.mem, s.fs, step);
    CommittedAppend(s, StatementOf(s.mem, s.fs, step), r.mem);
    assert Committed(r) == Committed(s.(mem := r.mem));
  }

  lemma CoveredPlay(m: Memory, rest: seq<Row>, fs: FS, step: Step, t: Tables)
    requires Indexed(m) && Legal(m, fs, step) && Covered(m, rest, t.rows)
    ensures Covered(Play(m, fs, step), rest, Apply(t, StatementOf(m, fs, step)).rows)
  {
    if step.Forget? {
      CoveredForget(m, rest, step.path, t.rows);
    } else {
      TrackedNamesDrawn(m);
      NamesKept(m, fs, step);
      var r, rows := Play(m, fs, step), Apply(t, StatementOf(m, fs, step)).rows;
      forall i | 0 <= i < |rows| ensures CoveredRow(r, rest, rows[i]) {
        if i < |t.rows| {
          assert CoveredRow(m, rest, t.rows[i]);
          assert rows[i].pathHash == t.rows[i].pathHash && rows[i].path == t.rows[i].path;
        }
      }
    }
  }

  lemma NamesKept(m: Memory, fs: FS, step: Step)
    requires Legal(m, fs, step) && !step.Forget? && Random(m.minted) !in m.names
    ensures var r := Play(m, fs, step);
      && (forall n :: n in m.names ==> n in r.names && r.names[n] == m.names[n])
      && (step.NewVersion? ==> Random(m.minted) in r.names && r.names[Random(m.minted)].0 == step.path)
  {}

  lemma CoveredForget(m: Memory, rest: seq<Row>, p: Path, rows: seq<Row>)
    requires Indexed(m) && Covered(m, rest, rows)
    ensures Covered(DelFileWatch(m, p), rest, WithoutPath(rows, p))
  {
    var kept := WithoutPath(rows, p);
    forall i | 0 <= i < |kept| ensures CoveredRow(DelFileWatch(m, p), rest, kept[i]) {
      WithoutPathMembers(rows, p, i);
      var j :| 0 <= j < |rows| && rows[j] == kept[i];
      assert CoveredRow(m, rest, rows[j]);
      assert p in m.files ==> HistoryOk(m, p, m.files[p]);
    }
  }

  lemma PendingPlay(m: Memory, rows: seq<Row>, runStart: nat, fs: FS, step: Step)
    requires Pending(m, rows, runStart) && Legal(m, fs, step)
    ensures Pending(Play(m, fs, step), rows, runStart)
  {}

  lemma InvWatching(s: State, step: Step)
    requires Inv(s) && CanPlay(s, step)
    ensures Inv(Next(s, Watching(step)))
  {
    IndexedPlay(s.mem, s.fs, step);
    PendingPlay(s.mem, s.rest.rows, s.runStart, s.fs, step);
    CommittedPlay(s, step);
    CoveredPlay(s.mem, s.rest.rows, s.fs, step, Committed(s));
    ApplyRowsOk(Committed(s), StatementOf(s.mem, s.fs, step), s.mem.minted);
  }

  /** Actions that touch neither the index nor the rows that are left. */
  lemma InvElsewhere(s: State, r: State)
    requires Inv(s)
    requires r.mem.files == s.mem.files && r.mem.names == s.mem.names && r.mem.minted == s.mem.minted
    requires Committed(r) == Committed(s) && (r.db == s.db || r.db == Committed(s))
    requires r.rest == s.rest && r.recorded == s.recorded && r.runStart == s.runStart
    requires forall k :: 0 <= k < |r.mem.uploads| ==>
      r.mem.uploads[k] in s.mem.uploads || r.mem.uploads[k].objectName == IndexBackup
    ensures Inv(r)
  {
    forall n | n == IndexBackup ensures n !in s.mem.names {
      TrackedNamesDrawn(s.mem);
    }
    IndexedElsewhere(s.mem, r.mem);
    assert Covered(r.mem, r.rest.rows, Committed(r).rows) by {
      forall i | 0 <= i < |Committed(r).rows| ensures CoveredRow(r.mem, r.rest.rows, Committed(r).rows[i]) {
        assert CoveredRow(s.mem, s.rest.rows, Committed(s).rows[i]);
      }
    }
  }

  lemma CoveredMarked(m: Memory, r: Memory, rest: seq<Row>, t: Tables, n: Name)
    requires Covered(m, rest, t.rows) && r.names == m.names
    ensures Covered(r, rest, Apply(t, SetRemoteExists(n)).rows)
  {
    var rows := Apply(t, SetRemoteExists(n)).rows;
    forall i | 0 <= i < |rows| ensures CoveredRow(r, rest, rows[i]) {
      assert CoveredRow(m, rest, t.rows[i]);
    }
  }

  /** The item was stored and the index was told. */
  lemma InvTold(s: State, r: State, item: UploadItem)
    requires Inv(s) && Told(s, r, item)
    requires r == s.(mem := r.mem, bucket := r.bucket, sweep := r.sweep)
    ensures Inv(r)
  {
    var m := UploadSuccess(s.mem, item.path, item.objectName);
    IndexedUploadSuccess(s.mem, item.path, item.objectName);
    IndexedElsewhere(m, r.mem);
    CommittedAppend(s, SetRemoteExists(item.objectName), r.mem);
    CoveredMarked(s.mem, r.mem, s.rest.rows, Committed(s), item.objectName);
  }

  lemma InvUploadNext(s: State, stored: bool, header: seq<SecretStream.Octet>)
    requires Inv(s) && CanUploadNext(s, header)
    ensures Inv(Next(s, UploadNext(stored, header)))
  {
    var r := Next(s, UploadNext(stored, header));
    var item := s.mem.uploads[s.sweep.skip];
    UploadNextCases(s, stored, header);
    if Told(s, r, item) {
      InvTold(s, r, item);
    } else {
      InvElsewhere(s, r);
    }
  }

  /** Rows that are all still to be read back cover themselves. */
  lemma CoveredByRest(m: Memory, rows: seq<Row>)
    ensures Covered(m, rows, rows)
  {}

  lemma InvRestart(s: State)
    requires Inv(s)
    ensures Inv(Next(s, Restart))
  {
    var r := Next(s, Restart);
    assert Committed(r) == s.db;
    CoveredByRest(r.mem, s.db.rows);
  }

  lemma InvRestoreFile(s: State)
    requires Inv(s) && s.rest.rows != []
    ensures Inv(Next(s, RestoreFile))
  {
    var r := Next(s, RestoreFile);
    RestoreFirst(s.mem, s.rest.rows, s.runStart);
    forall i | 0 <= i < |Committed(r).rows| ensures CoveredRow(r.mem, r.rest.rows, Committed(r).rows[i]) {
      CoveredAfterFirst(s.mem, s.rest.rows, Committed(s).rows[i]);
    }
  }

  lemma CoveredAfterFirst(m: Memory, rest: seq<Row>, r: Row)
    requires rest != [] && rest[0].pathHash !in m.names && CoveredRow(m, rest, r)
    ensures CoveredRow(RestoreRow(m, rest[0]), rest[1..], r)
  {
    if !(r.pathHash in m.names && m.names[r.pathHash].0 == r.path) {
      var k :| 0 <= k < |rest| && rest[k].pathHash == r.pathHash && rest[k].path == r.path;
      if k > 0 {
        assert rest[1..][k - 1] == rest[k];
      }
    }
  }

  lemma InvNext(s: State, a: Action)
    requires Inv(s)
    ensures Inv(Next(s, a))
  {
    if a.Watching? {
      if CanPlay(s, a.step) {
        InvWatching(s, a.step);
      }
    } else if a.UploadNext? {
      if CanUploadNext(s, a.header) {
        InvUploadNext(s, a.stored, a.header);
      }
    } else if a.Restart? {
      InvRestart(s);
    } else if a.RestoreFile? {
      if s.rest.rows != [] {
        InvRestoreFile(s);
      }
    } else {
      InvOther(s, a);
    }
  }

  lemma InvOther(s: State, a: Action)
    requires Inv(s) && (Quiet(a) || a.RestoreDirectory?)
    ensures Inv(Next(s, a))
  {
    if a.RestoreDirectory? {
      RestoreNext(s, a);
      IndexedElsewhere(s.mem, Next(s, a).mem);
      InvDirectory(s, Next(s, a));
    } else {
      InvQuiet(s, a);
    }
  }

  lemma InvQuiet(s: State, a: Action)
    requires Inv(s) && Quiet(a)
    ensures Inv(Next(s, a))
  {
    QuietNext(s, a);
    InvElsewhere(s, Next(s, a));
  }

  lemma InvDirectory(s: State, r: State)
    requires Inv(s) && Indexed(r.mem)
    requires r == s.(mem := s.mem.(dirs := r.mem.dirs), rest := s.rest.(dirs := r.rest.dirs))
    ensures Inv(r)
  {
    assert Committed(r) == Committed(s);
    forall i | 0 <= i < |Committed(r).rows| ensures CoveredRow(r.mem, r.rest.rows, Committed(r).rows[i]) {
      assert CoveredRow(s.mem, s.rest.rows, Committed(s).rows[i]);
    }
  }

  lemma {:induction false} InvExec(s: State, run: seq<Action>)
    requires Inv(s)
    ensures Inv(Exec(s, run))
    decreases |run|
  {
    if run != [] {
      InvNext(s, run[0]);
      InvExec(Next(s, run[0]), run[1..]);
    }
  }

  lemma InvInit(key: SecretStream.Key, fs: FS, bucket: map<Name, seq<SecretStream.Octet>>)
    ensures Inv(Init(key, fs, bucket)) && Agrees(Init(key, fs, bucket))
  {}

  // ---------------------------------------------------------------- agreement

  lemma NotDue(s: State, n: Name)
    requires Inv(s) && (exists k :: 0 <= k < |s.mem.uploads| && s.mem.uploads[k].objectName == n)
    ensures !Due(s.rest.rows, n)
  {}

  lemma AgreesTold(s: State, r: State, item: UploadItem)
    requires Inv(s) && Agrees(s) && ItemOk(s.mem, item) && !Due(s.rest.rows, item.objectName) && Told(s, r, item)
    requires r == s.(mem := r.mem, bucket := r.bucket, sweep := r.sweep)
    ensures Agrees(r)
  {
    var m := UploadSuccess(s.mem, item.path, item.objectName);
    CommittedAppend(s, SetRemoteExists(item.objectName), r.mem);
    RefinesUploadSuccess(s.mem, s.rest, item.path, item.objectName, Committed(s), s.runStart);
    RefinesSame(m, r.mem, s.rest, Committed(r), s.runStart);
  }

  lemma RefinesSame(m: Memory, r: Memory, rest: Tables, t: Tables, runStart: nat)
    requires RefinesWith(m, rest, t, runStart) && r.files == m.files && r.dirs == m.dirs
    ensures RefinesWith(r, rest, t, runStart)
  {
    forall p ensures Mirrors(History(r, rest.rows, p), RowsOf(t.rows, p), runStart) {
      assert VersionsOf(r, p) == VersionsOf(m, p);
    }
  }

  lemma AgreesUploadNext(s: State, stored: bool, header: seq<SecretStream.Octet>)
    requires Inv(s) && Agrees(s) && CanUploadNext(s, header)
    ensures Agrees(Next(s, UploadNext(stored, header)))
  {
    var r := Next(s, UploadNext(stored, header));
    var item := s.mem.uploads[s.sweep.skip];
    assert ItemOk(s.mem, item);
    NotDue(s, item.objectName);
    UploadNextCases(s, stored, header);
    if Told(s, r, item) {
      AgreesTold(s, r, item);
    } else {
      AgreesElsewhere(s, r);
    }
  }

  lemma AgreesElsewhere(s: State, r: State)
    requires Agrees(s)
    requires r.mem.files == s.mem.files && r.mem.dirs == s.mem.dirs && r.rest == s.rest
    requires Committed(r) == Committed(s) && r.runStart == s.runStart
    ensures Agrees(r)
  {
    RefinesSame(s.mem, r.mem, s.rest, Committed(s), s.runStart);
  }

  lemma AgreesRestoreFile(s: State)
    requires Inv(s) && Agrees(s) && s.rest.rows != []
    ensures Agrees(Next(s, RestoreFile))
  {
    var r := Next(s, RestoreFile);
    IndexedHistories(s.mem);
    assert Committed(r) == Committed(s);
    forall p ensures Mirrors(History(r.mem, r.rest.rows, p), RowsOf(Committed(r).rows, p), r.runStart) {
      HistoryFirst(s.mem, s.rest.rows, p);
    }
  }

  lemma AgreesRestoreDirectory(s: State, d: Path)
    requires Agrees(s)
    ensures Agrees(Next(s, RestoreDirectory(d)))
  {
    var r := Next(s, RestoreDirectory(d));
    RestoreNext(s, RestoreDirectory(d));
    assert r.rest.dirs + r.mem.dirs == s.rest.dirs + s.mem.dirs;
    assert r.mem.files == s.mem.files && r.rest.rows == s.rest.rows;
    forall p ensures Mirrors(History(r.mem, r.rest.rows, p), RowsOf(Committed(r).rows, p), r.runStart) {
      assert Mirrors(History(s.mem, s.rest.rows, p), RowsOf(Committed(s).rows, p), s.runStart);
    }
  }

  /** The action disturbs nothing that is still to be read back. */
  ghost predicate Spares(s: State, a: Action) {
    a.Watching? && CanPlay(s, a.step) ==> Undisturbed(s.rest, a.step)
  }

  lemma AgreesWatching(s: State, step: Step)
    requires Inv(s) && Agrees(s) && CanPlay(s, step)
    ensures Agrees(Next(s, Watching(step))) <==> Undisturbed(s.rest, step)
  {
    CommittedPlay(s, step);
    if Undisturbed(s.rest, step) {
      RefinesPlay(s.mem, s.rest, s.fs, step, Committed(s), s.runStart);
    } else {
      assert step.Gone? ==> s.rest == Tables(map[], []);
      DisturbedPlay(s.mem, s.rest, s.fs, step, Committed(s), s.runStart);
    }
  }

  lemma AgreesOther(s: State, a: Action)
    requires Inv(s) && Agrees(s) && !a.Watching? && !a.UploadNext?
    ensures Agrees(Next(s, a))
  {
    if a.Restart? {
      RefinesRestore(s.db, s.mem.minted);
      assert Committed(Next(s, a)) == s.db;
    } else if a.RestoreFile? {
      if s.rest.rows != [] {
        AgreesRestoreFile(s);
      }
    } else if a.RestoreDirectory? {
      AgreesRestoreDirectory(s, a.dir);
    } else {
      QuietNext(s, a);
      AgreesElsewhere(s, Next(s, a));
    }
  }

  /** An action keeps memory and tables in agreement exactly when it disturbs nothing that is still to be
      read back: no file is added or dropped while a row of it is left, and no directory that is left is
      dropped or added with another flag. */
  lemma AgreesExactlyWhen(s: State, a: Action)
    requires Inv(s) && Agrees(s)
    ensures Agrees(Next(s, a)) <==> Spares(s, a)
  {
    if a.Watching? {
      if CanPlay(s, a.step) {
        AgreesWatching(s, a.step);
      }
    } else if a.UploadNext? {
      if CanUploadNext(s, a.header) {
        AgreesUploadNext(s, a.stored, a.header);
      }
    } else {
      AgreesOther(s, a);
    }
  }

  ghost predicate SparesAll(s: State, run: seq<Action>)
    decreases |run|
  {
    run == [] || (Spares(s, run[0]) && SparesAll(Next(s, run[0]), run[1..]))
  }

  /** Memory and tables agree at every point of the run. */
  ghost predicate AgreesThroughout(s: State, run: seq<Action>)
    decreases |run|
  {
    Agrees(s) && (run == [] || AgreesThroughout(Next(s, run[0]), run[1..]))
  }

  lemma {:induction false} AgreesThroughoutExactlyWhen(s: State, run: seq<Action>)
    requires Inv(s) && Agrees(s)
    ensures AgreesThroughout(s, run) <==> SparesAll(s, run)
    ensures SparesAll(s, run) ==> Agrees(Exec(s, run))
    decreases |run|
  {
    if run != [] {
      AgreesExactlyWhen(s, run[0]);
      InvNext(s, run[0]);
      if Spares(s, run[0]) {
        AgreesThroughoutExactlyWhen(Next(s, run[0]), run[1..]);
      } else {
        assert !AgreesThroughout(Next(s, run[0]), run[1..]);
      }
    }
  }

  /** On every run -- whatever is flushed, however often the daemon is restarted, with or without its pending
      SQL, and whatever comes between the rows that are then read back -- the two indexes agree and the names
      of the rows are drawn and different. */
  lemma IndexesAgree(key: SecretStream.Key, fs: FS, bucket: map<Name, seq<SecretStream.Octet>>, run: seq<Action>)
    ensures var s := Exec(Init(key, fs, bucket), run);
      Indexed(s.mem) && TablesOk(s.db, s.mem.minted) && TablesOk(Committed(s), s.mem.minted)
  {
    InvInit(key, fs, bucket);
    InvExec(Init(key, fs, bucket), run);
  }

  /** On such a run memory and tables agree throughout exactly when no request disturbs what is still to be
      read back.  Then, whenever nothing is left to be read back, the tables with the pending SQL executed
      hold exactly the watched directories with their flags, and for every path exactly its versions, in
      order. */
  lemma IndexAndTablesAgree(
      key: SecretStream.Key, fs: FS, bucket: map<Name, seq<SecretStream.Octet>>, run: seq<Action>)
    ensures AgreesThroughout(Init(key, fs, bucket), run) <==> SparesAll(Init(key, fs, bucket), run)
    ensures var s := Exec(Init(key, fs, bucket), run);
      SparesAll(Init(key, fs, bucket), run) && !Restoring(s) ==> Refines(s.mem, Committed(s), s.runStart)
  {
    InvInit(key, fs, bucket);
    AgreesThroughoutExactlyWhen(Init(key, fs, bucket), run);
    var s := Exec(Init(key, fs, bucket), run);
    RefinesWithNothing(s.mem, Committed(s), s.runStart);
  }
}
