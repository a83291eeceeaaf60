/** What runs do to the pending SQL, to histories, to names and to uploads that failed: where batches are
    flushed does not matter, histories only grow, names are never used again, and what is lost stays lost. */
module Histories {
  import opened Common
  import opened FileSystem
  import opened Database
  import opened Index
  import opened Steps
  import opened Machine
  import opened IndexInvariant
  import opened Refinement
  import opened SecretStream

  // ---------------------------------------------------------------- flushes

  /** The same state up to how much of the SQL has been executed yet. */
  ghost predicate SameUpToFlush(s: State, r: State) {
    && r == s.(db := r.db, mem := s.mem.(sql := r.mem.sql))
    && Committed(r) == Committed(s)
  }

  function WithoutFlushes(run: seq<Action>): seq<Action> {
    if run == [] then []
    else (if run[0].Flush? then [] else [run[0]]) + WithoutFlushes(run[1..])
  }

  ghost predicate NoRestart(run: seq<Action>) {
    forall i :: 0 <= i < |run| ==> !run[i].Restart?
  }

  lemma PlayIgnoresSql(m: Memory, fs: FS, step: Step, sql: seq<Statement>)
    requires Legal(m, fs, step)
    ensures var r := m.(sql := sql);
      && Legal(r, fs, step) && StatementOf(r, fs, step) == StatementOf(m, fs, step)
      && Play(r, fs, step) == Play(m, fs, step).(sql := sql + [StatementOf(m, fs, step)])
  {}

  lemma SameWatching(s: State, r: State, step: Step)
    requires SameUpToFlush(s, r) && CanPlay(s, step)
    ensures SameUpToFlush(Next(s, Watching(step)), Next(r, Watching(step)))
  {
    var stmt := StatementOf(s.mem, s.fs, step);
    PlayIgnoresSql(s.mem, s.fs, step, s.mem.sql);
    PlayIgnoresSql(s.mem, s.fs, step, r.mem.sql);
    assert s.mem.(sql := s.mem.sql) == s.mem && s.mem.(sql := r.mem.sql) == r.mem;
    CommittedPlay(s, step);
    CommittedPlay(r, step);
  }

  lemma UploadStepIgnoresSql(
      m: Memory, sql: seq<Statement>, bucket: map<Name, seq<Octet>>, fs: FS, key: Key, skip: nat, stored: bool,
      header: seq<Octet>)
    requires skip < |m.uploads|
    ensures var (a, b, k) := UploadStep(m, bucket, fs, key, skip, stored, header);
      var more := a.sql[|m.sql|..];
      && m.sql <= a.sql
      && UploadStep(m.(sql := sql), bucket, fs, key, skip, stored, header) == (a.(sql := sql + more), b, k)
      && (more == [] || more == [SetRemoteExists(m.uploads[skip].objectName)])
  {
    var item, a := m.uploads[skip], UploadStep(m, bucket, fs, key, skip, stored, header).0;
    if !fs.Exists(item.path) || fs.Mtime(item.path) != item.modtime || !stored {
      assert a.sql[|m.sql|..] == [] && sql + [] == sql;
    } else if IsBackup(m, item.objectName) || item.path !in m.files {
      assert a.sql[|m.sql|..] == [] && sql + [] == sql;
    } else {
      assert a.sql[|m.sql|..] == [SetRemoteExists(item.objectName)];
    }
  }

  /** The upload looks at no SQL, and queues the same in both states. */
  lemma UploadNextIgnoresSql(s: State, r: State, stored: bool, header: seq<Octet>) returns (more: seq<Statement>)
    requires r == s.(db := r.db, mem := s.mem.(sql := r.mem.sql)) && CanUploadNext(s, header)
    ensures var s', r' := Next(s, UploadNext(stored, header)), Next(r, UploadNext(stored, header));
      && r' == s'.(db := r.db, mem := s'.mem.(sql := r.mem.sql + more))
      && s'.mem.sql == s.mem.sql + more && s'.db == s.db
  {
    UploadStepIgnoresSql(s.mem, r.mem.sql, s.bucket, s.fs, s.key, s.sweep.skip, stored, header);
    more := UploadStep(s.mem, s.bucket, s.fs, s.key, s.sweep.skip, stored, header).0.sql[|s.mem.sql|..];
  }

  lemma SameUploadNext(s: State, r: State, stored: bool, header: seq<Octet>)
    requires SameUpToFlush(s, r)
    requires CanUploadNext(s, header)
    ensures SameUpToFlush(Next(s, UploadNext(stored, header)), Next(r, UploadNext(stored, header)))
  {
    var more := UploadNextIgnoresSql(s, r, stored, header);
    CommittedMore(s, Next(s, UploadNext(stored, header)), more);
    CommittedMore(r, Next(r, UploadNext(stored, header)), more);
  }

  lemma CommittedMore(s: State, r: State, more: seq<Statement>)
    requires r.db == s.db && r.mem.sql == s.mem.sql + more
    ensures Committed(r) == ApplyAll(Committed(s), more)
  {
    ApplyAllConcat(s.db, s.mem.sql, more);
  }

  lemma SameNext(s: State, r: State, a: Action)
    requires SameUpToFlush(s, r) && !a.Restart? && !a.Flush?
    ensures SameUpToFlush(Next(s, a), Next(r, a))
  {
    if a.Watching? {
      PlayLegalSame(s, r, a.step);
      if CanPlay(s, a.step) {
        SameWatching(s, r, a.step);
      }
    } else if a.UploadNext? {
      if CanUploadNext(s, a.header) {
        SameUploadNext(s, r, a.stored, a.header);
      }
    } else {
      SameElsewhere(s, r, a);
    }
  }

  lemma SameElsewhere(s: State, r: State, a: Action)
    requires SameUpToFlush(s, r)
    requires !a.Restart? && !a.Flush? && !a.Watching? && !a.UploadNext?
    ensures SameUpToFlush(Next(s, a), Next(r, a))
  {
    if a.RestoreFile? {
      SameRestoreFile(s, r);
    } else if a.RestoreDirectory? {
      SameRestoreDirectory(s, r, a.dir);
    } else {
      SameQuiet(s, r, a);
    }
  }

  lemma SameRestoreFile(s: State, r: State)
    requires SameUpToFlush(s, r)
    ensures SameUpToFlush(Next(s, RestoreFile), Next(r, RestoreFile))
  {
    if s.rest.rows != [] {
      assert Next(s, RestoreFile).mem.sql == s.mem.sql && Next(r, RestoreFile).mem.sql == r.mem.sql;
    }
  }

  lemma SameRestoreDirectory(s: State, r: State, d: Path)
    requires SameUpToFlush(s, r)
    ensures SameUpToFlush(Next(s, RestoreDirectory(d)), Next(r, RestoreDirectory(d)))
  {
    if s.rest.rows == [] && d in s.rest.dirs {
      assert Next(s, RestoreDirectory(d)).mem.sql == s.mem.sql && Next(r, RestoreDirectory(d)).mem.sql == r.mem.sql;
    }
  }

  /** Such an action neither looks at the SQL nor changes it. */
  lemma QuietIgnoresSql(s: State, r: State, a: Action)
    requires r == s.(db := r.db, mem := s.mem.(sql := r.mem.sql)) && Quiet(a) && !a.Flush?
    ensures var s', r' := Next(s, a), Next(r, a);
      && r' == s'.(db := r.db, mem := s'.mem.(sql := r.mem.sql)) && s'.mem.sql == s.mem.sql && s'.db == s.db
  {
    if a.DeleteNext? || a.CleanNext? || a.EndSweep? {
      SweepIgnoresSql(s, r, a);
    } else if a.Edit? {
    } else if a.BackUpIndex? {
    } else if a.ListForCleaning? {
    } else if a.RestoreName? {
    } else if a.BeginUploads? {
    } else {
    }
  }

  lemma SweepIgnoresSql(s: State, r: State, a: Action)
    requires r == s.(db := r.db, mem := s.mem.(sql := r.mem.sql)) && (a.DeleteNext? || a.CleanNext? || a.EndSweep?)
    ensures var s', r' := Next(s, a), Next(r, a);
      && r' == s'.(db := r.db, mem := s'.mem.(sql := r.mem.sql)) && s'.mem.sql == s.mem.sql && s'.db == s.db
  {
    if a.DeleteNext? {
      DeleteIgnoresSql(s, r, a.ok);
    } else if a.CleanNext? {
      CleanIgnoresSql(s, r);
    }
  }

  lemma CleanIgnoresSql(s: State, r: State)
    requires r == s.(db := r.db, mem := s.mem.(sql := r.mem.sql))
    ensures var s', r' := Next(s, CleanNext), Next(r, CleanNext);
      && r' == s'.(db := r.db, mem := s'.mem.(sql := r.mem.sql)) && s'.mem.sql == s.mem.sql && s'.db == s.db
  {
    if s.cleaning != [] && !Resolves(s.mem, s.cleaning[0]) {
      assert !Resolves(r.mem, r.cleaning[0]);
    }
  }

  lemma DeleteIgnoresSql(s: State, r: State, ok: bool)
    requires r == s.(db := r.db, mem := s.mem.(sql := r.mem.sql))
    ensures var s', r' := Next(s, DeleteNext(ok)), Next(r, DeleteNext(ok));
      && r' == s'.(db := r.db, mem := s'.mem.(sql := r.mem.sql)) && s'.mem.sql == s.mem.sql && s'.db == s.db
  {
    if s.sweep.Deleting? && s.sweep.skip < |s.mem.deletes| {
      if ok {
      } else {
      }
    }
  }

  lemma SameQuiet(s: State, r: State, a: Action)
    requires SameUpToFlush(s, r) && Quiet(a) && !a.Flush?
    ensures SameUpToFlush(Next(s, a), Next(r, a))
  {
    QuietIgnoresSql(s, r, a);
  }

  lemma PlayLegalSame(s: State, r: State, step: Step)
    requires SameUpToFlush(s, r)
    ensures CanPlay(s, step) <==> CanPlay(r, step)
  {}

  /** Where batches are flushed does not matter: between restarts, a run reaches the same state as the run
      without its flushes. */
  lemma {:induction false} FlushPointsDoNotMatter(s: State, r: State, run: seq<Action>)
    requires SameUpToFlush(s, r) && NoRestart(run)
    ensures SameUpToFlush(Exec(s, run), Exec(r, WithoutFlushes(run)))
    decreases |run|
  {
    if run != [] {
      var a, rest := run[0], WithoutFlushes(run[1..]);
      if a.Flush? {
        assert [] + rest == rest;
        FlushPointsDoNotMatter(Next(s, a), r, run[1..]);
      } else {
        assert ([a] + rest)[1..] == rest;
        SameNext(s, r, a);
        FlushPointsDoNotMatter(Next(s, a), Next(r, a), run[1..]);
      }
    }
  }

  // ---------------------------------------------------------------- histories

  /** The part of a version that never changes. */
  function Identity(vs: seq<FileVersion>): (r: seq<(int, Name)>)
    ensures |r| == |vs|
  {
    seq(|vs|, i requires 0 <= i < |vs| => (vs[i].modtime, vs[i].pathHash))
  }

  lemma HistoryGrowsPlay(m: Memory, fs: FS, step: Step, p: Path)
    requires Legal(m, fs, step) && p in m.files && p in Play(m, fs, step).files
    ensures Identity(m.files[p]) <= Identity(Play(m, fs, step).files[p])
  {}

  lemma HistoryGrowsUpload(s: State, stored: bool, header: seq<Octet>, p: Path)
    requires CanUploadNext(s, header) && p in s.mem.files
    ensures var r := Next(s, UploadNext(stored, header));
      p in r.mem.files && Identity(s.mem.files[p]) == Identity(r.mem.files[p])
  {
    UploadNextCases(s, stored, header);
  }

  lemma HistoryGrowsRestored(m: Memory, row: Row, p: Path)
    requires p in m.files
    ensures p in RestoreRow(m, row).files && Identity(m.files[p]) <= Identity(RestoreRow(m, row).files[p])
  {}

  lemma HistoryGrowsElsewhere(s: State, a: Action, p: Path)
    requires !a.Restart? && !a.Watching? && p in s.mem.files
    ensures p in Next(s, a).mem.files && Identity(s.mem.files[p]) <= Identity(Next(s, a).mem.files[p])
  {
    if a.RestoreDirectory? {
      RestoreNext(s, a);
    } else if a.RestoreFile? {
      if s.rest.rows != [] {
        HistoryGrowsRestored(s.mem, s.rest.rows[0], p);
      }
    } else if a.UploadNext? {
      if CanUploadNext(s, a.header) {
        HistoryGrowsUpload(s, a.stored, a.header, p);
      }
    } else {
      QuietNext(s, a);
    }
  }

  /** While a path stays tracked its history only grows at the back. */
  lemma HistoryGrows(s: State, a: Action, p: Path)
    requires !a.Restart? && p in s.mem.files && p in Next(s, a).mem.files
    ensures Identity(s.mem.files[p]) <= Identity(Next(s, a).mem.files[p])
  {
    if a.Watching? {
      if CanPlay(s, a.step) {
        HistoryGrowsPlay(s.mem, s.fs, a.step, p);
      }
    } else {
      HistoryGrowsElsewhere(s, a, p);
    }
  }

  /** Is the path tracked at every point of the run? */
  ghost predicate TrackedThroughout(s: State, run: seq<Action>, p: Path)
    decreases |run|
  {
    p in s.mem.files && (run == [] || TrackedThroughout(Next(s, run[0]), run[1..], p))
  }

  /** So on every run without restart, the versions a path has keep their modtimes and names, and new ones
      only follow them. */
  lemma {:induction false} HistoryOnlyGrows(s: State, run: seq<Action>, p: Path)
    requires NoRestart(run) && TrackedThroughout(s, run, p)
    ensures p in Exec(s, run).mem.files
    ensures Identity(s.mem.files[p]) <= Identity(Exec(s, run).mem.files[p])
    decreases |run|
  {
    if run != [] {
      var r := Next(s, run[0]);
      assert p in r.mem.files;
      HistoryGrows(s, run[0], p);
      HistoryOnlyGrows(r, run[1..], p);
      PrefixTransitive(
        Identity(s.mem.files[p]), Identity(r.mem.files[p]), Identity(Exec(r, run[1..]).mem.files[p]));
    }
  }

  lemma PrefixTransitive<T>(a: seq<T>, b: seq<T>, c: seq<T>)
    requires a <= b <= c
    ensures a <= c
  {}

  lemma NamesAfter(m: Memory, fs: FS, step: Step)
    requires Legal(m, fs, step)
    ensures var r := Play(m, fs, step);
      && r.minted >= m.minted
      && forall n :: n in r.names ==> (n in m.names && r.names[n] == m.names[n]) || n == Random(m.minted)
  {}

  lemma NamesElsewhere(s: State, a: Action)
    requires !a.Restart? && !a.Watching? && !a.RestoreFile?
    ensures Next(s, a).mem.names == s.mem.names && Next(s, a).mem.minted == s.mem.minted
    ensures Next(s, a).rest.rows == s.rest.rows
  {
    if a.RestoreDirectory? {
      RestoreNext(s, a);
    } else if !a.UploadNext? {
      QuietNext(s, a);
    }
  }

  /** The row that is left to be read back gives the name this path and this modtime. */
  ghost predicate DueAs(rows: seq<Row>, n: Name, as_: (Path, int)) {
    exists i :: 0 <= i < |rows| && rows[i].pathHash == n && as_ == (rows[i].path, Int32(rows[i].modtime))
  }

  lemma NamesNext(s: State, a: Action, n: Name)
    requires !a.Restart? && n in Next(s, a).mem.names
    ensures var r := Next(s, a);
      || (n in s.mem.names && r.mem.names[n] == s.mem.names[n])
      || DueAs(s.rest.rows, n, r.mem.names[n])
      || n == Random(s.mem.minted)
  {
    if a.Watching? {
      if CanPlay(s, a.step) {
        NamesAfter(s.mem, s.fs, a.step);
      }
    } else if a.RestoreFile? {
      if s.rest.rows != [] && n !in s.mem.names {
        assert s.rest.rows[0].pathHash == n;
      }
    } else {
      NamesElsewhere(s, a);
    }
  }

  lemma RestGoes(s: State, a: Action, n: Name, as_: (Path, int))
    requires !a.Restart? && DueAs(Next(s, a).rest.rows, n, as_)
    ensures DueAs(s.rest.rows, n, as_)
  {
    var r := Next(s, a).rest.rows;
    if a.RestoreFile? && s.rest.rows != [] {
      var i :| 0 <= i < |r| && r[i].pathHash == n && as_ == (r[i].path, Int32(r[i].modtime));
      assert s.rest.rows[i + 1] == r[i];
    } else if !a.Watching? && !a.RestoreFile? {
      NamesElsewhere(s, a);
    }
  }

  lemma MintedGrows(s: State, a: Action)
    ensures Next(s, a).mem.minted >= s.mem.minted
  {
    if Quiet(a) {
      QuietNext(s, a);
    }
  }

  /** Names are never used again: a name that is tracked after a run without restart was tracked before or
      was still to be read back, for the same path and modtime, or had not been drawn yet. */
  lemma {:induction false} NamesNeverReused(s: State, run: seq<Action>, n: Name)
    requires Inv(s) && NoRestart(run) && n in Exec(s, run).mem.names
    ensures var v := Exec(s, run).mem.names[n];
      || (n in s.mem.names && v == s.mem.names[n]) || DueAs(s.rest.rows, n, v) || !Drawn(n, s.mem.minted)
    decreases |run|
  {
    if run != [] {
      var r := Next(s, run[0]);
      InvNext(s, run[0]);
      MintedGrows(s, run[0]);
      NamesNeverReused(r, run[1..], n);
      var v := Exec(r, run[1..]).mem.names[n];
      if n in r.mem.names && v == r.mem.names[n] {
        NamesNext(s, run[0], n);
      } else if DueAs(r.rest.rows, n, v) {
        RestGoes(s, run[0], n, v);
      }
    }
  }

  // ---------------------------------------------------------------- lost uploads

  /** The name was drawn, nothing is stored under it, and nothing is queued to be. */
  ghost predicate Lost(s: State, id: nat) {
    && id < s.mem.minted && Random(id) !in s.bucket
    && (forall k :: 0 <= k < |s.mem.uploads| ==> s.mem.uploads[k].objectName != Random(id))
  }

  lemma LostNext(s: State, a: Action, id: nat)
    requires Lost(s, id)
    ensures Lost(Next(s, a), id)
  {
    if a.UploadNext? {
      if CanUploadNext(s, a.header) {
        LostUpload(s, a.stored, a.header, id);
      }
    } else if a.RestoreFile? || a.RestoreDirectory? {
      RestoreNext(s, a);
    } else if a.Watching? {
      LostWatching(s, a.step, id);
    } else if Quiet(a) {
      LostQuiet(s, a, id);
    }
  }

  lemma LostUpload(s: State, stored: bool, header: seq<Octet>, id: nat)
    requires Lost(s, id) && CanUploadNext(s, header)
    ensures Lost(Next(s, UploadNext(stored, header)), id)
  {
    UploadNextCases(s, stored, header);
  }

  lemma LostWatching(s: State, step: Step, id: nat)
    requires Lost(s, id)
    ensures Lost(Next(s, Watching(step)), id)
  {}

  lemma LostQuiet(s: State, a: Action, id: nat)
    requires Lost(s, id) && Quiet(a)
    ensures Lost(Next(s, a), id)
  {
    QuietNext(s, a);
    if a.DeleteNext? {
    } else if a.BackUpIndex? {
    } else {
    }
  }

  /** What is lost is never made up for, on any run, whatever is scanned, swept or restarted. */
  lemma {:induction false} LostForEver(s: State, run: seq<Action>, id: nat)
    requires Lost(s, id)
    ensures Lost(Exec(s, run), id)
    decreases |run|
  {
    if run != [] {
      LostNext(s, run[0], id);
      LostForEver(Next(s, run[0]), run[1..], id);
    }
  }

  /** A restart loses every upload that has not succeeded: nothing is ever stored under its name. */
  lemma LostUploadsStayLost(s: State, run: seq<Action>, id: nat)
    requires id < s.mem.minted && Random(id) !in s.bucket
    ensures Random(id) !in Exec(Next(s, Restart), run).bucket
  {
    LostForEver(Next(s, Restart), run, id);
  }
}
