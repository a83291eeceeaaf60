/** Two versions of a path that follow each other have different modtimes, and while all modtimes fit the
    32 bits they are read back with, the rows hold every modtime exactly. */
module Modtimes {
  import opened Common
  import opened FileSystem
  import opened Database
  import opened WorkQueue
  import opened Index
  import opened Steps
  import opened Machine
  import opened IndexInvariant
  import opened Refinement

  function Times(vs: seq<FileVersion>): (r: seq<int>)
    ensures |r| == |vs|
  {
    seq(|vs|, i requires 0 <= i < |vs| => vs[i].modtime)
  }

  function RowTimes(rs: seq<Row>): (r: seq<int>)
    ensures |r| == |rs|
  {
    seq(|rs|, i requires 0 <= i < |rs| => rs[i].modtime)
  }

  /** The modtimes of rows once they have been read back. */
  function ReadTimes(rs: seq<Row>): (r: seq<int>)
    ensures |r| == |rs|
  {
    seq(|rs|, i requires 0 <= i < |rs| => Int32(rs[i].modtime))
  }

  predicate Alternates(ts: seq<int>) {
    forall i :: 0 < i < |ts| ==> ts[i - 1] != ts[i]
  }

  /** No two neighbouring rows differ by a multiple of 2^32 seconds. */
  predicate RowsApart(rs: seq<Row>) {
    forall i :: 0 < i < |rs| ==> (rs[i - 1].modtime - rs[i].modtime) % 0x1_0000_0000 != 0
  }

  ghost predicate AllApart(rows: seq<Row>) {
    forall p :: RowsApart(RowsOf(rows, p))
  }

  // ---------------------------------------------------------------- neighbours

  /** In memory as it will be once everything has been read back, in the tables, and in the tables as they will
      be once the pending SQL has been executed. */
  ghost predicate NeighboursDiffer(s: State) {
    HistoriesDiffer(s.mem, s.rest.rows) && RowsDifferAll(s.db.rows) && RowsDifferAll(Committed(s).rows)
  }

  ghost predicate HistoriesDiffer(m: Memory, rest: seq<Row>) {
    forall p :: Alternates(Times(History(m, rest, p)))
  }

  ghost predicate RowsDifferAll(rows: seq<Row>) {
    forall p :: Alternates(RowTimes(RowsOf(rows, p)))
  }

  /** The file has the modtime of the last row of its path. */
  predicate MeetsRow(rs: seq<Row>, t: int) {
    rs != [] && rs[|rs| - 1].modtime == t
  }

  /** The file has the modtime that the first row still to be read back will have. */
  predicate MeetsRest(ws: seq<Row>, t: int) {
    ws != [] && Int32(ws[0].modtime) == t
  }

  ghost predicate Meets(s: State, step: Step) {
    && step.NewVersion?
    && var t := s.fs.Mtime(step.path);
       MeetsRow(RowsOf(Committed(s).rows, step.path), t) || MeetsRest(RowsOf(s.rest.rows, step.path), t)
  }

  /** The action records a version with the modtime of its neighbour in the tables or in what is still to be
      read back, or makes neighbours equal by reading them back with 32 bits. */
  ghost predicate Repeats(s: State, a: Action) {
    || (a.Watching? && CanPlay(s, a.step) && Meets(s, a.step))
    || (a.Restart? && !AllApart(s.db.rows))
  }

  lemma AlternatesAppend(ts: seq<int>, t: int)
    ensures Alternates(ts + [t]) <==> Alternates(ts) && (ts != [] ==> ts[|ts| - 1] != t)
  {
    var r := ts + [t];
    assert forall i :: 0 <= i < |ts| ==> r[i] == ts[i];
    assert r[|ts|] == t;
  }

  lemma AlternatesParts(a: seq<int>, b: seq<int>)
    requires Alternates(a + b)
    ensures Alternates(a) && Alternates(b) && (a != [] && b != [] ==> a[|a| - 1] != b[0])
  {
    var r := a + b;
    assert forall i :: 0 <= i < |a| ==> r[i] == a[i];
    forall i | 0 < i < |b| ensures b[i - 1] != b[i] {
      assert r[|a| + i - 1] == b[i - 1] && r[|a| + i] == b[i];
    }
    assert b != [] ==> r[|a|] == b[0];
  }

  lemma AlternatesJoined(a: seq<int>, b: seq<int>)
    requires Alternates(a) && Alternates(b) && (a != [] && b != [] ==> a[|a| - 1] != b[0])
    ensures Alternates(a + b)
  {
    var r := a + b;
    forall i | 0 < i < |r| ensures r[i - 1] != r[i] {
      if i < |a| {
        assert r[i - 1] == a[i - 1] && r[i] == a[i];
      } else if i > |a| {
        assert r[i - 1] == b[i - |a| - 1] && r[i] == b[i - |a|];
      }
    }
  }

  lemma TimesResumed(vs: seq<FileVersion>, ws: seq<Row>)
    ensures Times(Resumed(vs, ws)) == Times(vs) + ReadTimes(ws)
  {}

  lemma TimesSuperseded(vs: seq<FileVersion>, v: FileVersion)
    ensures Times(Superseded(vs)) == Times(vs) && Times(Superseded(vs) + [v]) == Times(vs) + [v.modtime]
  {
    assert Times(Superseded(vs)) == Times(vs);
  }

  /** Putting a modtime between what is in memory and what is still to be read back. */
  lemma AlternatesBetween(a: seq<int>, t: int, b: seq<int>)
    requires Alternates(a + b) && (a != [] ==> a[|a| - 1] != t)
    ensures Alternates((a + [t]) + b) <==> b == [] || b[0] != t
  {
    AlternatesParts(a, b);
    AlternatesAppend(a, t);
    if b == [] || b[0] != t {
      AlternatesJoined(a + [t], b);
    } else {
      assert ((a + [t]) + b)[|a|] == t && ((a + [t]) + b)[|a| + 1] == b[0];
    }
  }

  /** One path's view of a small step, in memory. */
  lemma HistoryDiffers(m: Memory, rest: seq<Row>, fs: FS, step: Step, p: Path)
    requires Legal(m, fs, step) && Alternates(Times(History(m, rest, p)))
    ensures Alternates(Times(History(Play(m, fs, step), rest, p)))
      <==> !(step == NewVersion(p) && MeetsRest(RowsOf(rest, p), fs.Mtime(p)))
  {
    var vs, ws := VersionsOf(m, p), RowsOf(rest, p);
    VersionsOfPlay(m, fs, step, p);
    TimesResumed(vs, ws);
    TimesResumed(VersionsAfter(m, fs, step, p), ws);
    TimesSuperseded(vs, Index.NewVersion(fs, p, m.minted));
    if step == NewVersion(p) {
      assert vs != [] ==> Times(vs)[|vs| - 1] != fs.Mtime(p);
      AlternatesBetween(Times(vs), fs.Mtime(p), ReadTimes(ws));
    } else if step == Forget(p) {
      AlternatesParts(Times(vs), ReadTimes(ws));
      assert Times([]) + ReadTimes(ws) == ReadTimes(ws);
    }
  }

  /** And in the tables. */
  lemma RowsDiffer(m: Memory, fs: FS, step: Step, rs: seq<Row>, p: Path)
    requires Legal(m, fs, step) && Alternates(RowTimes(rs))
    ensures Alternates(RowTimes(RowsAfter(rs, StatementOf(m, fs, step), p)))
      <==> !(step == NewVersion(p) && MeetsRow(rs, fs.Mtime(p)))
  {
    if step == NewVersion(p) {
      var row := RowOf(p, Index.NewVersion(fs, p, m.minted));
      assert RowTimes(rs + [row]) == RowTimes(rs) + [fs.Mtime(p)];
      AlternatesAppend(RowTimes(rs), fs.Mtime(p));
    } else {
      assert RowTimes(ClearLocal(rs, p)) == RowTimes(rs);
    }
  }

  lemma DiffersWatching(s: State, step: Step)
    requires NeighboursDiffer(s) && CanPlay(s, step)
    ensures NeighboursDiffer(Next(s, Watching(step))) <==> !Meets(s, step)
  {
    var r := Next(s, Watching(step));
    CommittedPlay(s, step);
    forall p
      ensures Alternates(Times(History(r.mem, r.rest.rows, p)))
        <==> !(step == NewVersion(p) && MeetsRest(RowsOf(s.rest.rows, p), s.fs.Mtime(p)))
      ensures Alternates(RowTimes(RowsOf(Committed(r).rows, p)))
        <==> !(step == NewVersion(p) && MeetsRow(RowsOf(Committed(s).rows, p), s.fs.Mtime(p)))
    {
      HistoryDiffers(s.mem, s.rest.rows, s.fs, step, p);
      RowsOfApply(Committed(s), StatementOf(s.mem, s.fs, step), p);
      RowsDiffer(s.mem, s.fs, step, RowsOf(Committed(s).rows, p), p);
    }
  }

  lemma SameInt32(a: int, b: int)
    ensures Int32(a) == Int32(b) <==> (a - b) % 0x1_0000_0000 == 0
  {}

  lemma ReadApart(rs: seq<Row>)
    ensures Alternates(ReadTimes(rs)) <==> RowsApart(rs)
    ensures RowsApart(rs) ==> Alternates(RowTimes(rs))
  {
    forall i | 0 < i < |rs|
      ensures ReadTimes(rs)[i - 1] == ReadTimes(rs)[i] <==> (rs[i - 1].modtime - rs[i].modtime) % 0x1_0000_0000 == 0
    {
      SameInt32(rs[i - 1].modtime, rs[i].modtime);
    }
  }

  lemma TimesRead(ws: seq<Row>)
    ensures Times(Resumed([], ws)) == ReadTimes(ws)
  {}

  /** One path's view of a start. */
  lemma StartedApart(rows: seq<Row>, minted: nat, p: Path)
    ensures Alternates(Times(History(Started(minted), rows, p))) <==> RowsApart(RowsOf(rows, p))
  {
    TimesRead(RowsOf(rows, p));
    ReadApart(RowsOf(rows, p));
  }

  lemma StartedAllApart(rows: seq<Row>, minted: nat)
    ensures HistoriesDiffer(Started(minted), rows) <==> AllApart(rows)
  {
    if AllApart(rows) {
      forall p ensures Alternates(Times(History(Started(minted), rows, p))) {
        StartedApart(rows, minted, p);
      }
    } else {
      var p :| !RowsApart(RowsOf(rows, p));
      StartedApart(rows, minted, p);
    }
  }

  /** A restart reads back the tables as they were flushed, and forgets what was pending. */
  lemma RestartState(s: State)
    ensures var r := Next(s, Restart);
      r.mem == Started(s.mem.minted) && r.rest == s.db && r.db == s.db && Committed(r) == s.db
  {}

  lemma DiffersRestart(s: State)
    requires RowsDifferAll(s.db.rows)
    ensures NeighboursDiffer(Next(s, Restart)) <==> AllApart(s.db.rows)
  {
    RestartState(s);
    StartedAllApart(s.db.rows, s.mem.minted);
    assert NeighboursDiffer(Next(s, Restart)) <==> HistoriesDiffer(Started(s.mem.minted), s.db.rows);
  }

  lemma DiffersRestoreFile(s: State)
    requires Inv(s) && NeighboursDiffer(s) && s.rest.rows != []
    ensures NeighboursDiffer(Next(s, RestoreFile))
  {
    var r := Next(s, RestoreFile);
    IndexedHistories(s.mem);
    assert Committed(r) == Committed(s);
    forall p ensures History(r.mem, r.rest.rows, p) == History(s.mem, s.rest.rows, p) {
      HistoryFirst(s.mem, s.rest.rows, p);
    }
  }

  lemma TimesMarked(m: Memory, rest: seq<Row>, p: Path, n: Name, q: Path)
    requires p in m.files && !IsBackup(m, n)
    ensures Times(History(UploadSuccess(m, p, n), rest, q)) == Times(History(m, rest, q))
  {}

  lemma DiffersTold(s: State, r: State, item: UploadItem)
    requires NeighboursDiffer(s) && Told(s, r, item)
    requires r == s.(mem := r.mem, bucket := r.bucket, sweep := r.sweep)
    ensures NeighboursDiffer(r)
  {
    CommittedAppend(s, SetRemoteExists(item.objectName), r.mem);
    forall p
      ensures Times(History(r.mem, r.rest.rows, p)) == Times(History(s.mem, s.rest.rows, p))
      ensures RowTimes(RowsOf(Committed(r).rows, p)) == RowTimes(RowsOf(Committed(s).rows, p))
    {
      RowsOfApply(Committed(s), SetRemoteExists(item.objectName), p);
      TimesMarked(s.mem, s.rest.rows, item.path, item.objectName, p);
      assert VersionsOf(r.mem, p) == VersionsOf(UploadSuccess(s.mem, item.path, item.objectName), p);
    }
  }

  lemma DiffersElsewhere(s: State, r: State)
    requires NeighboursDiffer(s)
    requires r.mem.files == s.mem.files && r.rest.rows == s.rest.rows
    requires Committed(r) == Committed(s) && (r.db == s.db || r.db == Committed(s))
    ensures NeighboursDiffer(r)
  {
    forall p ensures History(r.mem, r.rest.rows, p) == History(s.mem, s.rest.rows, p) {
      assert VersionsOf(r.mem, p) == VersionsOf(s.mem, p);
    }
  }

  lemma DiffersUploadNext(s: State, stored: bool, header: seq<SecretStream.Octet>)
    requires NeighboursDiffer(s) && CanUploadNext(s, header)
    ensures NeighboursDiffer(Next(s, UploadNext(stored, header)))
  {
    var r := Next(s, UploadNext(stored, header));
    UploadNextCases(s, stored, header);
    if Told(s, r, s.mem.uploads[s.sweep.skip]) {
      DiffersTold(s, r, s.mem.uploads[s.sweep.skip]);
    } else {
      DiffersElsewhere(s, r);
    }
  }

  lemma DiffersOther(s: State, a: Action)
    requires NeighboursDiffer(s) && (Quiet(a) || a.RestoreDirectory?)
    ensures NeighboursDiffer(Next(s, a))
  {
    if a.RestoreDirectory? {
      RestoreNext(s, a);
      assert Next(s, a).mem.files == s.mem.files && Next(s, a).rest.rows == s.rest.rows;
    } else {
      QuietNext(s, a);
    }
    DiffersElsewhere(s, Next(s, a));
  }

  /** An action keeps the modtimes of neighbouring versions and rows different, exactly when it is no new
      version that has the modtime of the last row of its path or of the first one still to be read back, and
      no restart with neighbouring rows a multiple of 2^32 seconds apart. */
  lemma NeighboursDifferExactlyWhen(s: State, a: Action)
    requires Inv(s) && NeighboursDiffer(s)
    ensures NeighboursDiffer(Next(s, a)) <==> !Repeats(s, a)
  {
    if a.Watching? {
      if CanPlay(s, a.step) {
        DiffersWatching(s, a.step);
      }
    } else if a.UploadNext? {
      if CanUploadNext(s, a.header) {
        DiffersUploadNext(s, a.stored, a.header);
      }
    } else if a.Restart? {
      DiffersRestart(s);
    } else if a.RestoreFile? {
      if s.rest.rows != [] {
        DiffersRestoreFile(s);
      }
    } else {
      DiffersOther(s, a);
    }
  }

  ghost predicate DifferThroughout(s: State, run: seq<Action>)
    decreases |run|
  {
    NeighboursDiffer(s) && (run == [] || DifferThroughout(Next(s, run[0]), run[1..]))
  }

  ghost predicate NeverRepeats(s: State, run: seq<Action>)
    decreases |run|
  {
    run == [] || (!Repeats(s, run[0]) && NeverRepeats(Next(s, run[0]), run[1..]))
  }

  lemma {:induction false} DifferThroughoutExactlyWhen(s: State, run: seq<Action>)
    requires Inv(s) && NeighboursDiffer(s)
    ensures DifferThroughout(s, run) <==> NeverRepeats(s, run)
    decreases |run|
  {
    if run != [] {
      NeighboursDifferExactlyWhen(s, run[0]);
      InvNext(s, run[0]);
      if Repeats(s, run[0]) {
        assert !DifferThroughout(Next(s, run[0]), run[1..]);
      } else {
        DifferThroughoutExactlyWhen(Next(s, run[0]), run[1..]);
      }
    }
  }

  lemma DifferInit(key: SecretStream.Key, fs: FS, bucket: map<Name, seq<SecretStream.Octet>>)
    ensures NeighboursDiffer(Init(key, fs, bucket))
  {
    assert forall p :: History(Init(key, fs, bucket).mem, [], p) == [];
  }

  /** So on every run, whatever the modtimes are. */
  lemma NeighboursDifferOnRuns(
      key: SecretStream.Key, fs: FS, bucket: map<Name, seq<SecretStream.Octet>>, run: seq<Action>)
    ensures DifferThroughout(Init(key, fs, bucket), run) <==> NeverRepeats(Init(key, fs, bucket), run)
  {
    InvInit(key, fs, bucket);
    DifferInit(key, fs, bucket);
    DifferThroughoutExactlyWhen(Init(key, fs, bucket), run);
  }

  // ---------------------------------------------------------------- modtimes that fit 32 bits

  ghost predicate ModtimesFit(fs: FS) {
    forall p :: p in fs.nodes ==> FitsInt32(fs.Mtime(p))
  }

  ghost predicate ModtimesFitRun(run: seq<Action>) {
    forall i :: 0 <= i < |run| && run[i].Edit? ==> ModtimesFit(run[i].fs)
  }

  ghost predicate RowsFit(rows: seq<Row>) {
    forall i :: 0 <= i < |rows| ==> FitsInt32(rows[i].modtime)
  }

  ghost predicate FilesFit(m: Memory) {
    forall p, i :: p in m.files && 0 <= i < |m.files[p]| ==> FitsInt32(m.files[p][i].modtime)
  }

  ghost predicate Fitting(s: State) {
    && ModtimesFit(s.fs) && FilesFit(s.mem)
    && RowsFit(s.db.rows) && RowsFit(Committed(s).rows) && RowsFit(s.rest.rows)
  }

  lemma FilesFitPlay(m: Memory, fs: FS, step: Step)
    requires ModtimesFit(fs) && FilesFit(m) && Legal(m, fs, step)
    ensures FilesFit(Play(m, fs, step))
  {}

  lemma RowsFitApply(t: Tables, stmt: Statement)
    requires RowsFit(t.rows) && (stmt.InsertFile? ==> FitsInt32(stmt.row.modtime))
    ensures RowsFit(Apply(t, stmt).rows)
  {
    if stmt.DeleteFile? {
      var kept := WithoutPath(t.rows, stmt.path);
      forall i | 0 <= i < |kept| ensures FitsInt32(kept[i].modtime) {
        WithoutPathMembers(t.rows, stmt.path, i);
      }
    }
  }

  lemma FittingUploadNext(s: State, stored: bool, header: seq<SecretStream.Octet>)
    requires Fitting(s) && CanUploadNext(s, header)
    ensures Fitting(Next(s, UploadNext(stored, header)))
  {
    var r, item := Next(s, UploadNext(stored, header)), s.mem.uploads[s.sweep.skip];
    UploadNextCases(s, stored, header);
    if Told(s, r, item) {
      CommittedAppend(s, SetRemoteExists(item.objectName), r.mem);
      RowsFitApply(Committed(s), SetRemoteExists(item.objectName));
    }
  }

  lemma FittingNext(s: State, a: Action)
    requires Fitting(s) && (a.Edit? ==> ModtimesFit(a.fs))
    ensures Fitting(Next(s, a))
  {
    if a.Watching? {
      if CanPlay(s, a.step) {
        CommittedPlay(s, a.step);
        FilesFitPlay(s.mem, s.fs, a.step);
        RowsFitApply(Committed(s), StatementOf(s.mem, s.fs, a.step));
      }
    } else if a.UploadNext? {
      if CanUploadNext(s, a.header) {
        FittingUploadNext(s, a.stored, a.header);
      }
    } else if a.Restart? {
      assert Committed(Next(s, a)) == s.db;
    } else if a.RestoreFile? || a.RestoreDirectory? {
      FittingRestore(s, a);
    } else {
      QuietNext(s, a);
    }
  }

  lemma FittingRestore(s: State, a: Action)
    requires Fitting(s) && (a.RestoreFile? || a.RestoreDirectory?)
    ensures Fitting(Next(s, a))
  {
    RestoreNext(s, a);
    if a.RestoreFile? && s.rest.rows != [] {
      FilesFitRestored(s.mem, s.rest.rows[0]);
    }
  }

  lemma FilesFitRestored(m: Memory, row: Row)
    requires FilesFit(m)
    ensures FilesFit(RestoreRow(m, row))
  {}

  lemma {:induction false} FittingExec(s: State, run: seq<Action>)
    requires Fitting(s) && ModtimesFitRun(run)
    ensures Fitting(Exec(s, run))
    decreases |run|
  {
    if run != [] {
      FittingNext(s, run[0]);
      FittingExec(Next(s, run[0]), run[1..]);
    }
  }

  lemma {:induction false} RowsOfFit(rows: seq<Row>, p: Path)
    requires RowsFit(rows)
    ensures RowsFit(RowsOf(rows, p)) && ReadTimes(RowsOf(rows, p)) == RowTimes(RowsOf(rows, p))
    decreases |rows|
  {
    if rows != [] {
      RowsOfFit(rows[..|rows| - 1], p);
    }
  }

  /** The file is added with the modtime of the last row of its path, or of the first one still to be read
      back. */
  ghost predicate AddsKnownModtime(s: State, a: Action) {
    && a.Watching? && CanPlay(s, a.step) && a.step.NewVersion?
    && var p := a.step.path;
       var t, rs, ws := s.fs.Mtime(p), RowsOf(Committed(s).rows, p), RowsOf(s.rest.rows, p);
       (rs != [] && rs[|rs| - 1].modtime == t) || (ws != [] && ws[0].modtime == t)
  }

  /** While modtimes fit, restarts do no harm, and the condition is about the modtimes as they are. */
  lemma RepeatsExactlyWhen(s: State, a: Action)
    requires Fitting(s) && NeighboursDiffer(s)
    ensures Repeats(s, a) <==> AddsKnownModtime(s, a)
  {
    if a.Restart? {
      forall p ensures RowsApart(RowsOf(s.db.rows, p)) {
        RowsOfFit(s.db.rows, p);
        ReadApart(RowsOf(s.db.rows, p));
      }
    } else if a.Watching? {
      RowsOfFit(s.rest.rows, a.step.path);
      var ws := RowsOf(s.rest.rows, a.step.path);
      assert ws != [] ==> ReadTimes(ws)[0] == RowTimes(ws)[0];
    }
  }

  // ---------------------------------------------------------------- rows and index

  /** Row by row and version by version, the same modtimes and names; neighbours differ in modtime. */
  ghost predicate SameHistory(vs: seq<FileVersion>, rs: seq<Row>) {
    && |vs| == |rs|
    && (forall i :: 0 <= i < |vs| ==> rs[i].modtime == vs[i].modtime && rs[i].pathHash == vs[i].pathHash)
    && (forall i :: 0 < i < |vs| ==> vs[i - 1].modtime != vs[i].modtime)
  }

  lemma HistoryFits(s: State, p: Path)
    requires Fitting(s)
    ensures forall i :: 0 <= i < |History(s.mem, s.rest.rows, p)| ==>
      FitsInt32(History(s.mem, s.rest.rows, p)[i].modtime)
  {}

  lemma SameModtimes(s: State, p: Path)
    requires Fitting(s) && Agrees(s)
    ensures var vs, rs := History(s.mem, s.rest.rows, p), RowsOf(Committed(s).rows, p);
      |vs| == |rs| && forall i :: 0 <= i < |vs| ==> rs[i].modtime == vs[i].modtime && rs[i].pathHash == vs[i].pathHash
  {
    var vs, rs := History(s.mem, s.rest.rows, p), RowsOf(Committed(s).rows, p);
    HistoryFits(s, p);
    RowsOfFit(Committed(s).rows, p);
    assert Mirrors(vs, rs, s.runStart);
    forall i | 0 <= i < |vs| ensures rs[i].modtime == vs[i].modtime && rs[i].pathHash == vs[i].pathHash {
      assert Agree(vs[i], rs[i], i, s.runStart);
    }
  }

  /** An action that disturbs nothing still to be read back repeats no modtime. */
  lemma SparingIsNoRepeat(s: State, a: Action)
    requires Fitting(s) && Agrees(s) && NeighboursDiffer(s) && Spares(s, a)
    ensures !Repeats(s, a)
  {
    RepeatsExactlyWhen(s, a);
    if a.Watching? && CanPlay(s, a.step) && a.step.NewVersion? {
      var p := a.step.path;
      RowsOfNone(s.rest.rows, p);
      HistoryAll(s.mem, s.rest.rows, p);
      SameModtimes(s, p);
    }
  }

  lemma {:induction false} DifferExec(s: State, run: seq<Action>)
    requires Inv(s) && Fitting(s) && Agrees(s) && NeighboursDiffer(s) && ModtimesFitRun(run) && SparesAll(s, run)
    ensures Fitting(Exec(s, run)) && Agrees(Exec(s, run)) && NeighboursDiffer(Exec(s, run))
    decreases |run|
  {
    if run != [] {
      SparingIsNoRepeat(s, run[0]);
      NeighboursDifferExactlyWhen(s, run[0]);
      AgreesExactlyWhen(s, run[0]);
      FittingNext(s, run[0]);
      InvNext(s, run[0]);
      DifferExec(Next(s, run[0]), run[1..]);
    }
  }

  /** On every run, with any flushes and restarts, in which modtimes fit 32 bits and no request disturbs what
      is still to be read back: grouping the rows by path gives exactly the modtimes and names in memory (and
      the rows left to be read back), and neighbouring versions differ in modtime. */
  lemma RowsAreIndex(
      key: SecretStream.Key, fs: FS, bucket: map<Name, seq<SecretStream.Octet>>, run: seq<Action>, p: Path)
    requires ModtimesFit(fs) && ModtimesFitRun(run) && SparesAll(Init(key, fs, bucket), run)
    ensures var s := Exec(Init(key, fs, bucket), run);
      SameHistory(History(s.mem, s.rest.rows, p), RowsOf(Committed(s).rows, p))
  {
    InvInit(key, fs, bucket);
    DifferInit(key, fs, bucket);
    DifferExec(Init(key, fs, bucket), run);
    var s := Exec(Init(key, fs, bucket), run);
    SameModtimes(s, p);
    var vs := History(s.mem, s.rest.rows, p);
    forall i | 0 < i < |vs| ensures vs[i - 1].modtime != vs[i].modtime {
      assert Times(vs)[i - 1] != Times(vs)[i];
    }
  }

  /** A start that nobody interrupts: neighbouring versions of a path have different modtimes exactly when no
      two neighbouring rows differ by a multiple of 2^32 seconds. */
  lemma RestartKeepsNeighboursApartExactlyWhen(t: Tables, minted: nat, p: Path)
    ensures |VersionsOf(ReadBack(Started(minted), t), p)| == |RowsOf(t.rows, p)|
    ensures Alternates(Times(VersionsOf(ReadBack(Started(minted), t), p))) <==> RowsApart(RowsOf(t.rows, p))
  {
    RestoredFiles(Started(minted), t.rows, p);
    StartedApart(t.rows, minted, p);
  }
}
