/** The forward and the reverse index agree, and the rows agree with both: what every small step keeps. */
module IndexInvariant {
  import opened Common
  import opened FileSystem
  import opened Database
  import opened WorkQueue
  import opened Index
  import opened Steps
  import opened Machine

  ghost predicate Drawn(n: Name, minted: nat) {
    n.Random? && n.id < minted
  }

  /** The history of one path: not empty, under drawn and different names, which the reverse index maps
      back to the path and the modtime. */
  ghost predicate HistoryOk(m: Memory, p: Path, vs: seq<FileVersion>) {
    && vs != []
    && (forall i :: 0 <= i < |vs| ==>
          && Drawn(vs[i].pathHash, m.minted)
          && vs[i].pathHash in m.names && m.names[vs[i].pathHash] == (p, vs[i].modtime))
    && (forall i, j :: 0 <= i < j < |vs| ==> vs[i].pathHash != vs[j].pathHash)
  }

  ghost predicate Names(vs: seq<FileVersion>, n: Name) {
    exists i :: 0 <= i < |vs| && vs[i].pathHash == n
  }

  /** A queued upload was queued under a name that is used up, and if the name is still tracked, for the
      version that has it. */
  ghost predicate ItemOk(m: Memory, item: UploadItem) {
    && Used(item.objectName, m.minted)
    && (item.objectName in m.names ==> m.names[item.objectName] == (item.path, item.modtime))
  }

  ghost predicate Indexed(m: Memory) {
    && (forall p :: p in m.files ==> HistoryOk(m, p, m.files[p]))
    && (forall n :: n in m.names ==> m.names[n].0 in m.files && Names(m.files[m.names[n].0], n))
    && (forall k :: 0 <= k < |m.uploads| ==> ItemOk(m, m.uploads[k]))
  }

  /** Names are unique across all paths. */
  lemma NamesUnique(m: Memory, p: Path, i: nat, q: Path, j: nat)
    requires Indexed(m)
    requires p in m.files && i < |m.files[p]| && q in m.files && j < |m.files[q]|
    requires m.files[p][i].pathHash == m.files[q][j].pathHash
    ensures p == q && i == j
  {}

  lemma TrackedNamesDrawn(m: Memory)
    requires Indexed(m)
    ensures forall n :: n in m.names ==> Drawn(n, m.minted)
  {}

  lemma NamedHash(vs: seq<FileVersion>, n: Name)
    requires Names(vs, n)
    ensures n in PathHashes(vs)
  {}

  lemma IndexedForget(m: Memory, p: Path)
    requires Indexed(m)
    ensures Indexed(DelFileWatch(m, p))
  {
    var r := DelFileWatch(m, p);
    forall q | q in r.files ensures HistoryOk(r, q, r.files[q]) {
      HistoriesForget(m, p, q);
    }
    forall n | n in r.names ensures r.names[n].0 in r.files && Names(r.files[r.names[n].0], n) {
      NamedHash(m.files[m.names[n].0], n);
    }
    forall k | 0 <= k < |r.uploads| ensures ItemOk(r, r.uploads[k]) {
      assert ItemOk(m, m.uploads[k]);
    }
  }

  lemma HistoriesForget(m: Memory, p: Path, q: Path)
    requires Indexed(m) && q in m.files && q != p
    ensures HistoryOk(DelFileWatch(m, p), q, m.files[q])
  {
    assert HistoryOk(m, q, m.files[q]);
    if p in m.files {
      assert HistoryOk(m, p, m.files[p]);
    }
  }

  /** Changing flags of versions in place keeps the index. */
  ghost predicate SameVersions(vs: seq<FileVersion>, ws: seq<FileVersion>) {
    && |vs| == |ws|
    && (forall i :: 0 <= i < |vs| ==> vs[i].pathHash == ws[i].pathHash && vs[i].modtime == ws[i].modtime)
  }

  lemma IndexedFlags(m: Memory, p: Path, vs: seq<FileVersion>)
    requires Indexed(m) && p in m.files && SameVersions(m.files[p], vs)
    ensures Indexed(m.(files := m.files[p := vs]))
  {}

  /** Only the parts the invariant speaks about matter. */
  lemma IndexedElsewhere(m: Memory, r: Memory)
    requires Indexed(m)
    requires r.files == m.files && r.names == m.names && r.minted >= m.minted
    requires forall k :: 0 <= k < |r.uploads| ==> r.uploads[k] in m.uploads || ItemOk(r, r.uploads[k])
    ensures Indexed(r)
  {}

  /** A version is put behind the history of its path, under a name that is not tracked. */
  function Appended(m: Memory, p: Path, v: FileVersion): Memory {
    m.(files := m.files[p := (if p in m.files then m.files[p] else []) + [v]],
       names := m.names[v.pathHash := (p, v.modtime)])
  }

  lemma HistoriesAppended(m: Memory, p: Path, v: FileVersion, q: Path)
    requires Indexed(m) && Drawn(v.pathHash, m.minted) && v.pathHash !in m.names && q in Appended(m, p, v).files
    ensures HistoryOk(Appended(m, p, v), q, Appended(m, p, v).files[q])
  {
    if q in m.files {
      assert HistoryOk(m, q, m.files[q]);
    }
  }

  lemma NamesAppended(m: Memory, p: Path, v: FileVersion, n: Name)
    requires Indexed(m) && n in Appended(m, p, v).names
    ensures var r := Appended(m, p, v);
      r.names[n].0 in r.files && Names(r.files[r.names[n].0], n)
  {
    var r := Appended(m, p, v);
    if n == v.pathHash {
      assert Last(r.files[p]).pathHash == n;
    } else {
      var q := m.names[n].0;
      var i :| 0 <= i < |m.files[q]| && m.files[q][i].pathHash == n;
      assert r.files[q][i].pathHash == n;
    }
  }

  lemma IndexedAppend(m: Memory, p: Path, v: FileVersion)
    requires Indexed(m) && Drawn(v.pathHash, m.minted) && v.pathHash !in m.names
    requires forall k :: 0 <= k < |m.uploads| ==> m.uploads[k].objectName != v.pathHash
    ensures Indexed(Appended(m, p, v))
  {
    var r := Appended(m, p, v);
    forall q | q in r.files ensures HistoryOk(r, q, r.files[q]) {
      HistoriesAppended(m, p, v, q);
    }
    forall n | n in r.names ensures r.names[n].0 in r.files && Names(r.files[r.names[n].0], n) {
      NamesAppended(m, p, v, n);
    }
    forall k | 0 <= k < |r.uploads| ensures ItemOk(r, r.uploads[k]) {
      assert ItemOk(m, m.uploads[k]);
    }
  }

  lemma IndexedMinted(m: Memory, b: Memory)
    requires Indexed(b) && b.minted == m.minted && b.uploads == m.uploads
    ensures var d := b.(minted := m.minted + 1);
      && Indexed(d) && Random(m.minted) !in d.names && Drawn(Random(m.minted), d.minted)
      && forall k :: 0 <= k < |d.uploads| ==> d.uploads[k].objectName != Random(m.minted)
  {
    var d := b.(minted := m.minted + 1);
    TrackedNamesDrawn(b);
    IndexedElsewhere(b, d);
    forall k | 0 <= k < |d.uploads| ensures d.uploads[k].objectName != Random(m.minted) {
      assert ItemOk(b, b.uploads[k]);
    }
  }

  lemma NewVersionIsAppended(m: Memory, b: Memory, fs: FS, p: Path)
    requires Legal(m, fs, NewVersion(p)) && b == (if p in m.files then Supersede(m, p) else m)
    requires Random(m.minted) !in m.names
    ensures var v, r := Index.NewVersion(fs, p, m.minted), Play(m, fs, NewVersion(p));
      && r == Appended(b.(minted := m.minted + 1), p, v).(sql := r.sql, uploads := r.uploads)
      && r.uploads == m.uploads + [UploadItem(p, v.pathHash, v.modtime)]
  {}

  lemma IndexedNewVersion(m: Memory, fs: FS, p: Path)
    requires Indexed(m) && Legal(m, fs, NewVersion(p))
    ensures Indexed(Play(m, fs, NewVersion(p)))
  {
    var v := Index.NewVersion(fs, p, m.minted);
    var b := if p in m.files then Supersede(m, p) else m;
    if p in m.files {
      IndexedFlags(m, p, b.files[p]);
    }
    IndexedMinted(m, b);
    NewVersionIsAppended(m, b, fs, p);
    var d := b.(minted := m.minted + 1);
    IndexedAppend(d, p, v);
    IndexedQueued(Appended(d, p, v), Play(m, fs, NewVersion(p)), UploadItem(p, v.pathHash, v.modtime));
  }

  lemma IndexedQueued(m: Memory, r: Memory, item: UploadItem)
    requires Indexed(m) && r == m.(sql := r.sql, uploads := r.uploads)
    requires r.uploads == m.uploads || r.uploads == m.uploads + [item]
    requires item.objectName in m.names && m.names[item.objectName] == (item.path, item.modtime)
    ensures Indexed(r)
  {
    TrackedNamesDrawn(m);
    IndexedElsewhere(m, r);
  }

  lemma IndexedPlay(m: Memory, fs: FS, step: Step)
    requires Indexed(m) && Legal(m, fs, step)
    ensures Indexed(Play(m, fs, step))
  {
    match step
    case NewVersion(p) => IndexedNewVersion(m, fs, p);
    case Forget(p) => IndexedForget(m, p);
    case WatchDirectory(p, recursive) => IndexedElsewhere(m, WatchDir(m, p, recursive));
    case UnwatchDirectory(p) => IndexedElsewhere(m, UnwatchDir(m, p));
    case Gone(p) => IndexedGone(m, p);
  }

  lemma IndexedGone(m: Memory, p: Path)
    requires Indexed(m) && Tracked(m, p)
    ensures Indexed(MarkGone(m, p))
  {
    IndexedFlags(m, p, WithLast(m.files[p], Last(m.files[p]).(localExists := false)));
    IndexedElsewhere(Supersede(m, p), MarkGone(m, p));
  }

  lemma IndexedUploadSuccess(m: Memory, p: Path, n: Name)
    requires Indexed(m) && (IsBackup(m, n) || p in m.files)
    ensures Indexed(UploadSuccess(m, p, n))
  {
    if !IsBackup(m, n) {
      var r := m.(files := m.files[p := MarkRemote(m.files[p], n)]);
      IndexedFlags(m, p, MarkRemote(m.files[p], n));
      IndexedElsewhere(r, UploadSuccess(m, p, n));
    }
  }

  // ---------------------------------------------------------------- the rows

  /** The rows are under drawn and different names. */
  ghost predicate RowsOk(rows: seq<Row>, minted: nat) {
    && (forall i :: 0 <= i < |rows| ==> Drawn(rows[i].pathHash, minted))
    && (forall i, j :: 0 <= i < j < |rows| ==> rows[i].pathHash != rows[j].pathHash)
  }

  ghost predicate TablesOk(t: Tables, minted: nat) {
    RowsOk(t.rows, minted)
  }

  /** One of the rows has this name. */
  ghost predicate Due(rows: seq<Row>, n: Name) {
    exists i :: 0 <= i < |rows| && rows[i].pathHash == n
  }

  ghost predicate OfPath(rows: seq<Row>, p: Path) {
    exists i :: 0 <= i < |rows| && rows[i].path == p
  }

  lemma DueFirst(rows: seq<Row>, n: Name)
    requires rows != []
    ensures Due(rows, n) <==> rows[0].pathHash == n || Due(rows[1..], n)
  {
    if Due(rows[1..], n) {
      var i :| 0 <= i < |rows[1..]| && rows[1..][i].pathHash == n;
      assert rows[i + 1].pathHash == n;
    }
    if Due(rows, n) && rows[0].pathHash != n {
      var i :| 0 <= i < |rows| && rows[i].pathHash == n;
      assert rows[1..][i - 1].pathHash == n;
    }
  }

  /** Rows that can be put behind the index: their names were drawn before this run and are not tracked,
      while everything queued for upload was drawn in this run. */
  ghost predicate Pending(m: Memory, rows: seq<Row>, runStart: nat) {
    && RowsOk(rows, runStart) && runStart <= m.minted
    && (forall i :: 0 <= i < |rows| ==> rows[i].pathHash !in m.names)
    && (forall k :: 0 <= k < |m.uploads| && m.uploads[k].objectName.Random? ==> m.uploads[k].objectName.id >= runStart)
  }

  lemma RestoreRowIndexed(m: Memory, row: Row)
    requires Indexed(m) && Drawn(row.pathHash, m.minted) && row.pathHash !in m.names
    requires forall k :: 0 <= k < |m.uploads| ==> m.uploads[k].objectName != row.pathHash
    ensures Indexed(RestoreRow(m, row))
  {
    var v := Restored(row, row.path !in m.files);
    IndexedAppend(m, row.path, v);
    var earlier := if row.path in m.files then m.files[row.path] else [];
    assert earlier == [] ==> earlier + [v] == [v];
    assert RestoreRow(m, row) == Appended(m, row.path, v);
  }

  /** Reading back one row, whatever was added and dropped since the start. */
  lemma RestoreFirst(m: Memory, rows: seq<Row>, runStart: nat)
    requires Indexed(m) && Pending(m, rows, runStart) && rows != []
    ensures Indexed(RestoreRow(m, rows[0])) && Pending(RestoreRow(m, rows[0]), rows[1..], runStart)
  {
    RestoreRowIndexed(m, rows[0]);
    forall i | 0 <= i < |rows[1..]| ensures rows[1..][i].pathHash !in RestoreRow(m, rows[0]).names {
      assert rows[1..][i] == rows[i + 1];
    }
  }

  lemma {:induction false} RestoreIndexed(m: Memory, rows: seq<Row>, runStart: nat)
    requires Indexed(m) && Pending(m, rows, runStart)
    ensures Indexed(RestoreRows(m, rows))
    decreases |rows|
  {
    if rows != [] {
      RestoreFirst(m, rows, runStart);
      RestoreIndexed(RestoreRow(m, rows[0]), rows[1..], runStart);
    }
  }

  function VersionsOf(m: Memory, p: Path): seq<FileVersion> {
    if p in m.files then m.files[p] else []
  }

  /** The history of a path with its rows put behind it. */
  function Resumed(vs: seq<FileVersion>, rs: seq<Row>): (r: seq<FileVersion>)
    ensures |r| == |vs| + |rs|
    ensures forall i :: 0 <= i < |r| ==> r[i] == if i < |vs| then vs[i] else Restored(rs[i - |vs|], i == 0)
  {
    seq(|vs| + |rs|, i requires 0 <= i < |vs| + |rs| => if i < |vs| then vs[i] else Restored(rs[i - |vs|], i == 0))
  }

  lemma ResumedFirst(vs: seq<FileVersion>, r: Row, rs: seq<Row>)
    ensures Resumed(vs, [r] + rs) == Resumed(vs + [Restored(r, vs == [])], rs)
  {
    var a, b := Resumed(vs, [r] + rs), Resumed(vs + [Restored(r, vs == [])], rs);
    forall i | 0 <= i < |a| ensures a[i] == b[i] {
      if i > |vs| {
        assert ([r] + rs)[i - |vs|] == rs[i - |vs| - 1];
      }
    }
  }

  lemma {:induction false} RowsOfFirst(rows: seq<Row>, p: Path)
    requires rows != []
    ensures RowsOf(rows, p) == (if rows[0].path == p then [rows[0]] else []) + RowsOf(rows[1..], p)
    decreases |rows|
  {
    var n := |rows| - 1;
    if n > 0 {
      RowsOfFirst(rows[..n], p);
      assert rows[..n][1..] == rows[1..][..n - 1];
      assert rows[1..][n - 1] == rows[n];
    }
  }

  ghost predicate Histories(m: Memory) {
    forall p :: p in m.files ==> m.files[p] != []
  }

  /** What reading one row back makes of the history of each path. */
  lemma HistoryAfterRow(m: Memory, r: Row, p: Path)
    requires Histories(m)
    ensures var vs := VersionsOf(m, p);
      VersionsOf(RestoreRow(m, r), p) == if r.path == p then vs + [Restored(r, vs == [])] else vs
    ensures Histories(RestoreRow(m, r))
  {}

  /** What reading rows back makes of the history of each path. */
  lemma {:induction false} RestoredFiles(m: Memory, rows: seq<Row>, p: Path)
    requires Histories(m)
    ensures var r := RestoreRows(m, rows);
      && VersionsOf(r, p) == Resumed(VersionsOf(m, p), RowsOf(rows, p))
      && Histories(r)
      && r == m.(files := r.files, names := r.names)
    decreases |rows|
  {
    if rows == [] {
      assert Resumed(VersionsOf(m, p), []) == VersionsOf(m, p);
    } else {
      var r, rest := rows[0], rows[1..];
      HistoryAfterRow(m, r, p);
      RestoredFiles(RestoreRow(m, r), rest, p);
      RowsOfFirst(rows, p);
      if r.path == p {
        ResumedFirst(VersionsOf(m, p), r, RowsOf(rest, p));
      } else {
        assert [] + RowsOf(rest, p) == RowsOf(rest, p);
      }
    }
  }

  /** Field by field: reading rows back keeps the versions there are; the very first version of a path comes as
      its row has it, and any other is live and has no hash and no object, whatever its row says. */
  lemma RestoredFields(m: Memory, rows: seq<Row>, p: Path)
    requires Histories(m)
    ensures var vs, rs, ws := VersionsOf(m, p), RowsOf(rows, p), VersionsOf(RestoreRows(m, rows), p);
      && |ws| == |vs| + |rs| && ws[..|vs|] == vs
      && forall i :: 0 <= i < |rs| ==>
           var row := rs[i];
           ws[|vs| + i] ==
             if |vs| + i == 0
             then FileVersion(Int32(row.modtime), row.pathHash, row.fileHash, row.localExists, row.remoteExists)
             else FileVersion(Int32(row.modtime), row.pathHash, NoDigest, true, false)
  {
    RestoredFiles(m, rows, p);
  }

  /** A name that is known keeps its entry in the reverse index. */
  lemma RestoredName(m: Memory, row: Row, n: Name)
    ensures var r := RestoreRow(m, row);
      && (n in r.names <==> n in m.names || n == row.pathHash)
      && (n in r.names ==> r.names[n] == if n in m.names then m.names[n] else (row.path, Int32(row.modtime)))
    ensures RestoreRow(m, row) == m.(files := RestoreRow(m, row).files, names := RestoreRow(m, row).names)
  {}

  lemma {:induction false} RowsOfNone(rows: seq<Row>, p: Path)
    ensures RowsOf(rows, p) == [] <==> !OfPath(rows, p)
    decreases |rows|
  {
    if rows != [] {
      var front := rows[..|rows| - 1];
      RowsOfNone(front, p);
      assert rows[|rows| - 1].path == p ==> OfPath(rows, p);
      if OfPath(front, p) {
        var i :| 0 <= i < |front| && front[i].path == p;
        assert rows[i].path == p;
      }
      if OfPath(rows, p) && rows[|rows| - 1].path != p {
        var i :| 0 <= i < |rows| && rows[i].path == p;
        assert front[i].path == p;
      }
    }
  }

  // ---------------------------------------------------------------- statements keep names apart

  lemma {:induction false} WithoutPathMembers(rows: seq<Row>, p: Path, i: nat)
    requires i < |WithoutPath(rows, p)|
    ensures WithoutPath(rows, p)[i].path != p && WithoutPath(rows, p)[i] in rows
    decreases |rows|
  {
    var front := rows[..|rows| - 1];
    if i < |WithoutPath(front, p)| {
      WithoutPathMembers(front, p, i);
    }
  }

  lemma {:induction false} WithoutPathRowsOk(rows: seq<Row>, p: Path, minted: nat)
    requires RowsOk(rows, minted)
    ensures RowsOk(WithoutPath(rows, p), minted)
    decreases |rows|
  {
    if rows != [] {
      var front, last := rows[..|rows| - 1], rows[|rows| - 1];
      WithoutPathRowsOk(front, p, minted);
      var kept := WithoutPath(front, p);
      forall i | 0 <= i < |kept| ensures kept[i].pathHash != last.pathHash {
        WithoutPathMembers(front, p, i);
      }
    }
  }

  /** Every statement but the insertion of a used name keeps the names of the rows apart. */
  lemma ApplyRowsOk(t: Tables, stmt: Statement, minted: nat)
    requires RowsOk(t.rows, minted)
    requires stmt.InsertFile? ==> stmt.row.pathHash == Random(minted)
    ensures RowsOk(Apply(t, stmt).rows, if stmt.InsertFile? then minted + 1 else minted)
  {
    if stmt.DeleteFile? {
      WithoutPathRowsOk(t.rows, stmt.path, minted);
    }
  }
}
