/** The SQL tables, the statements the daemon queues for them, and the handle that executes batches. */
module Database {
  import opened Common

  datatype Row = Row(
    path: Path, modtime: int, pathHash: Name, fileHash: Digest,
    localExists: bool, remoteExists: bool)

  datatype Statement =
    | InsertDir(path: Path, recursive: bool)
    | DeleteDir(path: Path)
    | InsertFile(row: Row)
    | DeleteFile(path: Path)
    | ClearLocalExists(path: Path)
    | SetRemoteExists(pathHash: Name)

  /** Table dirIndex is unique in PATH; table fileIndex is a list of rows in row order.  A boolean column
      that was never set reads as false. */
  datatype Tables = Tables(dirs: map<Path, bool>, rows: seq<Row>)

  function WithoutPath(rows: seq<Row>, p: Path): (r: seq<Row>) {
    if rows == [] then []
    else
      var rest := WithoutPath(rows[..|rows| - 1], p);
      var last := rows[|rows| - 1];
      if last.path == p then rest else rest + [last]
  }

  function ClearLocal(rows: seq<Row>, p: Path): (r: seq<Row>)
    ensures |r| == |rows|
  {
    seq(|rows|, i requires 0 <= i < |rows| =>
      if rows[i].path == p then rows[i].(localExists := false) else rows[i])
  }

  function SetRemote(rows: seq<Row>, n: Name): (r: seq<Row>)
    ensures |r| == |rows|
  {
    seq(|rows|, i requires 0 <= i < |rows| =>
      if rows[i].pathHash == n then rows[i].(remoteExists := true) else rows[i])
  }

  function Apply(t: Tables, stmt: Statement): Tables {
    match stmt
    case InsertDir(p, recursive) => if p in t.dirs then t else t.(dirs := t.dirs[p := recursive])
    case DeleteDir(p) => t.(dirs := t.dirs - {p})
    case InsertFile(row) => t.(rows := t.rows + [row])
    case DeleteFile(p) => t.(rows := WithoutPath(t.rows, p))
    case ClearLocalExists(p) => t.(rows := ClearLocal(t.rows, p))
    case SetRemoteExists(n) => t.(rows := SetRemote(t.rows, n))
  }

  function ApplyAll(t: Tables, batch: seq<Statement>): Tables
    decreases |batch|
  {
    if batch == [] then t else ApplyAll(Apply(t, batch[0]), batch[1..])
  }

  /** Executing two batches is executing their concatenation: where a batch is cut does not matter. */
  lemma {:induction false} ApplyAllConcat(t: Tables, a: seq<Statement>, b: seq<Statement>)
    ensures ApplyAll(t, a + b) == ApplyAll(ApplyAll(t, a), b)
    decreases |a|
  {
    if a == [] {
      assert a + b == b;
    } else {
      assert (a + b)[1..] == a[1..] + b;
      ApplyAllConcat(Apply(t, a[0]), a[1..], b);
    }
  }

  /** The rows of one path, in row order. */
  function RowsOf(rows: seq<Row>, p: Path): (r: seq<Row>)
    ensures forall i :: 0 <= i < |r| ==> r[i].path == p
  {
    if rows == [] then []
    else
      var rest := RowsOf(rows[..|rows| - 1], p);
      var last := rows[|rows| - 1];
      if last.path == p then rest + [last] else rest
  }

  lemma RowsOfInsert(rows: seq<Row>, row: Row, p: Path)
    ensures RowsOf(rows + [row], p) == RowsOf(rows, p) + (if row.path == p then [row] else [])
  {}

  lemma {:induction false} RowsOfDelete(rows: seq<Row>, q: Path, p: Path)
    ensures RowsOf(WithoutPath(rows, q), p) == if p == q then [] else RowsOf(rows, p)
  {
    if rows != [] {
      var front, last := rows[..|rows| - 1], rows[|rows| - 1];
      RowsOfDelete(front, q, p);
      if last.path != q {
        RowsOfInsert(WithoutPath(front, q), last, p);
      }
    }
  }

  lemma {:induction false} RowsOfClearLocal(rows: seq<Row>, q: Path, p: Path)
    ensures RowsOf(ClearLocal(rows, q), p) == if p == q then ClearLocal(RowsOf(rows, p), p) else RowsOf(rows, p)
  {
    if rows != [] {
      var front, last := rows[..|rows| - 1], rows[|rows| - 1];
      RowsOfClearLocal(front, q, p);
      assert ClearLocal(rows, q)[..|rows| - 1] == ClearLocal(front, q);
    }
  }

  lemma {:induction false} RowsOfSetRemote(rows: seq<Row>, n: Name, p: Path)
    ensures RowsOf(SetRemote(rows, n), p) == SetRemote(RowsOf(rows, p), n)
  {
    if rows != [] {
      var front, last := rows[..|rows| - 1], rows[|rows| - 1];
      RowsOfSetRemote(front, n, p);
      assert SetRemote(rows, n)[..|rows| - 1] == SetRemote(front, n);
    }
  }

  /** What a statement does to the rows of one path. */
  function RowsAfter(rs: seq<Row>, stmt: Statement, p: Path): seq<Row> {
    match stmt
    case InsertDir(_, _) => rs
    case DeleteDir(_) => rs
    case InsertFile(row) => if row.path == p then rs + [row] else rs
    case DeleteFile(q) => if p == q then [] else rs
    case ClearLocalExists(q) => if p == q then ClearLocal(rs, p) else rs
    case SetRemoteExists(n) => SetRemote(rs, n)
  }

  lemma RowsOfApply(t: Tables, stmt: Statement, p: Path)
    ensures RowsOf(Apply(t, stmt).rows, p) == RowsAfter(RowsOf(t.rows, p), stmt, p)
  {
    match stmt
    case InsertDir(_, _) =>
    case DeleteDir(_) =>
    case InsertFile(row) => RowsOfInsert(t.rows, row, p);
    case DeleteFile(q) => RowsOfDelete(t.rows, q, p);
    case ClearLocalExists(q) => RowsOfClearLocal(t.rows, q, p);
    case SetRemoteExists(n) => RowsOfSetRemote(t.rows, n, p);
  }

  /** The database handle. */
  class DB {
    var tables: Tables

    constructor ()
      ensures tables == Tables(map[], [])
    {
      tables := Tables(map[], []);
    }

    method ExecSQL(batch: seq<Statement>)
      modifies this
      ensures tables == ApplyAll(old(tables), batch)
    {
      var i := 0;
      while i < |batch|
        invariant 0 <= i <= |batch|
        invariant ApplyAll(tables, batch[i..]) == ApplyAll(old(tables), batch)
      {
        assert batch[i..][1..] == batch[i + 1..];
        tables := Apply(tables, batch[i]);
        i := i + 1;
      }
    }
  }
}
