/** The four mutexes: which operation takes them in which order, and why threads cannot block each other
    for good -- and which two operations break the rule. */
module Locks {

  datatype Mutex = WatchMtx | RemoteMtx | S3Mtx | DbMtx

  /** The order in which locks are taken; with `alt` set, the remote's before the watcher's. */
  function Rank(m: Mutex, alt: bool): nat {
    match m
    case WatchMtx => if alt then 1 else 0
    case RemoteMtx => if alt then 0 else 1
    case S3Mtx => 2
    case DbMtx => 3
  }

  datatype LockStep = Acquire(m: Mutex) | Release(m: Mutex)

  // ---------------------------------------------------------------- the operations

  /** What an operation does to the locks depends only on how often its loops run and which of its
      branches it takes. */
  datatype Operation =
    | ChangeWatch(queued: nat)                  // addWatch, delWatch, scanFileChange: queueFor* calls made
    | FlushSql(pending: bool)                   // execQueuedSQL
    | ReadIndex                                 // listWatchDirs, listWatchFiles, resolvePathHash
    | RestoreIndexFromDb(rows: nat, derive: bool) // restoreDB
    | BackUpIndex(execSql: bool, upload: bool)  // indexBackup
    | Sweep(empty: bool)                        // uploadRemotes, downloadRemotes, deleteRemotes
    | DownloadFiles(queued: nat, empty: bool)   // downloadFiles
    | CleanRemote(resolved: seq<bool>)          // cleanRemote past its early returns: one member per object
    | CleanRemoteEarly                          // cleanRemote leaving early
    | ListObjects(lookups: nat)                 // listObjects

  function Once(m: Mutex): seq<LockStep> {
    [Acquire(m), Release(m)]
  }

  function Times(m: Mutex, n: nat): seq<LockStep> {
    if n == 0 then [] else Once(m) + Times(m, n - 1)
  }

  function If(b: bool, t: seq<LockStep>): seq<LockStep> {
    if b then t else []
  }

  function SweepTrace(empty: bool): seq<LockStep> {
    [Acquire(RemoteMtx)] + If(!empty, Once(S3Mtx)) + [Release(RemoteMtx)]
  }

  function CleanTrace(resolved: seq<bool>): seq<LockStep> {
    if resolved == [] then []
    else Once(WatchMtx) + If(!resolved[0], Once(RemoteMtx)) + CleanTrace(resolved[1..])
  }

  function Trace(op: Operation): seq<LockStep> {
    match op
    case ChangeWatch(queued) => [Acquire(WatchMtx)] + Times(RemoteMtx, queued) + [Release(WatchMtx)]
    case FlushSql(pending) => [Acquire(WatchMtx)] + If(pending, Once(DbMtx)) + [Release(WatchMtx)]
    case ReadIndex => Once(WatchMtx)
    case RestoreIndexFromDb(rows, derive) =>
      Times(WatchMtx, rows) + If(derive, [Acquire(WatchMtx)] + Once(DbMtx) + [Release(WatchMtx)])
    case BackUpIndex(execSql, upload) =>
      [Acquire(WatchMtx)] + If(execSql, Once(DbMtx)) + If(upload, Once(RemoteMtx)) + [Release(WatchMtx)]
    case Sweep(empty) => SweepTrace(empty)
    case DownloadFiles(queued, empty) => Times(RemoteMtx, queued) + SweepTrace(empty)
    case CleanRemote(resolved) => Once(RemoteMtx) + CleanTrace(resolved)
    case CleanRemoteEarly => [Acquire(RemoteMtx)]
    case ListObjects(lookups) => [Acquire(RemoteMtx)] + Times(WatchMtx, lookups) + [Release(RemoteMtx)]
  }

  /** How often a lock is taken. */
  function Taken(t: seq<LockStep>, m: Mutex): nat {
    if t == [] then 0 else (if t[0] == Acquire(m) then 1 else 0) + Taken(t[1..], m)
  }

  lemma {:induction false} TakenConcat(a: seq<LockStep>, b: seq<LockStep>, m: Mutex)
    ensures Taken(a + b, m) == Taken(a, m) + Taken(b, m)
    decreases |a|
  {
    if a == [] {
      assert a + b == b;
    } else {
      assert (a + b)[1..] == a[1..] + b;
      TakenConcat(a[1..], b, m);
    }
  }

  lemma TakenOnce(k: Mutex, m: Mutex)
    ensures Taken(Once(k), m) == (if k == m then 1 else 0)
    ensures Taken([Acquire(k)], m) == (if k == m then 1 else 0) && Taken([Release(k)], m) == 0
  {
    assert Once(k)[1..] == [Release(k)] && [Release(k)][1..] == [] && [Acquire(k)][1..] == [];
  }

  lemma {:induction false} TakenTimes(k: Mutex, n: nat, m: Mutex)
    ensures Taken(Times(k, n), m) == if k == m then n else 0
  {
    if n > 0 {
      TakenOnce(k, m);
      TakenTimes(k, n - 1, m);
      TakenConcat(Once(k), Times(k, n - 1), m);
    }
  }

  lemma TakenInside(k: Mutex, part: seq<LockStep>, m: Mutex)
    ensures Taken([Acquire(k)] + part + [Release(k)], m) == (if k == m then 1 else 0) + Taken(part, m)
  {
    TakenOnce(k, m);
    TakenConcat([Acquire(k)] + part, [Release(k)], m);
    TakenConcat([Acquire(k)], part, m);
  }

  function Orphans(resolved: seq<bool>): nat {
    if resolved == [] then 0 else (if resolved[0] then 0 else 1) + Orphans(resolved[1..])
  }

  lemma {:induction false} TakenClean(resolved: seq<bool>, m: Mutex)
    ensures Taken(CleanTrace(resolved), m)
         == match m case WatchMtx => |resolved| case RemoteMtx => Orphans(resolved) case _ => 0
  {
    if resolved != [] {
      var more, rest := If(!resolved[0], Once(RemoteMtx)), CleanTrace(resolved[1..]);
      TakenOnce(WatchMtx, m);
      TakenOnce(RemoteMtx, m);
      TakenConcat(Once(WatchMtx) + more, rest, m);
      TakenConcat(Once(WatchMtx), more, m);
      TakenClean(resolved[1..], m);
    }
  }

  function Count(b: bool): nat {
    if b then 1 else 0
  }

  /** How often an operation should take the watcher's lock, the remote's, that of the service, and that of the
      database. */
  function Due(op: Operation): (nat, nat, nat, nat) {
    match op
    case ChangeWatch(queued) => (1, queued, 0, 0)
    case FlushSql(pending) => (1, 0, 0, Count(pending))
    case ReadIndex => (1, 0, 0, 0)
    case RestoreIndexFromDb(rows, derive) => (rows + Count(derive), 0, 0, Count(derive))
    case BackUpIndex(execSql, upload) => (1, Count(upload), 0, Count(execSql))
    case Sweep(empty) => (0, 1, Count(!empty), 0)
    case DownloadFiles(queued, empty) => (0, queued + 1, Count(!empty), 0)
    case CleanRemote(resolved) => (|resolved|, 1 + Orphans(resolved), 0, 0)
    case CleanRemoteEarly => (0, 1, 0, 0)
    case ListObjects(lookups) => (lookups, 1, 0, 0)
  }

  function DueOf(op: Operation, m: Mutex): nat {
    match m
    case WatchMtx => Due(op).0
    case RemoteMtx => Due(op).1
    case S3Mtx => Due(op).2
    case DbMtx => Due(op).3
  }

  lemma TakenIf(b: bool, k: Mutex, m: Mutex)
    ensures Taken(If(b, Once(k)), m) == if b && k == m then 1 else 0
  {
    TakenOnce(k, m);
  }

  lemma TakenSweep(empty: bool, m: Mutex)
    ensures Taken(SweepTrace(empty), m) == (if m == RemoteMtx then 1 else if m == S3Mtx && !empty then 1 else 0)
  {
    TakenIf(!empty, S3Mtx, m);
    TakenInside(RemoteMtx, If(!empty, Once(S3Mtx)), m);
  }

  lemma TakenRestore(rows: nat, derive: bool, m: Mutex)
    ensures Taken(Trace(RestoreIndexFromDb(rows, derive)), m) == DueOf(RestoreIndexFromDb(rows, derive), m)
  {
    TakenTimes(WatchMtx, rows, m);
    TakenOnce(DbMtx, m);
    TakenInside(WatchMtx, Once(DbMtx), m);
    TakenConcat(Times(WatchMtx, rows), If(derive, [Acquire(WatchMtx)] + Once(DbMtx) + [Release(WatchMtx)]), m);
  }

  lemma TakenBackUp(execSql: bool, upload: bool, m: Mutex)
    ensures Taken(Trace(BackUpIndex(execSql, upload)), m) == DueOf(BackUpIndex(execSql, upload), m)
  {
    var a, b := If(execSql, Once(DbMtx)), If(upload, Once(RemoteMtx));
    TakenIf(execSql, DbMtx, m);
    TakenIf(upload, RemoteMtx, m);
    TakenConcat(a, b, m);
    TakenInside(WatchMtx, a + b, m);
    assert Trace(BackUpIndex(execSql, upload)) == [Acquire(WatchMtx)] + (a + b) + [Release(WatchMtx)];
  }

  /** How often each operation takes each lock, however often its loops run and whichever branches it takes. */
  lemma LocksTaken(op: Operation, m: Mutex)
    ensures Taken(Trace(op), m) == DueOf(op, m)
  {
    match op
    case ChangeWatch(queued) =>
      TakenTimes(RemoteMtx, queued, m);
      TakenInside(WatchMtx, Times(RemoteMtx, queued), m);
    case FlushSql(pending) =>
      TakenIf(pending, DbMtx, m);
      TakenInside(WatchMtx, If(pending, Once(DbMtx)), m);
    case ReadIndex => TakenOnce(WatchMtx, m);
    case RestoreIndexFromDb(rows, derive) => TakenRestore(rows, derive, m);
    case BackUpIndex(execSql, upload) => TakenBackUp(execSql, upload, m);
    case Sweep(empty) => TakenSweep(empty, m);
    case DownloadFiles(queued, empty) =>
      TakenTimes(RemoteMtx, queued, m);
      TakenSweep(empty, m);
      TakenConcat(Times(RemoteMtx, queued), SweepTrace(empty), m);
    case CleanRemote(resolved) =>
      TakenClean(resolved, m);
      TakenOnce(RemoteMtx, m);
      TakenConcat(Once(RemoteMtx), CleanTrace(resolved), m);
    case CleanRemoteEarly => TakenOnce(RemoteMtx, m);
    case ListObjects(lookups) =>
      TakenTimes(WatchMtx, lookups, m);
      TakenInside(RemoteMtx, Times(WatchMtx, lookups), m);
  }

  /** Is the lock held behind this part of a trace? */
  function HeldAfter(held: bool, t: seq<LockStep>, m: Mutex): bool
    decreases |t|
  {
    if t == [] then held
    else HeldAfter(if t[0] == Acquire(m) then true else if t[0] == Release(m) then false else held, t[1..], m)
  }

  /** Is the lock `inner` only taken while `outer` is held? */
  predicate Under(held: bool, t: seq<LockStep>, outer: Mutex, inner: Mutex)
    decreases |t|
  {
    t == [] || ((t[0] == Acquire(inner) ==> held) && Under(HeldAfter(held, [t[0]], outer), t[1..], outer, inner))
  }

  lemma HeldAfterOne(held: bool, step: LockStep, m: Mutex)
    ensures HeldAfter(held, [step], m) == (step == Acquire(m) || (held && step != Release(m)))
  {
    assert [step][1..] == [];
  }

  lemma {:induction false} UnderConcat(held: bool, a: seq<LockStep>, b: seq<LockStep>, outer: Mutex, inner: Mutex)
    ensures HeldAfter(held, a + b, outer) == HeldAfter(HeldAfter(held, a, outer), b, outer)
    ensures Under(held, a + b, outer, inner) <==>
      Under(held, a, outer, inner) && Under(HeldAfter(held, a, outer), b, outer, inner)
    decreases |a|
  {
    if a == [] {
      assert a + b == b;
    } else {
      assert (a + b)[1..] == a[1..] + b;
      HeldAfterOne(held, a[0], outer);
      UnderConcat(HeldAfter(held, [a[0]], outer), a[1..], b, outer, inner);
    }
  }

  lemma UnderOnce(held: bool, m: Mutex, outer: Mutex, inner: Mutex)
    requires m != inner || held
    ensures Under(held, Once(m), outer, inner) && HeldAfter(held, Once(m), outer) == (held && m != outer)
  {
    HeldAfterOne(held, Acquire(m), outer);
    HeldAfterOne(HeldAfter(held, [Acquire(m)], outer), Release(m), outer);
    assert Once(m)[1..] == [Release(m)] && [Release(m)][1..] == [];
    UnderConcat(held, [Acquire(m)], [Release(m)], outer, inner);
    assert Once(m) == [Acquire(m)] + [Release(m)] && [Acquire(m)][1..] == [];
  }

  lemma {:induction false} UnderTimes(held: bool, m: Mutex, n: nat, outer: Mutex, inner: Mutex)
    requires m != inner && m != outer
    ensures Under(held, Times(m, n), outer, inner) && HeldAfter(held, Times(m, n), outer) == held
  {
    if n > 0 {
      UnderOnce(held, m, outer, inner);
      UnderTimes(held, m, n - 1, outer, inner);
      UnderConcat(held, Once(m), Times(m, n - 1), outer, inner);
    }
  }

  lemma {:induction false} UnderTimesOuter(n: nat, outer: Mutex, inner: Mutex)
    requires outer != inner
    ensures Under(false, Times(outer, n), outer, inner) && !HeldAfter(false, Times(outer, n), outer)
  {
    if n > 0 {
      UnderOnce(false, outer, outer, inner);
      UnderTimesOuter(n - 1, outer, inner);
      UnderConcat(false, Once(outer), Times(outer, n - 1), outer, inner);
    }
  }

  /** A part inside a pair of the outer lock, or of another one. */
  lemma UnderInside(m: Mutex, part: seq<LockStep>, outer: Mutex, inner: Mutex)
    requires m != inner && Under(m == outer, part, outer, inner) && HeldAfter(m == outer, part, outer) == (m == outer)
    ensures var t := [Acquire(m)] + part + [Release(m)];
      Under(false, t, outer, inner) && !HeldAfter(false, t, outer)
  {
    HeldAfterOne(false, Acquire(m), outer);
    HeldAfterOne(m == outer, Release(m), outer);
    assert [Acquire(m)][1..] == [] && [Release(m)][1..] == [];
    UnderConcat(false, [Acquire(m)], part, outer, inner);
    UnderConcat(false, [Acquire(m)] + part, [Release(m)], outer, inner);
  }

  lemma {:induction false} UnderClean(resolved: seq<bool>, outer: Mutex, inner: Mutex)
    requires inner == DbMtx || inner == S3Mtx
    ensures Under(false, CleanTrace(resolved), outer, inner) && !HeldAfter(false, CleanTrace(resolved), outer)
  {
    if resolved != [] {
      var more, rest := If(!resolved[0], Once(RemoteMtx)), CleanTrace(resolved[1..]);
      UnderOnce(false, WatchMtx, outer, inner);
      UnderOnce(false, RemoteMtx, outer, inner);
      UnderClean(resolved[1..], outer, inner);
      UnderConcat(false, Once(WatchMtx), more, outer, inner);
      UnderConcat(false, Once(WatchMtx) + more, rest, outer, inner);
    }
  }

  lemma UnderSweep(empty: bool)
    ensures Under(false, SweepTrace(empty), RemoteMtx, S3Mtx) && !HeldAfter(false, SweepTrace(empty), RemoteMtx)
    ensures Under(false, SweepTrace(empty), WatchMtx, DbMtx)
  {
    UnderOnce(true, S3Mtx, RemoteMtx, S3Mtx);
    UnderInside(RemoteMtx, If(!empty, Once(S3Mtx)), RemoteMtx, S3Mtx);
    UnderOnce(false, S3Mtx, WatchMtx, DbMtx);
    UnderInside(RemoteMtx, If(!empty, Once(S3Mtx)), WatchMtx, DbMtx);
  }

  /** A part with the database's lock, inside the watcher's. */
  lemma UnderWatch(part: seq<LockStep>)
    requires Under(true, part, WatchMtx, DbMtx) && HeldAfter(true, part, WatchMtx)
    requires Under(false, part, RemoteMtx, S3Mtx) && !HeldAfter(false, part, RemoteMtx)
    ensures var t := [Acquire(WatchMtx)] + part + [Release(WatchMtx)];
      && Under(false, t, WatchMtx, DbMtx) && !HeldAfter(false, t, WatchMtx)
      && Under(false, t, RemoteMtx, S3Mtx) && !HeldAfter(false, t, RemoteMtx)
  {
    UnderInside(WatchMtx, part, WatchMtx, DbMtx);
    UnderInside(WatchMtx, part, RemoteMtx, S3Mtx);
  }

  lemma UnderBackUp(execSql: bool, upload: bool)
    ensures Under(false, Trace(BackUpIndex(execSql, upload)), WatchMtx, DbMtx)
    ensures Under(false, Trace(BackUpIndex(execSql, upload)), RemoteMtx, S3Mtx)
  {
    var a, b := If(execSql, Once(DbMtx)), If(upload, Once(RemoteMtx));
    UnderOnce(true, DbMtx, WatchMtx, DbMtx);
    UnderOnce(true, RemoteMtx, WatchMtx, DbMtx);
    UnderOnce(false, DbMtx, RemoteMtx, S3Mtx);
    UnderOnce(false, RemoteMtx, RemoteMtx, S3Mtx);
    UnderConcat(true, a, b, WatchMtx, DbMtx);
    UnderConcat(false, a, b, RemoteMtx, S3Mtx);
    UnderWatch(a + b);
    assert Trace(BackUpIndex(execSql, upload)) == [Acquire(WatchMtx)] + (a + b) + [Release(WatchMtx)];
  }

  lemma UnderRestore(rows: nat, derive: bool)
    ensures Under(false, Trace(RestoreIndexFromDb(rows, derive)), WatchMtx, DbMtx)
    ensures Under(false, Trace(RestoreIndexFromDb(rows, derive)), RemoteMtx, S3Mtx)
  {
    var t := [Acquire(WatchMtx)] + Once(DbMtx) + [Release(WatchMtx)];
    UnderTimesOuter(rows, WatchMtx, DbMtx);
    UnderTimes(false, WatchMtx, rows, RemoteMtx, S3Mtx);
    UnderOnce(true, DbMtx, WatchMtx, DbMtx);
    UnderOnce(false, DbMtx, RemoteMtx, S3Mtx);
    UnderWatch(Once(DbMtx));
    UnderConcat(false, Times(WatchMtx, rows), If(derive, t), WatchMtx, DbMtx);
    UnderConcat(false, Times(WatchMtx, rows), If(derive, t), RemoteMtx, S3Mtx);
  }

  /** The database's lock is only taken under the watcher's, and that of the service only under the remote's. */
  lemma LocksNest(op: Operation)
    ensures Under(false, Trace(op), WatchMtx, DbMtx) && Under(false, Trace(op), RemoteMtx, S3Mtx)
  {
    match op
    case ChangeWatch(queued) =>
      UnderTimes(true, RemoteMtx, queued, WatchMtx, DbMtx);
      UnderTimesOuter(queued, RemoteMtx, S3Mtx);
      UnderWatch(Times(RemoteMtx, queued));
    case FlushSql(pending) =>
      UnderOnce(true, DbMtx, WatchMtx, DbMtx);
      UnderOnce(false, DbMtx, RemoteMtx, S3Mtx);
      UnderWatch(If(pending, Once(DbMtx)));
    case ReadIndex =>
      UnderOnce(false, WatchMtx, WatchMtx, DbMtx);
      UnderOnce(false, WatchMtx, RemoteMtx, S3Mtx);
    case RestoreIndexFromDb(rows, derive) => UnderRestore(rows, derive);
    case BackUpIndex(execSql, upload) => UnderBackUp(execSql, upload);
    case Sweep(empty) => UnderSweep(empty);
    case DownloadFiles(queued, empty) =>
      UnderSweep(empty);
      UnderTimes(false, RemoteMtx, queued, WatchMtx, DbMtx);
      UnderTimesOuter(queued, RemoteMtx, S3Mtx);
      UnderConcat(false, Times(RemoteMtx, queued), SweepTrace(empty), WatchMtx, DbMtx);
      UnderConcat(false, Times(RemoteMtx, queued), SweepTrace(empty), RemoteMtx, S3Mtx);
    case CleanRemote(resolved) =>
      UnderOnce(false, RemoteMtx, WatchMtx, DbMtx);
      UnderOnce(false, RemoteMtx, RemoteMtx, S3Mtx);
      UnderClean(resolved, WatchMtx, DbMtx);
      UnderClean(resolved, RemoteMtx, S3Mtx);
      UnderConcat(false, Once(RemoteMtx), CleanTrace(resolved), WatchMtx, DbMtx);
      UnderConcat(false, Once(RemoteMtx), CleanTrace(resolved), RemoteMtx, S3Mtx);
    case CleanRemoteEarly =>
    case ListObjects(lookups) =>
      UnderTimesOuter(lookups, WatchMtx, DbMtx);
      UnderTimes(true, WatchMtx, lookups, RemoteMtx, S3Mtx);
      UnderInside(RemoteMtx, Times(WatchMtx, lookups), WatchMtx, DbMtx);
      UnderInside(RemoteMtx, Times(WatchMtx, lookups), RemoteMtx, S3Mtx);
  }

  // ---------------------------------------------------------------- the discipline

  /** Every acquisition is of a higher rank than all locks held, every release is of a held lock, and
      nothing is held at the end. */
  predicate Ordered(held: set<Mutex>, todo: seq<LockStep>, alt: bool)
    decreases |todo|
  {
    if todo == [] then held == {}
    else
      match todo[0]
      case Acquire(m) => (forall k | k in held :: Rank(k, alt) < Rank(m, alt)) && Ordered(held + {m}, todo[1..], alt)
      case Release(m) => m in held && Ordered(held - {m}, todo[1..], alt)
  }

  /** A part of a trace that gives back what it takes, run with `held` locks. */
  predicate Balanced(held: set<Mutex>, part: seq<LockStep>, after: set<Mutex>, alt: bool)
    decreases |part|
  {
    if part == [] then held == after
    else
      match part[0]
      case Acquire(m) =>
        (forall k | k in held :: Rank(k, alt) < Rank(m, alt)) && Balanced(held + {m}, part[1..], after, alt)
      case Release(m) => m in held && Balanced(held - {m}, part[1..], after, alt)
  }

  lemma {:induction false} BalancedThen(
      held: set<Mutex>, a: seq<LockStep>, middle: set<Mutex>, b: seq<LockStep>, after: set<Mutex>, alt: bool)
    requires Balanced(held, a, middle, alt) && Balanced(middle, b, after, alt)
    ensures Balanced(held, a + b, after, alt)
    decreases |a|
  {
    if a == [] {
      assert a + b == b;
    } else {
      assert (a + b)[1..] == a[1..] + b;
      match a[0]
      case Acquire(m) => BalancedThen(held + {m}, a[1..], middle, b, after, alt);
      case Release(m) => BalancedThen(held - {m}, a[1..], middle, b, after, alt);
    }
  }

  lemma {:induction false} BalancedOrdered(held: set<Mutex>, a: seq<LockStep>, alt: bool)
    ensures Balanced(held, a, {}, alt) <==> Ordered(held, a, alt)
    decreases |a|
  {
    if a != [] {
      match a[0]
      case Acquire(m) => BalancedOrdered(held + {m}, a[1..], alt);
      case Release(m) => BalancedOrdered(held - {m}, a[1..], alt);
    }
  }

  lemma BalancedOnce(held: set<Mutex>, m: Mutex, alt: bool)
    requires forall k :: k in held ==> Rank(k, alt) < Rank(m, alt)
    ensures Balanced(held, Once(m), held, alt)
  {}

  lemma {:induction false} BalancedTimes(held: set<Mutex>, m: Mutex, n: nat, alt: bool)
    requires forall k :: k in held ==> Rank(k, alt) < Rank(m, alt)
    ensures Balanced(held, Times(m, n), held, alt)
  {
    if n > 0 {
      BalancedOnce(held, m, alt);
      BalancedTimes(held, m, n - 1, alt);
      BalancedThen(held, Once(m), held, Times(m, n - 1), held, alt);
    }
  }

  lemma BalancedIf(held: set<Mutex>, b: bool, m: Mutex, alt: bool)
    requires forall k :: k in held ==> Rank(k, alt) < Rank(m, alt)
    ensures Balanced(held, If(b, Once(m)), held, alt)
  {}

  /** What runs between taking a lock and giving it back. */
  lemma BalancedInside(m: Mutex, part: seq<LockStep>, alt: bool)
    requires Balanced({m}, part, {m}, alt)
    ensures Balanced({}, [Acquire(m)] + part + [Release(m)], {}, alt)
  {
    assert [Acquire(m)][1..] == [] && [Release(m)][1..] == [];
    assert Balanced({m}, [], {m}, alt) && {} + {m} == {m};
    assert Balanced({}, [Acquire(m)], {m}, alt);
    assert {m} - {m} == {} && Balanced({}, [], {}, alt);
    assert Balanced({m}, [Release(m)], {}, alt);
    BalancedThen({}, [Acquire(m)], {m}, part, {m}, alt);
    BalancedThen({}, [Acquire(m)] + part, {m}, [Release(m)], {}, alt);
  }

  lemma {:induction false} BalancedClean(resolved: seq<bool>, alt: bool)
    ensures Balanced({}, CleanTrace(resolved), {}, alt)
  {
    if resolved != [] {
      BalancedOnce({}, WatchMtx, alt);
      BalancedIf({}, !resolved[0], RemoteMtx, alt);
      BalancedClean(resolved[1..], alt);
      BalancedThen({}, Once(WatchMtx), {}, If(!resolved[0], Once(RemoteMtx)), {}, alt);
      BalancedThen({}, Once(WatchMtx) + If(!resolved[0], Once(RemoteMtx)), {}, CleanTrace(resolved[1..]), {}, alt);
    }
  }

  lemma BalancedSweep(empty: bool, alt: bool)
    ensures Balanced({}, SweepTrace(empty), {}, alt)
  {
    BalancedIf({RemoteMtx}, !empty, S3Mtx, alt);
    BalancedInside(RemoteMtx, If(!empty, Once(S3Mtx)), alt);
  }

  lemma BalancedRestore(rows: nat, derive: bool, alt: bool)
    ensures Balanced({}, Trace(RestoreIndexFromDb(rows, derive)), {}, alt)
  {
    var last := [Acquire(WatchMtx)] + Once(DbMtx) + [Release(WatchMtx)];
    BalancedTimes({}, WatchMtx, rows, alt);
    BalancedOnce({WatchMtx}, DbMtx, alt);
    BalancedInside(WatchMtx, Once(DbMtx), alt);
    BalancedThen({}, Times(WatchMtx, rows), {}, If(derive, last), {}, alt);
  }

  lemma BalancedBackUp(execSql: bool, upload: bool, alt: bool)
    requires !(alt && upload)
    ensures Balanced({}, Trace(BackUpIndex(execSql, upload)), {}, alt)
  {
    var a, b := If(execSql, Once(DbMtx)), If(upload, Once(RemoteMtx));
    BalancedIf({WatchMtx}, execSql, DbMtx, alt);
    if upload {
      BalancedIf({WatchMtx}, upload, RemoteMtx, alt);
    }
    BalancedThen({WatchMtx}, a, {WatchMtx}, b, {WatchMtx}, alt);
    BalancedInside(WatchMtx, a + b, alt);
    assert [Acquire(WatchMtx)] + (a + b) + [Release(WatchMtx)] == Trace(BackUpIndex(execSql, upload));
  }

  predicate TakesWatchUnderRemote(op: Operation) {
    op.ListObjects? && op.lookups > 0
  }

  predicate TakesRemoteUnderWatch(op: Operation) {
    (op.ChangeWatch? && op.queued > 0) || (op.BackUpIndex? && op.upload)
  }

  /** No clean-up that leaves early, and nothing against the order of the locks. */
  predicate Orderly(op: Operation, alt: bool) {
    !op.CleanRemoteEarly? && !(if alt then TakesRemoteUnderWatch(op) else TakesWatchUnderRemote(op))
  }

  lemma BalancedWatchFirst(op: Operation, alt: bool)
    requires (op.ChangeWatch? || op.FlushSql? || op.BackUpIndex? || op.ReadIndex?) && Orderly(op, alt)
    ensures Balanced({}, Trace(op), {}, alt)
  {
    match op
    case ChangeWatch(queued) =>
      if queued > 0 {
        BalancedTimes({WatchMtx}, RemoteMtx, queued, alt);
      }
      BalancedInside(WatchMtx, Times(RemoteMtx, queued), alt);
    case FlushSql(pending) =>
      BalancedIf({WatchMtx}, pending, DbMtx, alt);
      BalancedInside(WatchMtx, If(pending, Once(DbMtx)), alt);
    case BackUpIndex(execSql, upload) => BalancedBackUp(execSql, upload, alt);
    case ReadIndex => BalancedOnce({}, WatchMtx, alt);
  }

  lemma BalancedRemoteFirst(op: Operation, alt: bool)
    requires (op.Sweep? || op.DownloadFiles? || op.CleanRemote? || op.ListObjects?) && Orderly(op, alt)
    ensures Balanced({}, Trace(op), {}, alt)
  {
    match op
    case Sweep(empty) => BalancedSweep(empty, alt);
    case DownloadFiles(queued, empty) =>
      BalancedTimes({}, RemoteMtx, queued, alt);
      BalancedSweep(empty, alt);
      BalancedThen({}, Times(RemoteMtx, queued), {}, SweepTrace(empty), {}, alt);
    case CleanRemote(resolved) =>
      BalancedOnce({}, RemoteMtx, alt);
      BalancedClean(resolved, alt);
      BalancedThen({}, Once(RemoteMtx), {}, CleanTrace(resolved), {}, alt);
    case ListObjects(lookups) =>
      if lookups > 0 {
        BalancedTimes({RemoteMtx}, WatchMtx, lookups, alt);
      }
      BalancedInside(RemoteMtx, Times(WatchMtx, lookups), alt);
  }

  lemma OrderlyIsBalanced(op: Operation, alt: bool)
    requires Orderly(op, alt)
    ensures Balanced({}, Trace(op), {}, alt)
  {
    if op.ChangeWatch? || op.FlushSql? || op.BackUpIndex? || op.ReadIndex? {
      BalancedWatchFirst(op, alt);
    } else if op.RestoreIndexFromDb? {
      BalancedRestore(op.rows, op.derive, alt);
    } else {
      BalancedRemoteFirst(op, alt);
    }
  }

  /** The operation gets to a second lock that is below one it holds. */
  lemma DisorderlyTrace(op: Operation)
    requires TakesWatchUnderRemote(op) || TakesRemoteUnderWatch(op)
    ensures var t := Trace(op);
      if TakesWatchUnderRemote(op) then t[..2] == [Acquire(RemoteMtx), Acquire(WatchMtx)]
      else if op.BackUpIndex? && op.execSql then
        t[..4] == [Acquire(WatchMtx), Acquire(DbMtx), Release(DbMtx), Acquire(RemoteMtx)]
      else t[..2] == [Acquire(WatchMtx), Acquire(RemoteMtx)]
  {}

  lemma Unbalanced(a: Mutex, b: Mutex, part: seq<LockStep>, alt: bool)
    requires |part| >= 2 && part[..2] == [Acquire(a), Acquire(b)] && Rank(a, alt) >= Rank(b, alt)
    ensures !Balanced({}, part, {}, alt)
  {
    assert part[0] == part[..2][0] && part[1] == part[..2][1] && part[1..][0] == part[1];
    assert a in {} + {a};
  }

  /** The locks held while the index is backed up, up to the point where the remote's is asked for. */
  lemma UnbalancedBackUp(part: seq<LockStep>)
    requires |part| >= 4 && part[..4] == [Acquire(WatchMtx), Acquire(DbMtx), Release(DbMtx), Acquire(RemoteMtx)]
    ensures !Balanced({}, part, {}, true)
  {
    assert forall k :: 0 <= k < 4 ==> part[k] == part[..4][k];
    var p1, p2, p3 := part[1..], part[2..], part[3..];
    assert p1[1..] == p2 && p2[1..] == p3 && p1[0] == Acquire(DbMtx) && p2[0] == Release(DbMtx);
    assert p3[0] == Acquire(RemoteMtx);
    var h1 := {} + {WatchMtx};
    var h2 := h1 + {DbMtx};
    var h3 := h2 - {DbMtx};
    assert WatchMtx in h3;
    assert !Balanced(h3, p3, {}, true);
    assert !Balanced(h2, p2, {}, true);
    assert !Balanced(h1, p1, {}, true);
  }

  /** An operation takes its locks in rank order and gives them back, however often its loops run, exactly
      when it is no clean-up that leaves early and takes neither lock under the other: in the usual order not
      the watcher's under the remote's, in the other order not the remote's under the watcher's. */
  lemma OperationsAreOrdered(op: Operation, alt: bool)
    ensures Balanced({}, Trace(op), {}, alt) <==> Orderly(op, alt)
  {
    if Orderly(op, alt) {
      OrderlyIsBalanced(op, alt);
    } else if op.CleanRemoteEarly? {
      assert Trace(op)[1..] == [];
    } else {
      DisorderlyTrace(op);
      if !alt {
        Unbalanced(RemoteMtx, WatchMtx, Trace(op), alt);
      } else if op.BackUpIndex? && op.execSql {
        UnbalancedBackUp(Trace(op));
      } else {
        Unbalanced(WatchMtx, RemoteMtx, Trace(op), alt);
      }
    }
  }

  /** A thread runs one operation after another. */
  function Program(ops: seq<Operation>): seq<LockStep> {
    if ops == [] then [] else Trace(ops[0]) + Program(ops[1..])
  }

  predicate WellBehaved(ops: seq<Operation>, alt: bool) {
    forall i :: 0 <= i < |ops| ==> Orderly(ops[i], alt)
  }

  lemma {:induction false} ProgramIsOrdered(ops: seq<Operation>, alt: bool)
    requires WellBehaved(ops, alt)
    ensures Balanced({}, Program(ops), {}, alt)
  {
    if ops != [] {
      OperationsAreOrdered(ops[0], alt);
      ProgramIsOrdered(ops[1..], alt);
      BalancedThen({}, Trace(ops[0]), {}, Program(ops[1..]), {}, alt);
    }
  }

  // ---------------------------------------------------------------- threads

  datatype Thread = Thread(held: set<Mutex>, todo: seq<LockStep>)

  type Threads = seq<Thread>

  function Start(programs: seq<seq<Operation>>): (ts: Threads)
    ensures |ts| == |programs|
  {
    seq(|programs|, i requires 0 <= i < |programs| => Thread({}, Program(programs[i])))
  }

  predicate Free(ts: Threads, m: Mutex) {
    forall i :: 0 <= i < |ts| ==> m !in ts[i].held
  }

  predicate Enabled(ts: Threads, i: nat) {
    i < |ts| && ts[i].todo != [] && (ts[i].todo[0].Acquire? ==> Free(ts, ts[i].todo[0].m))
  }

  function Advance(t: Thread): Thread
    requires t.todo != []
  {
    match t.todo[0]
    case Acquire(m) => Thread(t.held + {m}, t.todo[1..])
    case Release(m) => Thread(t.held - {m}, t.todo[1..])
  }

  /** The scheduler picks a thread; one that cannot move waits. */
  function Schedule(ts: Threads, i: nat): (r: Threads)
    ensures |r| == |ts|
  {
    if Enabled(ts, i) then ts[i := Advance(ts[i])] else ts
  }

  function RunThreads(ts: Threads, schedule: seq<nat>): (r: Threads)
    ensures |r| == |ts|
    decreases |schedule|
  {
    if schedule == [] then ts else RunThreads(Schedule(ts, schedule[0]), schedule[1..])
  }

  ghost predicate Disciplined(ts: Threads, alt: bool) {
    && (forall i :: 0 <= i < |ts| ==> Ordered(ts[i].held, ts[i].todo, alt))
    && (forall i, j :: 0 <= i < j < |ts| ==> ts[i].held !! ts[j].held)
  }

  lemma DisciplinedSchedule(ts: Threads, i: nat, alt: bool)
    requires Disciplined(ts, alt)
    ensures Disciplined(Schedule(ts, i), alt)
  {}

  lemma {:induction false} DisciplinedRun(ts: Threads, schedule: seq<nat>, alt: bool)
    requires Disciplined(ts, alt)
    ensures Disciplined(RunThreads(ts, schedule), alt)
    decreases |schedule|
  {
    if schedule != [] {
      DisciplinedSchedule(ts, schedule[0], alt);
      DisciplinedRun(Schedule(ts, schedule[0]), schedule[1..], alt);
    }
  }

  /** Whoever is blocked leads to somebody who is blocked on a lock of higher rank, so not for ever. */
  lemma {:induction false} SomebodyMoves(ts: Threads, i: nat, alt: bool) returns (k: nat)
    requires Disciplined(ts, alt) && i < |ts| && ts[i].todo != []
    ensures Enabled(ts, k)
    decreases if ts[i].todo[0].Acquire? then 4 - Rank(ts[i].todo[0].m, alt) else 0
  {
    if Enabled(ts, i) {
      return i;
    }
    var m := ts[i].todo[0].m;
    var j :| 0 <= j < |ts| && m in ts[j].held;
    assert Ordered(ts[j].held, ts[j].todo, alt);
    k := SomebodyMoves(ts, j, alt);
  }

  /** No thread asks for a lock it already holds, and as long as some thread is not done, some thread can
      move. */
  ghost predicate Lively(ts: Threads) {
    && (forall i :: 0 <= i < |ts| && ts[i].todo != [] && ts[i].todo[0].Acquire? ==> ts[i].todo[0].m !in ts[i].held)
    && ((exists i :: 0 <= i < |ts| && ts[i].todo != []) ==> exists k :: Enabled(ts, k))
  }

  /** Any number of threads running any well-behaved operations stay lively under any schedule. */
  lemma NoDeadlock(programs: seq<seq<Operation>>, schedule: seq<nat>, alt: bool)
    requires forall i :: 0 <= i < |programs| ==> WellBehaved(programs[i], alt)
    ensures Lively(RunThreads(Start(programs), schedule))
  {
    var start := Start(programs);
    forall i | 0 <= i < |start| ensures Ordered(start[i].held, start[i].todo, alt) {
      ProgramIsOrdered(programs[i], alt);
      BalancedOrdered({}, Program(programs[i]), alt);
    }
    DisciplinedRun(start, schedule, alt);
    var ts := RunThreads(start, schedule);
    forall i | 0 <= i < |ts| && ts[i].todo != [] && ts[i].todo[0].Acquire?
      ensures ts[i].todo[0].m !in ts[i].held
    {
      assert Ordered(ts[i].held, ts[i].todo, alt);
    }
    if i :| 0 <= i < |ts| && ts[i].todo != [] {
      var k := SomebodyMoves(ts, i, alt);
    }
  }

  // ---------------------------------------------------------------- which operations may run together

  ghost predicate Deadlocked(ts: Threads) {
    && (exists i :: 0 <= i < |ts| && ts[i].todo != [])
    && (forall k :: !Enabled(ts, k))
  }

  lemma ProgramOne(op: Operation)
    ensures Program([op]) == Trace(op)
  {
    assert [op][1..] == [] && Trace(op) + [] == Trace(op);
  }

  lemma {:induction false} RunThen(ts: Threads, a: nat, rest: seq<nat>)
    ensures RunThreads(ts, [a] + rest) == RunThreads(Schedule(ts, a), rest)
  {
    assert ([a] + rest)[1..] == rest;
  }

  /** One thread stands where it holds one of the two locks and asks for the other, the other thread does it
      the other way round. */
  lemma Crossed(ts: Threads)
    requires |ts| == 2 && ts[0].todo != [] && ts[1].todo != []
    requires RemoteMtx in ts[0].held && ts[0].todo[0] == Acquire(WatchMtx)
    requires WatchMtx in ts[1].held && ts[1].todo[0] == Acquire(RemoteMtx)
    ensures Deadlocked(ts)
  {}

  /** The thread takes its next step, whatever it is, while nobody holds the lock it may ask for. */
  lemma Moves(ts: Threads, i: nat)
    requires i < |ts| && ts[i].todo != [] && (ts[i].todo[0].Acquire? ==> Free(ts, ts[i].todo[0].m))
    ensures Schedule(ts, i) == ts[i := Advance(ts[i])]
  {}

  lemma ListingStarts(list: seq<LockStep>, other: seq<LockStep>)
    requires |list| >= 2 && list[..2] == [Acquire(RemoteMtx), Acquire(WatchMtx)]
    ensures Schedule([Thread({}, list), Thread({}, other)], 0) == [Thread({RemoteMtx}, list[1..]), Thread({}, other)]
    ensures list[1..] != [] && list[1..][0] == Acquire(WatchMtx)
  {
    assert list[0] == list[..2][0] && list[1] == list[..2][1];
    assert {} + {RemoteMtx} == {RemoteMtx};
    Moves([Thread({}, list), Thread({}, other)], 0);
  }

  /** A listing that looks anything up and an operation that takes the remote's lock under the watcher's can
      block each other for good, as soon as each gets to its second lock. */
  lemma ListObjectsDeadlocks(list: Operation, op: Operation) returns (schedule: seq<nat>)
    requires TakesWatchUnderRemote(list) && TakesRemoteUnderWatch(op)
    ensures Deadlocked(RunThreads(Start([[list], [op]]), schedule))
  {
    var a, b := Trace(list), Trace(op);
    ProgramOne(list);
    ProgramOne(op);
    DisorderlyTrace(list);
    DisorderlyTrace(op);
    assert Start([[list], [op]]) == [Thread({}, a), Thread({}, b)];
    ListingStarts(a, b);
    var s1 := [Thread({RemoteMtx}, a[1..]), Thread({}, b)];
    if op.BackUpIndex? && op.execSql {
      schedule := [0] + ([1] + ([1] + ([1] + [])));
      BackUpCrosses(a[1..], b);
      RunThen(Start([[list], [op]]), 0, [1] + ([1] + ([1] + [])));
    } else {
      schedule := [0] + ([1] + []);
      ChangeCrosses(a[1..], b);
      RunThen(Start([[list], [op]]), 0, [1] + []);
    }
  }

  lemma ChangeCrosses(list: seq<LockStep>, b: seq<LockStep>)
    requires list != [] && list[0] == Acquire(WatchMtx)
    requires |b| >= 2 && b[..2] == [Acquire(WatchMtx), Acquire(RemoteMtx)]
    ensures Deadlocked(RunThreads([Thread({RemoteMtx}, list), Thread({}, b)], [1] + []))
  {
    var s := [Thread({RemoteMtx}, list), Thread({}, b)];
    assert b[0] == b[..2][0] && b[1] == b[..2][1];
    assert {} + {WatchMtx} == {WatchMtx};
    Moves(s, 1);
    RunThen(s, 1, []);
    var r := [Thread({RemoteMtx}, list), Thread({WatchMtx}, b[1..])];
    assert Schedule(s, 1) == r;
    Crossed(r);
  }

  lemma BackUpCrosses(list: seq<LockStep>, b: seq<LockStep>)
    requires list != [] && list[0] == Acquire(WatchMtx)
    requires |b| >= 4 && b[..4] == [Acquire(WatchMtx), Acquire(DbMtx), Release(DbMtx), Acquire(RemoteMtx)]
    ensures Deadlocked(RunThreads([Thread({RemoteMtx}, list), Thread({}, b)], [1] + ([1] + ([1] + []))))
  {
    assert forall k :: 0 <= k < 4 ==> b[k] == b[..4][k];
    var t := Thread({RemoteMtx}, list);
    var s0, s1 := [t, Thread({}, b)], [t, Thread({WatchMtx}, b[1..])];
    var s2, s3 := [t, Thread({WatchMtx, DbMtx}, b[2..])], [t, Thread({WatchMtx}, b[3..])];
    assert {} + {WatchMtx} == {WatchMtx} && {WatchMtx} + {DbMtx} == {WatchMtx, DbMtx};
    assert {WatchMtx, DbMtx} - {DbMtx} == {WatchMtx};
    assert b[1..][1..] == b[2..] && b[2..][1..] == b[3..];
    Moves(s0, 1);
    Moves(s1, 1);
    Moves(s2, 1);
    assert Schedule(s0, 1) == s1 && Schedule(s1, 1) == s2 && Schedule(s2, 1) == s3;
    RunThen(s0, 1, [1] + ([1] + []));
    RunThen(s1, 1, [1] + []);
    RunThen(s2, 1, []);
    Crossed(s3);
  }

  /** Two clean-ups that leave early: the second asks for the lock the first still holds. */
  lemma CleanUpDeadlocks()
    ensures Deadlocked(RunThreads(Start([[CleanRemoteEarly, CleanRemoteEarly]]), [0]))
  {
    CleanUpLeaksLock(CleanRemoteEarly);
  }

  /** The operations that are allowed. */
  type Allowed = Operation -> bool

  ghost predicate AllAllowed(allowed: Allowed, programs: seq<seq<Operation>>) {
    forall i, j :: 0 <= i < |programs| && 0 <= j < |programs[i]| ==> allowed(programs[i][j])
  }

  ghost predicate DeadlockFree(allowed: Allowed) {
    forall programs, schedule :: AllAllowed(allowed, programs) ==> Lively(RunThreads(Start(programs), schedule))
  }

  ghost predicate SomeAllowed(allowed: Allowed, kind: Allowed) {
    exists op :: allowed(op) && kind(op)
  }

  /** Any number of threads running any allowed operations under any schedule can always go on, exactly when
      no clean-up that leaves early is allowed, and not both a listing that looks anything up and an operation
      that takes the remote's lock under the watcher's. */
  lemma DeadlockFreeExactlyWhen(allowed: Allowed)
    ensures DeadlockFree(allowed) <==>
      !allowed(CleanRemoteEarly)
      && !(SomeAllowed(allowed, TakesWatchUnderRemote) && SomeAllowed(allowed, TakesRemoteUnderWatch))
  {
    if allowed(CleanRemoteEarly) {
      CleanUpDeadlocks();
      assert AllAllowed(allowed, [[CleanRemoteEarly, CleanRemoteEarly]]);
    } else if SomeAllowed(allowed, TakesWatchUnderRemote) && SomeAllowed(allowed, TakesRemoteUnderWatch) {
      var list :| allowed(list) && TakesWatchUnderRemote(list);
      var op :| allowed(op) && TakesRemoteUnderWatch(op);
      var schedule := ListObjectsDeadlocks(list, op);
      assert AllAllowed(allowed, [[list], [op]]);
      assert !Lively(RunThreads(Start([[list], [op]]), schedule));
    } else {
      var alt := SomeAllowed(allowed, TakesWatchUnderRemote);
      forall programs, schedule | AllAllowed(allowed, programs)
        ensures Lively(RunThreads(Start(programs), schedule))
      {
        forall i | 0 <= i < |programs| ensures WellBehaved(programs[i], alt) {
          AllowedIsWellBehaved(allowed, programs[i], alt);
        }
        NoDeadlock(programs, schedule, alt);
      }
    }
  }

  lemma AllowedIsWellBehaved(allowed: Allowed, ops: seq<Operation>, alt: bool)
    requires forall j :: 0 <= j < |ops| ==> allowed(ops[j])
    requires !allowed(CleanRemoteEarly)
    requires alt ==> !SomeAllowed(allowed, TakesRemoteUnderWatch)
    requires !alt ==> !SomeAllowed(allowed, TakesWatchUnderRemote)
    ensures WellBehaved(ops, alt)
  {}

  /** The remote's lock is not released before it is asked for again. */
  predicate Keeps(todo: seq<LockStep>)
    decreases |todo|
  {
    todo == [] || todo[0] == Acquire(RemoteMtx) || (todo[0] != Release(RemoteMtx) && Keeps(todo[1..]))
  }

  lemma {:induction false} KeepsConcat(a: seq<LockStep>, b: seq<LockStep>)
    requires Keeps(a) && Keeps(b)
    ensures Keeps(a + b)
    decreases |a|
  {
    if a == [] {
      assert a + b == b;
    } else if a[0] != Acquire(RemoteMtx) {
      assert (a + b)[1..] == a[1..] + b;
      KeepsConcat(a[1..], b);
    }
  }

  lemma KeepsOne(step: LockStep)
    requires step != Release(RemoteMtx)
    ensures Keeps([step])
  {
    assert [step][1..] == [];
  }

  lemma KeepsOnce(m: Mutex)
    ensures Keeps(Once(m))
  {
    if m != RemoteMtx {
      KeepsOne(Acquire(m));
      KeepsOne(Release(m));
      KeepsConcat([Acquire(m)], [Release(m)]);
      assert [Acquire(m)] + [Release(m)] == Once(m);
    }
  }

  lemma {:induction false} KeepsTimes(m: Mutex, n: nat)
    ensures Keeps(Times(m, n))
  {
    if n > 0 {
      KeepsOnce(m);
      KeepsTimes(m, n - 1);
      KeepsConcat(Once(m), Times(m, n - 1));
    }
  }

  lemma KeepsInside(m: Mutex, part: seq<LockStep>)
    requires Keeps(part)
    ensures Keeps([Acquire(m)] + part + [Release(m)])
  {
    if m != RemoteMtx {
      KeepsOne(Acquire(m));
      KeepsOne(Release(m));
      KeepsConcat([Acquire(m)], part);
      KeepsConcat([Acquire(m)] + part, [Release(m)]);
    }
  }

  lemma KeepsTrace(op: Operation)
    ensures Keeps(Trace(op))
  {
    KeepsOnce(DbMtx);
    KeepsOnce(RemoteMtx);
    match op
    case ChangeWatch(queued) =>
      KeepsTimes(RemoteMtx, queued);
      KeepsInside(WatchMtx, Times(RemoteMtx, queued));
    case FlushSql(pending) => KeepsInside(WatchMtx, If(pending, Once(DbMtx)));
    case ReadIndex => KeepsOnce(WatchMtx);
    case RestoreIndexFromDb(rows, derive) =>
      KeepsTimes(WatchMtx, rows);
      KeepsInside(WatchMtx, Once(DbMtx));
      KeepsConcat(Times(WatchMtx, rows), If(derive, [Acquire(WatchMtx)] + Once(DbMtx) + [Release(WatchMtx)]));
    case BackUpIndex(execSql, upload) =>
      var a, b := If(execSql, Once(DbMtx)), If(upload, Once(RemoteMtx));
      KeepsConcat(a, b);
      KeepsInside(WatchMtx, a + b);
      assert [Acquire(WatchMtx)] + (a + b) + [Release(WatchMtx)] == Trace(op);
    case Sweep(empty) =>
    case DownloadFiles(queued, empty) =>
      KeepsTimes(RemoteMtx, queued);
      KeepsConcat(Times(RemoteMtx, queued), SweepTrace(empty));
    case CleanRemote(resolved) =>
    case CleanRemoteEarly =>
    case ListObjects(lookups) =>
  }

  lemma {:induction false} KeepsProgram(ops: seq<Operation>)
    ensures Keeps(Program(ops))
  {
    if ops != [] {
      KeepsTrace(ops[0]);
      KeepsProgram(ops[1..]);
      KeepsConcat(Trace(ops[0]), Program(ops[1..]));
    }
  }

  lemma {:induction false} HeldForEver(ts: Threads, i: nat, schedule: seq<nat>)
    requires i < |ts| && RemoteMtx in ts[i].held && Keeps(ts[i].todo)
    ensures var r := RunThreads(ts, schedule); RemoteMtx in r[i].held && Keeps(r[i].todo)
    decreases |schedule|
  {
    if schedule != [] {
      assert !Free(ts, RemoteMtx);
      HeldForEver(Schedule(ts, schedule[0]), i, schedule[1..]);
    }
  }

  /** After a clean-up that returned early the remote's lock is never free again, whatever operations its
      thread goes on with, whatever the other threads do and however they are scheduled. */
  lemma LeakedLockIsNeverFree(ts: Threads, i: nat, ops: seq<Operation>, schedule: seq<nat>)
    requires i < |ts| && ts[i].todo == Trace(CleanRemoteEarly) + Program(ops) && Enabled(ts, i)
    ensures !Free(RunThreads(Schedule(ts, i), schedule), RemoteMtx)
  {
    KeepsProgram(ops);
    assert ts[i].todo[1..] == Program(ops);
    HeldForEver(Schedule(ts, i), i, schedule);
  }

  /** So the thread itself blocks on the next operation that starts with the lock. */
  lemma CleanUpLeaksLock(next: Operation)
    requires next.Sweep? || next.CleanRemote? || next.CleanRemoteEarly? || next.ListObjects?
    ensures Deadlocked(RunThreads(Start([[CleanRemoteEarly, next]]), [0]))
  {
    var ops := [CleanRemoteEarly, next];
    ProgramOne(next);
    assert ops[1..] == [next];
    var rest := Trace(next);
    assert rest[0] == Acquire(RemoteMtx);
    var todo := [Acquire(RemoteMtx)] + rest;
    assert Program(ops) == todo;
    var s0, s1 := [Thread({}, todo)], [Thread({RemoteMtx}, rest)];
    assert Start([ops]) == s0;
    assert {} + {RemoteMtx} == {RemoteMtx} && todo[1..] == rest;
    Moves(s0, 0);
    RunThen(s0, 0, []);
    assert [0] + [] == [0] && Schedule(s0, 0) == s1;
    assert s1[0].todo[0] == Acquire(RemoteMtx) && !Free(s1, RemoteMtx);
  }
}
