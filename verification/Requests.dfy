/** The requests the client sends and the arguments of internal calls: built and split as strings, with
    positions that wrap around like size_t. */
module Requests {
  import opened Common
  import opened Base64

  const NPOS: nat := 0xFFFF_FFFF_FFFF_FFFF

  function Add(a: nat, b: nat): nat {
    (a + b) % (NPOS + 1)
  }

  function Sub(a: nat, b: nat): nat {
    (a - b) % (NPOS + 1)
  }

  /** Position of the first '|' at or behind `from`. */
  function Find(s: string, from: nat): (pos: nat)
    requires |s| < NPOS
    ensures pos == NPOS || (from <= pos < |s| && s[pos] == '|')
    ensures forall i :: from <= i < |s| && i < pos ==> s[i] != '|'
    decreases |s| - from
  {
    if from >= |s| then NPOS else if s[from] == '|' then from else Find(s, from + 1)
  }

  /** `substr`: throws when it starts behind the end, and is cut at the end. */
  function Substr(s: string, pos: nat, n: nat): Result<string, ()> {
    if pos > |s| then Err(())
    else Ok(if n <= |s| - pos then s[pos..pos + n] else s[pos..])
  }

  datatype Request = Request(cmd: string, arg1: string, arg2: string)

  function Parse(s: string): Result<Request, ()>
    requires |s| < NPOS
  {
    var first := Find(s, 0);
    var second := Find(s, Add(first, 1));
    var cmd := Substr(s, 0, first);
    var arg1 := Substr(s, Add(first, 1), Sub(Sub(second, first), 1));
    var arg2 := Substr(s, Add(second, 1), NPOS);
    if cmd.Ok? && arg1.Ok? && arg2.Ok? then Ok(Request(cmd.value, arg1.value, arg2.value)) else Err(())
  }

  predicate NoBar(s: string) {
    forall i :: 0 <= i < |s| ==> s[i] != '|'
  }

  lemma Wrap(a: nat)
    requires a <= NPOS
    ensures Add(a, 1) == if a == 0xFFFF_FFFF_FFFF_FFFF then 0 else a + 1
  {}

  lemma Between(first: nat, second: nat)
    requires first < second <= NPOS
    ensures Sub(Sub(second, first), 1) == second - first - 1
  {}

  lemma FindAfter(a: string, b: string)
    requires NoBar(a) && |a + "|" + b| < NPOS
    ensures Find(a + "|" + b, 0) == |a|
  {
    var s := a + "|" + b;
    assert s[|a|] == '|';
    assert forall i :: 0 <= i < |a| ==> s[i] == a[i] != '|';
  }

  lemma FindIs(s: string, from: nat, k: nat)
    requires from <= k < |s| < NPOS && s[k] == '|' && forall i :: from <= i < k ==> s[i] != '|'
    ensures Find(s, from) == k
  {}

  lemma Behind(a: string, b: string, i: nat)
    requires i < |b|
    ensures (a + "|" + b)[|a| + 1 + i] == b[i]
  {}

  lemma FindBehind(a: string, b: string)
    requires |a + "|" + b| < NPOS
    ensures var s := a + "|" + b;
      Find(s, |a| + 1) == if NoBar(b) then NPOS else |a| + 1 + Find(b, 0)
  {
    var s, k := a + "|" + b, Find(b, 0);
    forall i | |a| + 1 <= i < |s| && i - |a| - 1 < k ensures s[i] != '|' {
      Behind(a, b, i - |a| - 1);
    }
    if !NoBar(b) {
      Behind(a, b, k);
      FindIs(s, |a| + 1, |a| + 1 + k);
    }
  }

  /** Without a delimiter everything is the whole request. */
  lemma ParseNone(s: string)
    requires NoBar(s) && |s| < NPOS
    ensures Parse(s) == Ok(Request(s, s, s))
  {}

  lemma ParseAtOne(s: string, first: nat)
    requires |s| < NPOS && first < |s|
    requires Find(s, 0) == first && Find(s, first + 1) == NPOS
    ensures Parse(s) == Ok(Request(s[..first], s[first + 1..], s))
  {
    Wrap(first);
    Wrap(NPOS);
    Between(first, NPOS);
  }

  lemma ParseAtTwo(s: string, first: nat, second: nat, r: Request)
    requires |s| < NPOS && first < second < |s|
    requires Find(s, 0) == first && Find(s, first + 1) == second
    requires r == Request(s[..first], s[first + 1..second], s[second + 1..])
    ensures Parse(s) == Ok(r)
  {
    Wrap(first);
    Wrap(second);
    Between(first, second);
  }

  /** With one delimiter the second argument is the whole request. */
  lemma ParseOne(a: string, b: string)
    requires NoBar(a) && NoBar(b) && |a + "|" + b| < NPOS
    ensures Parse(a + "|" + b) == Ok(Request(a, b, a + "|" + b))
  {
    var s := a + "|" + b;
    FindAfter(a, b);
    FindBehind(a, b);
    ParseAtOne(s, |a|);
    assert s[|a| + 1..] == b && s[..|a|] == a;
  }

  /** With more, the first two delimiters count. */
  lemma ParseMore(a: string, b: string, c: string)
    requires NoBar(a) && NoBar(b) && |a + "|" + (b + "|" + c)| < NPOS
    ensures Parse(a + "|" + (b + "|" + c)) == Ok(Request(a, b, c))
  {
    FindAfter(a, b + "|" + c);
    FindSecond(a, b, c);
    Pieces(a, b, c);
    ParseAtTwo(a + "|" + (b + "|" + c), |a|, |a| + 1 + |b|, Request(a, b, c));
  }

  lemma FindSecond(a: string, b: string, c: string)
    requires NoBar(b) && |a + "|" + (b + "|" + c)| < NPOS
    ensures Find(a + "|" + (b + "|" + c), |a| + 1) == |a| + 1 + |b|
  {
    var rest := b + "|" + c;
    FindAfter(b, c);
    assert rest[|b|] == '|';
    FindBehind(a, rest);
  }

  lemma Pieces(a: string, b: string, c: string)
    ensures var s := a + "|" + (b + "|" + c);
      && |a| < |a| + 1 + |b| < |s|
      && Request(a, b, c) == Request(s[..|a|], s[|a| + 1..|a| + 1 + |b|], s[|a| + 1 + |b| + 1..])
  {}

  /** Every request is split without taking a substring behind the end. */
  lemma ParseTotal(s: string)
    requires |s| < NPOS
    ensures Parse(s).Ok?
  {}

  // ---------------------------------------------------------------- client and daemon

  datatype Command =
    | AddWatch(path: string, recursive: bool)
    | DelWatch(path: string, recursive: bool)
    | ListLocal
    | ListRemote
    | RestoreAll(target: string)
    | Restore(target: string, pathOrHash: string)
    | CleanRemote
    | RestoreIndex(arg: string)

  /** What the client sends. */
  function Build(c: Command): string {
    match c
    case AddWatch(path, recursive) => (if recursive then "addr|" else "add|") + path
    case DelWatch(path, recursive) => (if recursive then "delr|" else "del|") + path
    case ListLocal => "listLocal|"
    case ListRemote => "listRemote|"
    case RestoreAll(target) => "restoreAll|" + target
    case Restore(target, pathOrHash) => "restore|" + target + "|" + pathOrHash
    case CleanRemote => "cleanRemote|"
    case RestoreIndex(arg) => "restoreIndex|" + arg
  }

  /** What the daemon does with a request that was split. */
  function Dispatch(r: Request): Option<Command> {
    if r.cmd == "add" then Some(AddWatch(r.arg1, false))
    else if r.cmd == "addr" then Some(AddWatch(r.arg1, true))
    else if r.cmd == "del" then Some(DelWatch(r.arg1, false))
    else if r.cmd == "delr" then Some(DelWatch(r.arg1, true))
    else if r.cmd == "listLocal" then Some(ListLocal)
    else if r.cmd == "listRemote" then Some(ListRemote)
    else if r.cmd == "restoreAll" then Some(RestoreAll(r.arg1))
    else if r.cmd == "restore" then Some(Restore(r.arg1, r.arg2))
    else if r.cmd == "cleanRemote" then Some(CleanRemote)
    else if r.cmd == "restoreIndex" then Some(RestoreIndex(r.arg1))
    else None
  }

  /** The words on the wire. */
  lemma WireFormat(a: string, b: string)
    ensures Build(AddWatch(a, false)) == "add|" + a && Build(AddWatch(a, true)) == "addr|" + a
    ensures Build(DelWatch(a, false)) == "del|" + a && Build(DelWatch(a, true)) == "delr|" + a
    ensures Build(RestoreAll(a)) == "restoreAll|" + a && Build(Restore(a, b)) == "restore|" + a + "|" + b
    ensures Build(ListLocal) == "listLocal|" && Build(ListRemote) == "listRemote|"
    ensures Build(CleanRemote) == "cleanRemote|" && Build(RestoreIndex(a)) == "restoreIndex|" + a
  {}

  /** Anything else is answered with nothing. */
  lemma UnknownCommands(r: Request)
    ensures var words := ["add", "addr", "del", "delr", "listLocal", "listRemote", "restoreAll", "restore",
                          "cleanRemote", "restoreIndex"];
      Dispatch(r).None? <==> r.cmd !in words
  {}

  function Received(c: Command): Option<Command>
    requires |Build(c)| < NPOS
  {
    match Parse(Build(c)) case Ok(r) => Dispatch(r) case Err(_) => None
  }

  /** The arguments that must not contain the delimiter: the only one, or the first of two. */
  predicate Delimited(c: Command) {
    match c
    case AddWatch(path, _) => NoBar(path)
    case DelWatch(path, _) => NoBar(path)
    case RestoreAll(target) => NoBar(target)
    case Restore(target, _) => NoBar(target)
    case RestoreIndex(arg) => NoBar(arg)
    case _ => true
  }

  /** The command a request with one argument starts with, and what the daemon takes for the argument. */
  function FirstPart(s: string): (r: string)
    requires |s| < NPOS
    ensures NoBar(s) ==> r == s
    ensures !NoBar(s) ==> r != s && |r| < |s|
  {
    var p := Find(s, 0);
    if p == NPOS then s
    else
      s[..p]
  }

  lemma ParseOneArgument(cmd: string, arg: string)
    requires NoBar(cmd) && |cmd + "|" + arg| < NPOS
    ensures var r := Parse(cmd + "|" + arg);
      r.Ok? && r.value.cmd == cmd && r.value.arg1 == FirstPart(arg)
  {
    if NoBar(arg) {
      ParseOne(cmd, arg);
    } else {
      var q := Find(arg, 0);
      var b, c := arg[..q], arg[q + 1..];
      assert arg == b + "|" + c;
      ParseMore(cmd, b, c);
    }
  }

  lemma ParseTwoArguments(cmd: string, a: string, b: string)
    requires NoBar(cmd) && |cmd + "|" + a + "|" + b| < NPOS
    ensures var r := Parse(cmd + "|" + a + "|" + b);
      && r.Ok? && r.value.cmd == cmd && r.value.arg1 == FirstPart(a)
      && (NoBar(a) ==> r.value.arg2 == b)
  {
    var s := cmd + "|" + a + "|" + b;
    assert s == cmd + "|" + (a + "|" + b);
    if NoBar(a) {
      ParseMore(cmd, a, b);
    } else {
      var q := Find(a, 0);
      var x, y := a[..q], a[q + 1..] + "|" + b;
      assert a + "|" + b == x + "|" + y;
      ParseMore(cmd, x, y);
    }
  }

  // The commands that carry arguments are told apart by their first part.
  lemma DispatchWatches(arg1: string, arg2: string)
    ensures Dispatch(Request("add", arg1, arg2)) == Some(AddWatch(arg1, false))
    ensures Dispatch(Request("addr", arg1, arg2)) == Some(AddWatch(arg1, true))
    ensures Dispatch(Request("del", arg1, arg2)) == Some(DelWatch(arg1, false))
    ensures Dispatch(Request("delr", arg1, arg2)) == Some(DelWatch(arg1, true))
  {}

  lemma DispatchRestores(arg1: string, arg2: string)
    ensures Dispatch(Request("restoreAll", arg1, arg2)) == Some(RestoreAll(arg1))
    ensures Dispatch(Request("restore", arg1, arg2)) == Some(Restore(arg1, arg2))
    ensures Dispatch(Request("restoreIndex", arg1, arg2)) == Some(RestoreIndex(arg1))
  {}

  lemma DispatchOthers(arg1: string, arg2: string)
    ensures Dispatch(Request("listLocal", arg1, arg2)) == Some(ListLocal)
    ensures Dispatch(Request("listRemote", arg1, arg2)) == Some(ListRemote)
    ensures Dispatch(Request("cleanRemote", arg1, arg2)) == Some(CleanRemote)
  {}

  lemma WatchRoundTrip(c: Command)
    requires (c.AddWatch? || c.DelWatch?) && |Build(c)| < NPOS
    ensures Received(c) == Some(c) <==> Delimited(c)
  {
    var cmd := if c.AddWatch? then (if c.recursive then "addr" else "add") else (if c.recursive then "delr" else "del");
    assert Build(c) == cmd + "|" + c.path;
    ParseOneArgument(cmd, c.path);
    var r := Parse(Build(c)).value;
    DispatchWatches(r.arg1, r.arg2);
  }

  lemma RestoreRoundTrip(c: Command)
    requires (c.RestoreAll? || c.Restore? || c.RestoreIndex?) && |Build(c)| < NPOS
    ensures Received(c) == Some(c) <==> Delimited(c)
  {
    if c.RestoreAll? {
      assert Build(c) == "restoreAll" + "|" + c.target;
      ParseOneArgument("restoreAll", c.target);
    } else if c.RestoreIndex? {
      assert Build(c) == "restoreIndex" + "|" + c.arg;
      ParseOneArgument("restoreIndex", c.arg);
    } else {
      assert Build(c) == "restore" + "|" + c.target + "|" + c.pathOrHash;
      ParseTwoArguments("restore", c.target, c.pathOrHash);
    }
    var r := Parse(Build(c)).value;
    DispatchRestores(r.arg1, r.arg2);
  }

  /** The daemon receives the command the client meant exactly when no argument but the last of two
      contains a delimiter. */
  lemma {:induction false} CommandRoundTrip(c: Command)
    requires |Build(c)| < NPOS
    ensures Received(c) == Some(c) <==> Delimited(c)
  {
    if c.AddWatch? || c.DelWatch? {
      WatchRoundTrip(c);
    } else if c.RestoreAll? || c.Restore? || c.RestoreIndex? {
      RestoreRoundTrip(c);
    } else {
      var cmd := if c.ListLocal? then "listLocal" else if c.ListRemote? then "listRemote" else "cleanRemote";
      assert Build(c) == cmd + "|" + "";
      ParseOneArgument(cmd, "");
      DispatchOthers(Parse(Build(c)).value.arg1, Parse(Build(c)).value.arg2);
    }
  }

  // ---------------------------------------------------------------- internal calls

  datatype Call =
    | Upload | Download | Delete | ListObjects | ListBuckets
    | UploadNow(path: string, name: string)
    | DownloadNow(name: string, target: string)

  function Prefix(s: string, n: nat): string {
    if n <= |s| then s[..n] else s
  }

  /** How callAPI reads its argument; without a second delimiter the split is undefined. */
  function ReadCall(arg: string): Option<Call>
    requires |arg| < NPOS
  {
    if arg == "upload" then Some(Upload)
    else if Prefix(arg, 9) == "uploadNow" then
      var p := Find(arg, 10);
      if p == NPOS then None else Some(UploadNow(arg[10..p], arg[p + 1..]))
    else if arg == "download" then Some(Download)
    else if Prefix(arg, 11) == "downloadNow" then
      var p := Find(arg, 12);
      if p == NPOS then None else Some(DownloadNow(arg[12..p], arg[p + 1..]))
    else if arg == "listObjects" then Some(ListObjects)
    else if arg == "delete" then Some(Delete)
    else if arg == "listBuckets" then Some(ListBuckets)
    else None
  }

  /** The calls without arguments are single words. */
  lemma OneWordCalls(arg: string)
    requires |arg| < NPOS
    ensures ReadCall(arg) == Some(Upload) <==> arg == "upload"
    ensures ReadCall(arg) == Some(Download) <==> arg == "download"
    ensures ReadCall(arg) == Some(Delete) <==> arg == "delete"
    ensures ReadCall(arg) == Some(ListObjects) <==> arg == "listObjects"
    ensures ReadCall(arg) == Some(ListBuckets) <==> arg == "listBuckets"
  {
    assert "upload"[..6] == "upload" && "download"[0] == 'd' && "delete"[1] == 'e';
    assert "listObjects"[0] == 'l' && "listBuckets"[0] == 'l' && "listBuckets"[4] == 'B';
    assert "uploadNow"[0] == 'u' && "downloadNow"[0] == 'd';
    assert Prefix(arg, 11) == "downloadNow" ==> arg[1] == "downloadNow"[1];
    assert Prefix(arg, 9) == "uploadNow" ==> arg[0] == "uploadNow"[0];
    assert Prefix(arg, 11) == "downloadNow" ==> arg[0] == "downloadNow"[0];
  }

  lemma FindSplit(cmd: string, a: string, b: string)
    requires |cmd + "|" + (a + "|" + b)| < NPOS
    ensures var s := cmd + "|" + (a + "|" + b);
      var p := Find(s, |cmd| + 1);
      && p != NPOS && p <= |cmd| + 1 + |a|
      && (s[|cmd| + 1..p] == a <==> NoBar(a))
      && (NoBar(a) ==> p == |cmd| + 1 + |a| && s[p + 1..] == b)
  {
    var rest := a + "|" + b;
    var s := cmd + "|" + rest;
    assert rest[|a|] == '|';
    FindBehind(cmd, rest);
    var q := Find(rest, 0);
    assert forall i :: 0 <= i < |a| ==> rest[i] == a[i];
    assert s[|cmd| + 1..|cmd| + 1 + q] == rest[..q];
    if NoBar(a) {
      FindAfter(a, b);
      assert rest[..q] == a && s[|cmd| + 1 + q + 1..] == b;
    } else {
      var k :| 0 <= k < |a| && a[k] == '|';
      assert rest[k] == '|';
      assert |rest[..q]| < |a|;
    }
  }

  /** A call that names an object first is read back exactly when the name has no delimiter, whatever the
      target; a call that names a path first, exactly when the path has none. */
  lemma CallRoundTrip(a: string, b: string)
    requires |a| + |b| < NPOS - 20
    ensures ReadCall("downloadNow|" + a + "|" + b) == Some(DownloadNow(a, b)) <==> NoBar(a)
    ensures ReadCall("uploadNow|" + a + "|" + b) == Some(UploadNow(a, b)) <==> NoBar(a)
  {
    var down, up := "downloadNow|" + a + "|" + b, "uploadNow|" + a + "|" + b;
    assert down == "downloadNow" + "|" + (a + "|" + b);
    assert up == "uploadNow" + "|" + (a + "|" + b);
    FindSplit("downloadNow", a, b);
    FindSplit("uploadNow", a, b);
    assert down[..11] == "downloadNow" && down[0] == 'd';
    assert up[..9] == "uploadNow" && up[0] == 'u' && up[6] == 'N';
  }

  /** Object names are spelt with letters of the base64url alphabet, so the index can be fetched to any
      target whatever it is called. */
  lemma NamesAreReadBack(name: string, target: string)
    requires IsLetters(name) && |name| + |target| < NPOS - 20
    ensures ReadCall("downloadNow|" + name + "|" + target) == Some(DownloadNow(name, target))
  {
    assert NoBar(name) by {
      forall i | 0 <= i < |name| ensures name[i] != '|' {
        assert ValueOf(name[i]) >= 0;
      }
    }
    CallRoundTrip(name, target);
  }
}
