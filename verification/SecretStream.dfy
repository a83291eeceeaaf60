/** Chunked authenticated encryption of files over an ideal stream cipher, and chunked hashing. */
module SecretStream {
  import opened Common

  type positive = n: nat | n > 0 witness 1

  /** Length of the stream header and overhead of one encrypted chunk: some positive numbers. */
  const HEADER: positive
  const OVERHEAD: positive

  const CHUNK: nat := 4096
  const HASH_BUFFER: nat := 512

  type Key = seq<byte>

  datatype Tag = Message | Push | Rekey | Final

  /** One byte of an encrypted file.  A `Sealed` byte is the `index`-th byte that `push` produces, in the
      state number `counter` of the stream opened with `key` and `header`, for this message and tag. */
  datatype Octet =
    | Raw(value: byte)
    | Sealed(key: Key, header: seq<Octet>, counter: nat, tag: Tag, message: seq<byte>, index: nat)

  function PushChunk(key: Key, header: seq<Octet>, counter: nat, message: seq<byte>, tag: Tag): (c: seq<Octet>)
    ensures |c| == |message| + OVERHEAD
  {
    seq(|message| + OVERHEAD, i requires 0 <= i < |message| + OVERHEAD =>
      Sealed(key, header, counter, tag, message, i))
  }

  /** Accepts exactly what `push` produces in the same state. */
  function PullChunk(key: Key, header: seq<Octet>, counter: nat, buf: seq<Octet>): (r: Option<(seq<byte>, Tag)>)
    ensures r.Some? ==> buf == PushChunk(key, header, counter, r.value.0, r.value.1)
  {
    if |buf| >= OVERHEAD && buf[0].Sealed? && buf == PushChunk(key, header, counter, buf[0].message, buf[0].tag)
    then Some((buf[0].message, buf[0].tag))
    else None
  }

  /** The chunk a plaintext starts with: only the last chunk is short, and only it is final. */
  function FirstChunk(x: seq<byte>): (seq<byte>, Tag) {
    if |x| < CHUNK then (x, Final) else (x[..CHUNK], Message)
  }

  function SealFrom(key: Key, header: seq<Octet>, counter: nat, x: seq<byte>): (c: seq<Octet>)
    decreases |x|
  {
    var (message, tag) := FirstChunk(x);
    if tag == Final then PushChunk(key, header, counter, message, tag)
    else PushChunk(key, header, counter, message, tag) + SealFrom(key, header, counter + 1, x[CHUNK..])
  }

  /** The content of the encrypted file. */
  function Encrypted(key: Key, header: seq<Octet>, x: seq<byte>): (c: seq<Octet>) {
    header + SealFrom(key, header, 0, x)
  }

  datatype Opened = Opened(accepted: bool, written: seq<byte>)

  /** What the decryption loop makes of the rest `f` of a file.  End of file shows as a short read. */
  function OpenFrom(key: Key, header: seq<Octet>, counter: nat, f: seq<Octet>): Opened
    decreases |f|
  {
    var size := CHUNK + OVERHEAD;
    var eof := |f| < size;
    var buf := if eof then f else f[..size];
    match PullChunk(key, header, counter, buf)
    case None => Opened(false, [])
    case Some((message, tag)) =>
      if tag == Final && !eof then Opened(false, [])
      else if eof then Opened(true, message)
      else After(message, OpenFrom(key, header, counter + 1, f[size..]))
  }

  function After(written: seq<byte>, o: Opened): Opened {
    Opened(o.accepted, written + o.written)
  }

  lemma AfterConcat(a: seq<byte>, b: seq<byte>, o: Opened)
    ensures After(a + b, o) == After(a, After(b, o))
  {}

  /** One turn of the loop: a chunk that is not pulled, a final one too early, the last one, and any other. */
  lemma OpenTurn(key: Key, header: seq<Octet>, counter: nat, f: seq<Octet>)
    ensures var size := CHUNK + OVERHEAD;
      var eof := |f| < size;
      var pulled := PullChunk(key, header, counter, if eof then f else f[..size]);
      OpenFrom(key, header, counter, f) ==
        if pulled.None? || (pulled.value.1 == Final && !eof) then Opened(false, [])
        else if eof then Opened(true, pulled.value.0)
        else After(pulled.value.0, OpenFrom(key, header, counter + 1, f[size..]))
  {}

  /** `junk` is what the header buffer held before the header was read into it. */
  function HeaderOf(f: seq<Octet>, junk: seq<Octet>): (h: seq<Octet>)
    requires |junk| == HEADER
    ensures |h| == HEADER
  {
    if |f| >= HEADER then f[..HEADER] else f + junk[|f|..]
  }

  function Decrypted(key: Key, f: seq<Octet>, junk: seq<Octet>): Opened
    requires |junk| == HEADER
  {
    OpenFrom(key, HeaderOf(f, junk), 0, if |f| >= HEADER then f[HEADER..] else [])
  }

  // ---------------------------------------------------------------- the file loops

  /** A file being read.  `eof` is raised by a read that comes back short, and not before. */
  class Reader<T> {
    const data: seq<T>
    var pos: nat
    var eof: bool

    constructor (data: seq<T>)
      ensures this.data == data && pos == 0 && !eof
    {
      this.data, pos, eof := data, 0, false;
    }

    method Read(size: nat) returns (buf: seq<T>)
      requires pos <= |data|
      modifies this
      ensures pos == (if old(pos) + size <= |data| then old(pos) + size else |data|)
      ensures buf == data[old(pos)..pos]
      ensures eof == (old(eof) || |buf| < size)
    {
      var end := if pos + size <= |data| then pos + size else |data|;
      buf := data[pos..end];
      eof := eof || end < pos + size;
      pos := end;
    }
  }

  method EncryptFile(source: seq<byte>, key: Key, header: seq<Octet>) returns (target: seq<Octet>)
    ensures target == Encrypted(key, header, source)
  {
    var file := new Reader(source);
    target := header;
    var counter := 0;
    var eof := false;
    while !eof
      invariant file.pos <= |source| && file.data == source && file.eof == eof
      invariant !eof ==> target + SealFrom(key, header, counter, source[file.pos..]) == Encrypted(key, header, source)
      invariant eof ==> target == Encrypted(key, header, source)
      decreases !eof, |source| - file.pos
    {
      ghost var rest := source[file.pos..];
      var buf := file.Read(CHUNK);
      eof := file.eof;
      var tag := if eof then Final else Message;
      assert buf == if eof then rest else rest[..CHUNK];
      target := target + PushChunk(key, header, counter, buf, tag);
      assert !eof ==> rest[CHUNK..] == source[file.pos..];
      counter := counter + 1;
    }
  }

  method DecryptFile(source: seq<Octet>, key: Key, junk: seq<Octet>) returns (ret: int, target: seq<byte>)
    requires |junk| == HEADER
    ensures target == Decrypted(key, source, junk).written
    ensures ret == if Decrypted(key, source, junk).accepted then 0 else -1
  {
    var file := new Reader(source);
    var read := file.Read(HEADER);
    var header := read + junk[|read|..];
    assert header == HeaderOf(source, junk);
    ret, target := DecryptChunks(file, key, header);
  }

  /** The loop of decryptFile over the chunks after the header. */
  method DecryptChunks(file: Reader<Octet>, key: Key, header: seq<Octet>) returns (ret: int, target: seq<byte>)
    requires file.pos <= |file.data|
    requires file.eof ==> file.pos == |file.data|
    modifies file
    ensures var all := OpenFrom(key, header, 0, file.data[old(file.pos)..]);
      target == all.written && ret == if all.accepted then 0 else -1
  {
    target, ret := [], -1;
    var counter := 0;
    var eof := false;
    ghost var all := OpenFrom(key, header, 0, file.data[file.pos..]);
    while !eof
      invariant file.pos <= |file.data| && ret == -1
      invariant file.eof ==> file.pos == |file.data|
      invariant eof ==> all == Opened(true, target)
      invariant !eof ==> all == After(target, OpenFrom(key, header, counter, file.data[file.pos..]))
      decreases !eof, |file.data| - file.pos
    {
      ghost var rest := file.data[file.pos..];
      ghost var written := target;
      OpenTurn(key, header, counter, rest);
      var buf := file.Read(CHUNK + OVERHEAD);
      eof := file.eof;
      assert buf == if |rest| < CHUNK + OVERHEAD then rest else rest[..CHUNK + OVERHEAD];
      var pulled := PullChunk(key, header, counter, buf);
      if pulled.None? {
        return;
      }
      var (message, tag) := pulled.value;
      if tag == Final && !eof {
        return;
      }
      target := target + message;
      counter := counter + 1;
      if !eof {
        assert rest[CHUNK + OVERHEAD..] == file.data[file.pos..];
        AfterConcat(written, message, OpenFrom(key, header, counter, file.data[file.pos..]));
      }
    }
    ret := 0;
  }

  /** The hash state is the bytes it has absorbed.  A file that cannot be opened hashes as an empty one. */
  method HashFile(file: Option<seq<byte>>) returns (hash: Digest)
    ensures hash == Digest(if file.Some? then file.value else [])
  {
    var absorbed: seq<byte> := [];
    if file.Some? {
      var input := new Reader(file.value);
      while !input.eof
        invariant input.data == file.value && input.pos <= |file.value|
        invariant absorbed == file.value[..input.pos]
        invariant input.eof ==> input.pos == |file.value|
        decreases !input.eof, |file.value| - input.pos
      {
        var buf := input.Read(HASH_BUFFER);
        if buf == [] {
          break;
        }
        absorbed := absorbed + buf;
      }
      assert file.value[..|file.value|] == file.value;
    }
    hash := Digest(absorbed);
  }

  // ---------------------------------------------------------------- what decryption accepts

  lemma {:induction false} OpenSealed(key: Key, header: seq<Octet>, counter: nat, x: seq<byte>)
    ensures OpenFrom(key, header, counter, SealFrom(key, header, counter, x)) == Opened(true, x)
    decreases |x|
  {
    var (message, tag) := FirstChunk(x);
    var chunk := PushChunk(key, header, counter, message, tag);
    PullPushed(key, header, counter, message, tag);
    if tag == Message {
      var rest := SealFrom(key, header, counter + 1, x[CHUNK..]);
      assert (chunk + rest)[..CHUNK + OVERHEAD] == chunk && (chunk + rest)[CHUNK + OVERHEAD..] == rest;
      OpenSealed(key, header, counter + 1, x[CHUNK..]);
      assert message + x[CHUNK..] == x;
    }
  }

  lemma PullPushed(key: Key, header: seq<Octet>, counter: nat, message: seq<byte>, tag: Tag)
    ensures PullChunk(key, header, counter, PushChunk(key, header, counter, message, tag)) == Some((message, tag))
  {}

  /** Decryption undoes encryption for every length. */
  lemma RoundTrip(key: Key, header: seq<Octet>, x: seq<byte>, junk: seq<Octet>)
    requires |header| == HEADER == |junk|
    ensures Decrypted(key, Encrypted(key, header, x), junk) == Opened(true, x)
  {
    var f := Encrypted(key, header, x);
    assert f[..HEADER] == header && f[HEADER..] == SealFrom(key, header, 0, x);
    OpenSealed(key, header, 0, x);
  }

  lemma {:induction false} SealedLength(key: Key, header: seq<Octet>, counter: nat, x: seq<byte>)
    ensures |SealFrom(key, header, counter, x)| == |x| + OVERHEAD * (|x| / CHUNK + 1)
    decreases |x|
  {
    if |x| >= CHUNK {
      SealedLength(key, header, counter + 1, x[CHUNK..]);
      var q := |x| / CHUNK;
      assert |x[CHUNK..]| / CHUNK == q - 1;
      assert OVERHEAD * (q + 1) == OVERHEAD * q + OVERHEAD;
    }
  }

  /** The size of the encrypted file: one header, the content, and an overhead for every chunk, of which
      there is one more than full chunks. */
  lemma EncryptedSize(key: Key, header: seq<Octet>, x: seq<byte>)
    ensures |Encrypted(key, header, x)| == |header| + |x| + OVERHEAD * (|x| / 4096 + 1)
  {
    SealedLength(key, header, 0, x);
  }

  /** The chunk with number `counter` of a plaintext. */
  function ChunkAt(x: seq<byte>, counter: nat): Option<(seq<byte>, Tag)> {
    if CHUNK * counter <= |x| then Some(FirstChunk(x[CHUNK * counter..])) else None
  }

  /** Nobody but `encryptFile` used the key: what looks sealed with it was pushed for one of the files
      in `files`, which maps the header drawn for a file to its content. */
  ghost predicate Authentic(f: seq<Octet>, key: Key, files: map<seq<Octet>, seq<byte>>) {
    forall i :: 0 <= i < |f| && f[i].Sealed? && f[i].key == key ==>
      && f[i].header in files
      && ChunkAt(files[f[i].header], f[i].counter) == Some((f[i].message, f[i].tag))
  }

  lemma AuthenticPart(f: seq<Octet>, n: nat, key: Key, files: map<seq<Octet>, seq<byte>>)
    requires n <= |f| && Authentic(f, key, files)
    ensures Authentic(f[n..], key, files) && Authentic(f[..n], key, files)
  {}

  /** What is pulled is the chunk of a file that was encrypted. */
  lemma PulledIsAuthentic(
      key: Key, header: seq<Octet>, counter: nat, buf: seq<Octet>, files: map<seq<Octet>, seq<byte>>)
    requires Authentic(buf, key, files) && PullChunk(key, header, counter, buf).Some?
    ensures header in files && ChunkAt(files[header], counter) == PullChunk(key, header, counter, buf)
  {}

  /** The loop never asks whether the chunk at the end of the file carries the final tag; no other chunk
      can be there, because only the last chunk of a file is short. */
  lemma ShortReadIsLastChunk(
      key: Key, header: seq<Octet>, counter: nat, buf: seq<Octet>, files: map<seq<Octet>, seq<byte>>)
    requires Authentic(buf, key, files) && |buf| < CHUNK + OVERHEAD
    requires PullChunk(key, header, counter, buf).Some?
    ensures header in files && CHUNK * counter <= |files[header]| < CHUNK * (counter + 1)
    ensures PullChunk(key, header, counter, buf) == Some((files[header][CHUNK * counter..], Final))
  {}

  /** Reading on from chunk number `counter` of a file whose content from there on is `x`. */
  lemma {:induction false} OpenAuthentic(
      key: Key, header: seq<Octet>, counter: nat, x: seq<byte>, f: seq<Octet>, files: map<seq<Octet>, seq<byte>>)
    requires Authentic(f, key, files)
    requires header in files && CHUNK * counter <= |files[header]| && x == files[header][CHUNK * counter..]
    ensures var o := OpenFrom(key, header, counter, f);
      && o.written <= x
      && (o.accepted <==> f == SealFrom(key, header, counter, x))
      && (o.accepted ==> o.written == x)
    decreases |f|
  {
    var size := CHUNK + OVERHEAD;
    OpenSealed(key, header, counter, x);
    if |f| < size {
      if PullChunk(key, header, counter, f).Some? {
        ShortReadIsLastChunk(key, header, counter, f, files);
      }
    } else {
      AuthenticPart(f, size, key, files);
      if PullChunk(key, header, counter, f[..size]).Some? {
        PulledIsAuthentic(key, header, counter, f[..size], files);
        assert FirstChunk(x) == (x[..CHUNK], Message);
        OpenAuthentic(key, header, counter + 1, x[CHUNK..], f[size..], files);
        OpenAfterChunk(key, header, counter, x, f);
      }
    }
  }

  lemma OpenAfterChunk(key: Key, header: seq<Octet>, counter: nat, x: seq<byte>, f: seq<Octet>)
    requires |x| >= CHUNK && |f| >= CHUNK + OVERHEAD
    requires f[..CHUNK + OVERHEAD] == PushChunk(key, header, counter, x[..CHUNK], Message)
    ensures var rest := f[CHUNK + OVERHEAD..];
      && OpenFrom(key, header, counter, f) == After(x[..CHUNK], OpenFrom(key, header, counter + 1, rest))
      && (f == SealFrom(key, header, counter, x) <==> rest == SealFrom(key, header, counter + 1, x[CHUNK..]))
      && x == x[..CHUNK] + x[CHUNK..]
  {}

  /** Were a short chunk without the final tag ever produced, it would be accepted as the end of a file. */
  lemma FinalTagIsNotChecked(key: Key, header: seq<Octet>, message: seq<byte>, tag: Tag, junk: seq<Octet>)
    requires |header| == HEADER == |junk| && |message| < CHUNK
    ensures Decrypted(key, header + PushChunk(key, header, 0, message, tag), junk) == Opened(true, message)
  {}

  /** The tag is checked the other way round: behind a full chunk that is tagged as the final one the loop stops,
      and the chunk is not written. */
  lemma EarlyFinalTagIsRejected(
      key: Key, header: seq<Octet>, message: seq<byte>, rest: seq<Octet>, junk: seq<Octet>)
    requires |header| == HEADER == |junk| && |message| == 4096
    ensures Decrypted(key, header + PushChunk(key, header, 0, message, Final) + rest, junk) == Opened(false, [])
  {
    var chunk := PushChunk(key, header, 0, message, Final);
    var f := header + chunk + rest;
    assert f[..HEADER] == header && f[HEADER..] == chunk + rest && (chunk + rest)[..CHUNK + OVERHEAD] == chunk;
    PullPushed(key, header, 0, message, Final);
  }

  /** A file that is cut in the header, or whose header was not drawn for any file, is rejected. */
  lemma UnknownHeaderRejected(
      key: Key, f: seq<Octet>, junk: seq<Octet>, files: map<seq<Octet>, seq<byte>>)
    requires |junk| == HEADER
    requires Authentic(f, key, files)
    requires |f| < HEADER || f[..HEADER] !in files
    ensures Decrypted(key, f, junk) == Opened(false, [])
  {}

  lemma KnownHeader(key: Key, f: seq<Octet>, junk: seq<Octet>, files: map<seq<Octet>, seq<byte>>)
    requires |junk| == HEADER
    requires Authentic(f, key, files)
    requires |f| >= HEADER && f[..HEADER] in files
    ensures var x := files[f[..HEADER]];
      var o := Decrypted(key, f, junk);
      && o.written <= x
      && (o.accepted <==> f == Encrypted(key, f[..HEADER], x))
      && (o.accepted ==> o.written == x)
  {
    var header := f[..HEADER];
    var x := files[header];
    AuthenticPart(f, HEADER, key, files);
    assert x[CHUNK * 0..] == x;
    OpenAuthentic(key, header, 0, x, f[HEADER..], files);
    assert f == header + f[HEADER..];
    assert f == Encrypted(key, header, x) ==> f[HEADER..] == SealFrom(key, header, 0, x);
  }

  /** Integrity: of everything that can be put together from files encrypted under the key and from
      foreign bytes, decryption accepts exactly the encrypted files themselves and returns their content;
      of whatever it rejects, it wrote no more than a prefix of one plaintext. */
  lemma AcceptsExactlyEncryptedFiles(
      key: Key, f: seq<Octet>, junk: seq<Octet>, files: map<seq<Octet>, seq<byte>>)
    requires |junk| == HEADER
    requires forall h :: h in files ==> |h| == HEADER
    requires Authentic(f, key, files)
    ensures var o := Decrypted(key, f, junk);
      && (o.accepted <==> exists h :: h in files && f == Encrypted(key, h, files[h]))
      && (o.written == [] || exists h :: h in files && o.written <= files[h])
      && (forall h :: h in files && f == Encrypted(key, h, files[h]) ==> o.written == files[h])
  {
    forall h | h in files && f == Encrypted(key, h, files[h])
      ensures |f| >= HEADER && f[..HEADER] == h
    {}
    if |f| < HEADER || f[..HEADER] !in files {
      UnknownHeaderRejected(key, f, junk, files);
    } else {
      KnownHeader(key, f, junk, files);
    }
  }

  /** `q` whole chunks and one more are as long as `q + 1` of them. */
  lemma OneMore(q: nat, size: nat)
    ensures (q + 1) * size == q * size + size
  {}

  lemma OneLess(q: nat, size: nat)
    requires q > 0
    ensures q * size == (q - 1) * size + size
  {}

  lemma WithoutOne(n: nat, q: nat, size: nat, r: nat)
    requires q > 0 && n == q * size + r
    ensures n >= size && n - size == (q - 1) * size + r
  {
    OneLess(q, size);
    assert (q - 1) * size >= 0;
  }

  lemma Prefixes<T>(x: seq<T>, n: nat, k: nat)
    requires n + k <= |x|
    ensures x[..n] + x[n..][..k] == x[..n + k]
  {}

  lemma Slices<T>(x: seq<T>, n: nat, a: nat, b: nat)
    requires n + a <= n + b <= |x|
    ensures x[n..][a..b] == x[n + a..n + b] && x[n..][a..] == x[n + a..]
  {}

  lemma SealedFirst(key: Key, header: seq<Octet>, counter: nat, x: seq<byte>)
    requires |x| >= CHUNK
    ensures var c := SealFrom(key, header, counter, x);
      && CHUNK + OVERHEAD <= |c| && c[CHUNK + OVERHEAD..] == SealFrom(key, header, counter + 1, x[CHUNK..])
      && c[..CHUNK + OVERHEAD] == PushChunk(key, header, counter, x[..CHUNK], Message)
  {
    var c, first := SealFrom(key, header, counter, x), PushChunk(key, header, counter, x[..CHUNK], Message);
    assert c == first + SealFrom(key, header, counter + 1, x[CHUNK..]);
  }

  /** Where the k-th full chunk of a file lies, what it holds, and how it is tagged. */
  lemma {:induction false} SealedChunk(
      key: Key, header: seq<Octet>, counter: nat, x: seq<byte>, k: nat, size: nat, at: nat)
    requires CHUNK * (k + 1) <= |x| && size == CHUNK + OVERHEAD && at == k * size
    ensures var c := SealFrom(key, header, counter, x);
      && at + size <= |c|
      && c[at..at + size] == PushChunk(key, header, counter + k, x[CHUNK * k..CHUNK * (k + 1)], Message)
    decreases k
  {
    var c := SealFrom(key, header, counter, x);
    SealedFirst(key, header, counter, x);
    if k > 0 {
      OneLess(k, size);
      SealedChunk(key, header, counter + 1, x[CHUNK..], k - 1, size, at - size);
      Slices(c, size, at - size, at);
      Slices(x, CHUNK, CHUNK * (k - 1), CHUNK * k);
    } else {
      assert at == 0 && x[CHUNK * 0..CHUNK * 1] == x[..CHUNK];
    }
  }

  /** Behind the full chunks there is one more, short, maybe empty, and final. */
  lemma {:induction false} SealedTail(
      key: Key, header: seq<Octet>, counter: nat, x: seq<byte>, k: nat, size: nat, at: nat, last: nat, tail: seq<byte>)
    requires CHUNK * k <= |x| < CHUNK * (k + 1) && size == CHUNK + OVERHEAD && at == k * size
    requires last == counter + k && tail == x[CHUNK * k..]
    ensures var c := SealFrom(key, header, counter, x);
      at <= |c| && c[at..] == PushChunk(key, header, last, tail, Final)
    decreases k
  {
    if k > 0 {
      var c := SealFrom(key, header, counter, x);
      assert at - size == (k - 1) * size by {
        OneLess(k, size);
      }
      SealedFirst(key, header, counter, x);
      Slices(x, CHUNK, CHUNK * (k - 1), CHUNK * (k - 1));
      SealedTail(key, header, counter + 1, x[CHUNK..], k - 1, size, at - size, last, tail);
      Slices(c, size, at - size, at - size);
    } else {
      assert at == 0;
      assert x[CHUNK * 0..] == x;
    }
  }

  /** The layout of an encrypted file: the header, the full chunks of 4096 bytes in order, all tagged as
      messages, and the rest as the one final chunk. */
  lemma EncryptedLayout(key: Key, header: seq<Octet>, x: seq<byte>, k: nat)
    requires |header| == HEADER && k <= |x| / 4096
    ensures var c, size := Encrypted(key, header, x)[HEADER..], 4096 + OVERHEAD;
      && Encrypted(key, header, x)[..HEADER] == header && k * size <= |c|
      && if k == |x| / 4096 then
           c[k * size..] == PushChunk(key, header, k, x[4096 * k..], Final)
         else
           && (k + 1) * size <= |c|
           && c[k * size..(k + 1) * size] == PushChunk(key, header, k, x[4096 * k..4096 * (k + 1)], Message)
  {
    var c := Encrypted(key, header, x);
    assert c[HEADER..] == SealFrom(key, header, 0, x) && c[..HEADER] == header;
    if k < |x| / 4096 {
      SealedChunk(key, header, 0, x, k, CHUNK + OVERHEAD, k * (CHUNK + OVERHEAD));
      OneMore(k, CHUNK + OVERHEAD);
    } else {
      SealedTail(key, header, 0, x, k, CHUNK + OVERHEAD, k * (CHUNK + OVERHEAD), k, x[CHUNK * k..]);
    }
  }

  lemma Quotient(n: nat, size: positive) returns (q: nat, r: nat)
    ensures q == n / size && n == q * size + r && r < size
  {
    q, r := n / size, n % size;
  }

  /** A buffer that ends inside a chunk is not pulled. */
  lemma CutIsNotPulled(key: Key, header: seq<Octet>, counter: nat, message: seq<byte>, tag: Tag, n: nat)
    requires n < |message| + OVERHEAD
    ensures PullChunk(key, header, counter, PushChunk(key, header, counter, message, tag)[..n]).None?
  {
    var f := PushChunk(key, header, counter, message, tag)[..n];
    assert n > 0 ==> f[0] == Sealed(key, header, counter, tag, message, 0);
    assert f != PushChunk(key, header, counter, message, tag);
  }

  lemma OpenShort(key: Key, header: seq<Octet>, counter: nat, x: seq<byte>, n: nat)
    requires n < |SealFrom(key, header, counter, x)| && n < CHUNK + OVERHEAD
    ensures OpenFrom(key, header, counter, SealFrom(key, header, counter, x)[..n]) == Opened(false, [])
  {
    var f := SealFrom(key, header, counter, x)[..n];
    var (message, tag) := FirstChunk(x);
    assert f == PushChunk(key, header, counter, message, tag)[..n];
    CutIsNotPulled(key, header, counter, message, tag, n);
    OpenTurn(key, header, counter, f);
  }

  lemma OpenOne(key: Key, header: seq<Octet>, counter: nat, x: seq<byte>, n: nat)
    requires CHUNK + OVERHEAD <= n < |SealFrom(key, header, counter, x)|
    ensures |x| >= CHUNK && n - CHUNK - OVERHEAD < |SealFrom(key, header, counter + 1, x[CHUNK..])|
    ensures var rest := SealFrom(key, header, counter + 1, x[CHUNK..])[..n - CHUNK - OVERHEAD];
      OpenFrom(key, header, counter, SealFrom(key, header, counter, x)[..n])
      == After(x[..CHUNK], OpenFrom(key, header, counter + 1, rest))
  {
    var c, size := SealFrom(key, header, counter, x), CHUNK + OVERHEAD;
    SealedFirst(key, header, counter, x);
    var f, rest := c[..n], c[size..][..n - size];
    assert f[..size] == c[..size] && f[size..] == rest;
    PullPushed(key, header, counter, x[..CHUNK], Message);
    OpenTurn(key, header, counter, f);
  }

  /** What the loop makes of a file that is cut behind `q` whole chunks: it writes these. */
  lemma {:induction false} OpenCut(
      key: Key, header: seq<Octet>, counter: nat, x: seq<byte>, n: nat, q: nat, r: nat, size: nat)
    requires n < |SealFrom(key, header, counter, x)|
    requires n == q * size + r && r < size == CHUNK + OVERHEAD
    ensures CHUNK * q <= |x|
    ensures OpenFrom(key, header, counter, SealFrom(key, header, counter, x)[..n]) == Opened(false, x[..CHUNK * q])
    decreases q
  {
    if q > 0 {
      WithoutOne(n, q, size, r);
      OpenOne(key, header, counter, x, n);
      OpenCut(key, header, counter + 1, x[CHUNK..], n - size, q - 1, r, size);
      Prefixes(x, CHUNK, CHUNK * (q - 1));
    } else {
      OpenShort(key, header, counter, x, n);
      assert x[..0] == [];
    }
  }

  /** How many bytes of content the first `n` bytes of an encrypted file hold in whole chunks. */
  function WholeChunks(n: nat): nat {
    if n < HEADER then 0 else (n - HEADER) / (4096 + OVERHEAD) * 4096
  }

  /** No proper prefix of an encrypted file is accepted, cut in the header or anywhere else, and what is
      written are the chunks of the plaintext that are whole. */
  lemma ProperPrefixRejected(key: Key, header: seq<Octet>, x: seq<byte>, n: nat, junk: seq<Octet>)
    requires |header| == HEADER == |junk|
    requires forall i :: 0 <= i < HEADER ==> header[i].Raw?
    requires n < |Encrypted(key, header, x)|
    ensures var o := Decrypted(key, Encrypted(key, header, x)[..n], junk);
      !o.accepted && WholeChunks(n) <= |x| && o.written == x[..WholeChunks(n)]
  {
    if n < HEADER {
      CutInHeader(key, header, x, n, junk);
      assert x[..0] == [];
    } else {
      CutBehindHeader(key, header, x, n, junk);
    }
  }

  lemma CutBehindHeader(key: Key, header: seq<Octet>, x: seq<byte>, n: nat, junk: seq<Octet>)
    requires |header| == HEADER == |junk| && HEADER <= n < |Encrypted(key, header, x)|
    ensures WholeChunks(n) <= |x|
    ensures Decrypted(key, Encrypted(key, header, x)[..n], junk) == Opened(false, x[..WholeChunks(n)])
  {
    var f := Encrypted(key, header, x)[..n];
    assert f[..HEADER] == header && f[HEADER..] == SealFrom(key, header, 0, x)[..n - HEADER];
    var q, r := Quotient(n - HEADER, CHUNK + OVERHEAD);
    OpenCut(key, header, 0, x, n - HEADER, q, r, CHUNK + OVERHEAD);
  }

  lemma CutInHeader(key: Key, header: seq<Octet>, x: seq<byte>, n: nat, junk: seq<Octet>)
    requires |header| == HEADER == |junk| && n < HEADER
    requires forall i :: 0 <= i < HEADER ==> header[i].Raw?
    ensures Decrypted(key, Encrypted(key, header, x)[..n], junk) == Opened(false, [])
  {
    var f := Encrypted(key, header, x)[..n];
    assert f == header[..n];
    UnknownHeaderRejected(key, f, junk, map[]);
  }

  lemma {:induction false} OpenExtended(
      key: Key, header: seq<Octet>, counter: nat, x: seq<byte>, extra: seq<Octet>, q: nat)
    requires extra != [] && CHUNK * q <= |x| < CHUNK * (q + 1)
    ensures OpenFrom(key, header, counter, SealFrom(key, header, counter, x) + extra) == Opened(false, x[..CHUNK * q])
    decreases q
  {
    var (message, tag) := FirstChunk(x);
    var size := CHUNK + OVERHEAD;
    var chunk := PushChunk(key, header, counter, message, tag);
    PullPushed(key, header, counter, message, tag);
    var f := SealFrom(key, header, counter, x) + extra;
    assert f[0] == chunk[0] == Sealed(key, header, counter, tag, message, 0);
    if q > 0 {
      var rest := SealFrom(key, header, counter + 1, x[CHUNK..]) + extra;
      assert f == chunk + rest;
      assert f[..size] == chunk && f[size..] == rest;
      OpenExtended(key, header, counter + 1, x[CHUNK..], extra, q - 1);
      assert message + x[CHUNK..][..CHUNK * (q - 1)] == x[..CHUNK * q];
    } else {
      var buf := if |f| < size then f else f[..size];
      assert |buf| > |chunk| && buf[0] == f[0];
      assert PullChunk(key, header, counter, buf).None?;
      assert x[..0] == [];
    }
  }

  /** Nothing can be appended to an encrypted file, whatever the bytes; what is written are its full chunks. */
  lemma ProperExtensionRejected(key: Key, header: seq<Octet>, x: seq<byte>, extra: seq<Octet>, junk: seq<Octet>)
    requires |header| == HEADER == |junk| && extra != []
    ensures Decrypted(key, Encrypted(key, header, x) + extra, junk) == Opened(false, x[..|x| / 4096 * 4096])
  {
    var f := Encrypted(key, header, x) + extra;
    assert f[..HEADER] == header && f[HEADER..] == SealFrom(key, header, 0, x) + extra;
    OpenExtended(key, header, 0, x, extra, |x| / 4096);
  }
}
