/** The base64url codec: two encoders and a decoder, over accumulators that wrap at 32 bits. */
module Base64 {
  import opened Common
  import opened Shifts

  /** The URL-safe alphabet of RFC 4648, section 5. */
  function Letter(v: sextet): (c: char)
    ensures ValueOf(c) == v
  {
    if v < 26 then (v + 65) as char
    else if v < 52 then (v + 71) as char
    else if v < 62 then (v - 4) as char
    else if v == 62 then '-'
    else '_'
  }

  /** The value of a letter, or -1. */
  function ValueOf(c: char): (v: int)
    ensures -1 <= v < 64
  {
    if 'A' <= c <= 'Z' then c as int - 65
    else if 'a' <= c <= 'z' then c as int - 71
    else if '0' <= c <= '9' then c as int + 4
    else if c == '-' then 62
    else if c == '_' then 63
    else -1
  }

  lemma LetterOfValue(c: char)
    requires ValueOf(c) >= 0
    ensures Letter(ValueOf(c)) == c
  {}

  /** The alphabet, spelt out. */
  lemma Alphabet(v: sextet)
    ensures v < 26 ==> Letter(v) == "ABCDEFGHIJKLMNOPQRSTUVWXYZ"[v]
    ensures 26 <= v < 52 ==> Letter(v) == "abcdefghijklmnopqrstuvwxyz"[v - 26]
    ensures 52 <= v ==> Letter(v) == "0123456789-_"[v - 52]
  {
    if v < 26 {
    } else if v < 52 {
    } else {
    }
  }

  /** No other character has a value. */
  lemma OnlyLetters(c: char)
    ensures ValueOf(c) >= 0 <==> exists v: sextet :: Letter(v) == c
  {
    if ValueOf(c) >= 0 {
      LetterOfValue(c);
    }
  }

  predicate IsLetters(s: string) {
    forall i :: 0 <= i < |s| ==> ValueOf(s[i]) >= 0
  }

  // ---------------------------------------------------------------- specification

  /** The sextets of a byte string; the last one is filled up with zero bits. */
  function Sextets(x: seq<byte>): (v: seq<sextet>)
    decreases |x|
  {
    if |x| == 0 then []
    else if |x| == 1 then [Sextet0(x[0]), Sextet1(x[0], 0)]
    else if |x| == 2 then [Sextet0(x[0]), Sextet1(x[0], x[1]), Sextet2(x[1], 0)]
    else [Sextet0(x[0]), Sextet1(x[0], x[1]), Sextet2(x[1], x[2]), Sextet3(x[2])] + Sextets(x[3..])
  }

  /** The bytes that a sequence of sextets fills completely. */
  function Bytes(v: seq<sextet>): (x: seq<byte>)
    decreases |v|
  {
    if |v| <= 1 then []
    else if |v| == 2 then [Byte0(v[0], v[1])]
    else if |v| == 3 then [Byte0(v[0], v[1]), Byte1(v[1], v[2])]
    else [Byte0(v[0], v[1]), Byte1(v[1], v[2]), Byte2(v[2], v[3])] + Bytes(v[4..])
  }

  // The definitions above, case by case.
  lemma SextetsOne(a: byte)
    ensures Sextets([a]) == [Sextet0(a), Sextet1(a, 0)]
  {}

  lemma SextetsTwo(a: byte, b: byte)
    ensures Sextets([a, b]) == [Sextet0(a), Sextet1(a, b), Sextet2(b, 0)]
  {}

  lemma SextetsFirst(x: seq<byte>)
    requires |x| >= 3
    ensures Sextets(x) == [Sextet0(x[0]), Sextet1(x[0], x[1]), Sextet2(x[1], x[2]), Sextet3(x[2])] + Sextets(x[3..])
  {}

  lemma BytesTwo(p: sextet, q: sextet)
    ensures Bytes([p, q]) == [Byte0(p, q)]
  {}

  lemma BytesThree(p: sextet, q: sextet, r: sextet)
    ensures Bytes([p, q, r]) == [Byte0(p, q), Byte1(q, r)]
  {}

  lemma BytesFirst(v: seq<sextet>)
    requires |v| >= 4
    ensures Bytes(v) == [Byte0(v[0], v[1]), Byte1(v[1], v[2]), Byte2(v[2], v[3])] + Bytes(v[4..])
  {}

  function Spell(v: seq<sextet>): (s: string)
    ensures |s| == |v| && IsLetters(s)
    ensures forall i :: 0 <= i < |v| ==> s[i] == Letter(v[i])
  {
    seq(|v|, i requires 0 <= i < |v| => Letter(v[i]))
  }

  function Values(s: string): (v: seq<sextet>)
    requires IsLetters(s)
    ensures |v| == |s|
    ensures forall i :: 0 <= i < |s| ==> v[i] == ValueOf(s[i])
  {
    seq(|s|, i requires 0 <= i < |s| => ValueOf(s[i]))
  }

  /** The longest prefix that consists of letters. */
  function Letters(s: string): (r: string)
    ensures r <= s && IsLetters(r)
    ensures |r| < |s| ==> ValueOf(s[|r|]) == -1
  {
    if s == "" || ValueOf(s[0]) == -1 then "" else [s[0]] + Letters(s[1..])
  }

  /** Encoding without padding. */
  function Encode(x: seq<byte>): string {
    Spell(Sextets(x))
  }

  function Padding(n: nat): (s: string)
    ensures |s| == (3 - n % 3) % 3
  {
    if n % 3 == 0 then "" else if n % 3 == 1 then "==" else "="
  }

  /** Encoding with padding, RFC 4648 sections 3.2 and 4. */
  function EncodePadded(x: seq<byte>): string {
    Encode(x) + Padding(|x|)
  }

  function Decode(s: string): seq<byte> {
    Bytes(Values(Letters(s)))
  }

  /** Everything that comes off after a byte, by how many bytes came before it. */
  lemma TakenAfterByte(val: int, last: byte, r: nat, c: byte)
    requires val % 256 == last && r < 3
    ensures var w := Push(val, 256, c);
      && w % 256 == c
      && Emit(last, r, c) == if r == 2 then [Taken(w, 6), Taken(w, 0)] else [Taken(w, 2 + 2 * r)]
  {
    var w, low := Push(val, 256, c), last * 256 + c;
    ShiftInByte(val, last, c);
    if r == 0 {
      Shift2(w, low);
      TwoBytes0(last, c);
    } else if r == 1 {
      Shift4(w, low);
      TwoBytes1(last, c);
    } else {
      Shift6(w, low);
      TwoBytes2(last, c);
      Shift0(w, low);
      TwoBytes3(last, c);
    }
  }

  // ---------------------------------------------------------------- the streaming encoder

  /** The sextets that are out after the bytes of `x` went in. */
  function Emitted(x: seq<byte>): (v: seq<sextet>)
    decreases |x|
  {
    if |x| == 0 then []
    else if |x| == 1 then [Sextet0(x[0])]
    else if |x| == 2 then [Sextet0(x[0]), Sextet1(x[0], x[1])]
    else [Sextet0(x[0]), Sextet1(x[0], x[1]), Sextet2(x[1], x[2]), Sextet3(x[2])] + Emitted(x[3..])
  }

  function LastOf(x: seq<byte>): byte {
    if x == [] then 0 else x[|x| - 1]
  }

  function Emit(last: byte, r: nat, c: byte): (v: seq<sextet>) {
    if r == 0 then [Sextet0(c)] else if r == 1 then [Sextet1(last, c)] else [Sextet2(last, c), Sextet3(c)]
  }

  lemma EmittedOne(a: byte)
    ensures Emitted([a]) == [Sextet0(a)]
  {}

  lemma EmittedTwo(a: byte, b: byte)
    ensures Emitted([a, b]) == [Sextet0(a), Sextet1(a, b)]
  {}

  lemma EmittedFirst(x: seq<byte>)
    requires |x| >= 3
    ensures Emitted(x) == [Sextet0(x[0]), Sextet1(x[0], x[1]), Sextet2(x[1], x[2]), Sextet3(x[2])] + Emitted(x[3..])
  {}

  lemma EmittedThree(a: byte, b: byte, c: byte)
    ensures Emitted([a, b, c]) == [Sextet0(a), Sextet1(a, b), Sextet2(b, c), Sextet3(c)]
  {
    EmittedFirst([a, b, c]);
  }

  lemma EmittedShort(x: seq<byte>, c: byte)
    requires |x| < 3
    ensures Emitted(x + [c]) == Emitted(x) + Emit(LastOf(x), |x|, c)
  {
    if |x| == 0 {
      EmittedAfterNone(c);
      Emptied(x, c);
    } else if |x| == 1 {
      EmittedAfterOne(x[0], c);
      Single(x, c);
    } else {
      EmittedAfterTwo(x[0], x[1], c);
      Double(x, c);
    }
  }

  lemma EmittedAfterNone(c: byte)
    ensures Emitted([c]) == Emitted([]) + Emit(0, 0, c)
  {
    EmittedOne(c);
  }

  lemma EmittedAfterOne(a: byte, c: byte)
    ensures Emitted([a, c]) == Emitted([a]) + Emit(a, 1, c)
  {
    EmittedOne(a);
    EmittedTwo(a, c);
  }

  lemma EmittedAfterTwo(a: byte, b: byte, c: byte)
    ensures Emitted([a, b, c]) == Emitted([a, b]) + Emit(b, 2, c)
  {
    EmittedTwo(a, b);
    EmittedThree(a, b, c);
  }

  lemma Emptied<T>(x: seq<T>, c: T)
    requires |x| == 0
    ensures x == [] && x + [c] == [c]
  {}

  lemma Single<T>(x: seq<T>, c: T)
    requires |x| == 1
    ensures x == [x[0]] && x + [c] == [x[0], c]
  {}

  lemma Double<T>(x: seq<T>, c: T)
    requires |x| == 2
    ensures x == [x[0], x[1]] && x + [c] == [x[0], x[1], c]
  {}

  lemma {:induction false} EmittedNext(x: seq<byte>, c: byte)
    ensures Emitted(x + [c]) == Emitted(x) + Emit(LastOf(x), |x| % 3, c)
    decreases |x|
  {
    if |x| < 3 {
      EmittedShort(x, c);
    } else {
      var y := x[3..];
      Mod3Minus(|x|, 3);
      assert (x + [c])[3..] == y + [c];
      EmittedFirst(x);
      EmittedFirst(x + [c]);
      EmittedNext(y, c);
      assert y != [] ==> LastOf(y) == LastOf(x);
    }
  }

  lemma {:induction false} EmittedAll(x: seq<byte>)
    ensures Sextets(x) == Emitted(x) + (if |x| % 3 == 0 then [] else
      [if |x| % 3 == 1 then Sextet1(LastOf(x), 0) else Sextet2(LastOf(x), 0)])
    decreases |x|
  {
    if |x| >= 3 {
      EmittedAll(x[3..]);
      EmittedFirst(x);
      SextetsFirst(x);
      if |x| > 3 {
        LastOfRest(x);
      }
    } else if |x| == 2 {
      EmittedTwo(x[0], x[1]);
      SextetsTwo(x[0], x[1]);
    }
  }

  lemma LastOfRest(x: seq<byte>)
    requires |x| > 3
    ensures LastOf(x[3..]) == LastOf(x) && |x[3..]| % 3 == |x| % 3
  {}

  lemma SpellAppend(v: seq<sextet>, d: sextet)
    ensures Spell(v + [d]) == Spell(v) + [Letter(d)]
  {}

  method EncodeStream(x: seq<byte>) returns (out: string)
    ensures out == Encode(x)
  {
    out := "";
    var val: int, valb: int := 0, -6;
    ghost var big: int, v: seq<sextet> := 0, [];
    var i := 0;
    while i < |x|
      invariant 0 <= i <= |x|
      invariant valb == -6 + 2 * (i % 3)
      invariant val == Int32(big) && val % 256 == LastOf(x[..i])
      invariant v == Emitted(x[..i]) && out == Spell(v)
    {
      var c := x[i];
      ghost var last, r, start := LastOf(x[..i]), i % 3, v;
      assert x[..i + 1] == x[..i] + [c];
      EmittedNext(x[..i], c);
      Mod3(i);
      WrapOnce(big, 256, c);
      TakenAfterByte(val, last, r, c);
      big := big * 256 + c;
      val := Push(val, 256, c);
      valb := valb + 8;
      while valb >= 0
        invariant valb == 2 + 2 * r || (r == 2 && valb == 0) || valb == (if r == 2 then -6 else -4 + 2 * r)
        invariant out == Spell(v)
        invariant valb == 2 + 2 * r ==> v == start
        invariant valb == 0 ==> v == start + [Taken(val, 6)]
        invariant valb < 0 ==> v == start + Emit(last, r, c)
        decreases valb + 6
      {
        SpellAppend(v, Taken(val, valb));
        v := v + [Taken(val, valb)];
        out := out + [Letter(ShiftRight(val, valb) % 64)];
        valb := valb - 6;
      }
      i := i + 1;
    }
    assert x[..i] == x;
    EmittedAll(x);
    if valb > -6 {
      TakenAfterByte(val, LastOf(x), i % 3, 0);
      SpellAppend(v, ShiftRight(Push(val, 256, 0), valb + 8) % 64);
      out := out + [Letter(ShiftRight(Push(val, 256, 0), valb + 8) % 64)];
    }
  }

  // ---------------------------------------------------------------- the block encoder

  lemma {:induction false} SextetsConcat(x: seq<byte>, y: seq<byte>)
    requires |x| % 3 == 0
    ensures Sextets(x + y) == Sextets(x) + Sextets(y)
    decreases |x|
  {
    if x == [] {
      assert x + y == y;
    } else {
      assert (x + y)[3..] == x[3..] + y;
      SextetsConcat(x[3..], y);
    }
  }

  lemma SpellConcat(v: seq<sextet>, w: seq<sextet>)
    ensures Spell(v + w) == Spell(v) + Spell(w)
  {}

  function Block(b: seq<byte>): (v: seq<sextet>)
    requires |b| == 3
    ensures |v| == 4
  {
    [Sextet0(b[0]), Sextet1(b[0], b[1]), Sextet2(b[1], b[2]), Sextet3(b[2])]
  }

  /** Fills the four sextets of one block; masks and shifts are written as quotients and remainders. */
  method FillBlock(three: array<byte>, four: array<sextet>)
    requires three.Length == 3 && four.Length == 4
    modifies four
    ensures four[..] == Block(three[..])
  {
    four[0] := three[0] / 4;
    four[1] := three[0] % 4 * 16 + three[1] / 16;
    four[2] := three[1] % 16 * 4 + three[2] / 64;
    four[3] := three[2] % 64;
  }

  /** Appends the first `n` letters of a block. */
  method AppendLetters(out: string, four: array<sextet>, n: nat) returns (r: string)
    requires n <= four.Length
    ensures r == out + Spell(four[..n])
  {
    r := out;
    var j := 0;
    while j < n
      invariant 0 <= j <= n
      invariant r == out + Spell(four[..j])
    {
      SpellAppend(four[..j], four[j]);
      assert four[..j + 1] == four[..j] + [four[j]];
      r := r + [Letter(four[j])];
      j := j + 1;
    }
  }

  /** The letters of a full block. */
  method EncodeFull(out: string, three: array<byte>, four: array<sextet>) returns (ret: string)
    requires three.Length == 3 && four.Length == 4
    modifies four
    ensures ret == out + Spell(Block(three[..]))
  {
    FillBlock(three, four);
    assert four[..4] == four[..];
    ret := AppendLetters(out, four, 4);
  }

  method EncodeBlocks(x: seq<byte>) returns (ret: string)
    ensures ret == EncodePadded(x)
  {
    ret := "";
    var three := new byte[3](_ => 0);
    var four := new sextet[4](_ => 0);
    ghost var done, tail: seq<byte> := [], [];
    var i, pos := 0, 0;
    while pos < |x|
      invariant 0 <= pos <= |x| && x[..pos] == done + tail
      invariant Grouped(done) && |tail| == i < 3
      invariant three[..i] == tail
      invariant ret == Encode(done)
    {
      three[i] := x[pos];
      NextByte(x, pos, done, tail);
      tail := tail + [x[pos]];
      assert three[..i + 1] == tail;
      i, pos := i + 1, pos + 1;
      if i == 3 {
        assert three[..] == tail;
        ret := EncodeFull(ret, three, four);
        EncodeBlock(done, tail);
        done, tail := done + tail, [];
        assert done + tail == done;
        i := 0;
      }
    }
    assert x == x[..pos];
    EncodeSplit(done, tail);
    if i != 0 {
      ret := EncodeTail(ret, three, four, i);
    }
  }

  predicate Grouped(x: seq<byte>) {
    |x| % 3 == 0
  }

  lemma NextByte(x: seq<byte>, pos: nat, done: seq<byte>, tail: seq<byte>)
    requires pos < |x| && x[..pos] == done + tail
    ensures x[..pos + 1] == done + (tail + [x[pos]])
  {
    assert x[..pos + 1] == x[..pos] + [x[pos]];
  }

  lemma EncodeBlock(done: seq<byte>, b: seq<byte>)
    requires Grouped(done) && |b| == 3
    ensures Grouped(done + b) && Encode(done + b) == Encode(done) + Spell(Block(b))
  {
    SextetsConcat(done, b);
    SextetsFirst(b);
    assert Sextets(b) == Block(b);
    SpellConcat(Sextets(done), Sextets(b));
    Mod3Minus(|done + b|, |done|);
  }

  lemma EncodeSplit(done: seq<byte>, tail: seq<byte>)
    requires Grouped(done)
    ensures EncodePadded(done + tail) == Encode(done) + Encode(tail) + Padding(|tail|)
  {
    SextetsConcat(done, tail);
    SpellConcat(Sextets(done), Sextets(tail));
    Mod3Minus(|done + tail|, |done|);
  }

  lemma Mod3Minus(n: nat, from: nat)
    requires from <= n && from % 3 == 0
    ensures (n - from) % 3 == n % 3
  {}

  /** The last block when it is not full: filled up with zeros, cut off after `i + 1` letters, padded. */
  method EncodeTail(out: string, three: array<byte>, four: array<sextet>, n: nat) returns (ret: string)
    requires three.Length == 3 && four.Length == 4 && 0 < n < 3
    modifies three, four
    ensures ret == out + Encode(old(three[..n])) + Padding(n)
  {
    ghost var tail := three[..n];
    var j := n;
    while j < 3
      invariant n <= j <= 3 && three[..n] == tail
      invariant forall k :: n <= k < j ==> three[k] == 0
    {
      three[j] := 0;
      j := j + 1;
    }
    assert three[0] == tail[0] && (n == 2 ==> three[1] == tail[1]);
    FillBlock(three, four);
    assert four[..n + 1] == Sextets(tail);
    ret := AppendLetters(out, four, n + 1);
    ghost var letters := ret;
    var i := n;
    while i < 3
      invariant n <= i <= 3
      invariant ret == letters + Padding(n)[..i - n]
    {
      assert Padding(n)[..i + 1 - n] == Padding(n)[..i - n] + "=";
      ret := ret + "=";
      i := i + 1;
    }
    assert Padding(n)[..3 - n] == Padding(n);
  }

  // ---------------------------------------------------------------- the decoder

  function LastSextet(v: seq<sextet>): sextet {
    if v == [] then 0 else v[|v| - 1]
  }

  function Completed(last: sextet, r: nat, d: sextet): (x: seq<byte>) {
    if r == 0 then [] else if r == 1 then [Byte0(last, d)] else if r == 2 then [Byte1(last, d)] else [Byte2(last, d)]
  }

  lemma BytesOfTwo(v: seq<sextet>, d: sextet)
    requires |v| == 1
    ensures Bytes(v + [d]) == Bytes(v) + Completed(LastSextet(v), 1, d)
  {
    assert Bytes(v + [d]) == [Byte0(v[0], d)];
  }

  lemma BytesOfThree(v: seq<sextet>, d: sextet)
    requires |v| == 2
    ensures Bytes(v + [d]) == Bytes(v) + Completed(LastSextet(v), 2, d)
  {
    assert Bytes(v + [d]) == [Byte0(v[0], v[1]), Byte1(v[1], d)];
  }

  lemma BytesOfFour(v: seq<sextet>, d: sextet)
    requires |v| == 3
    ensures Bytes(v + [d]) == Bytes(v) + Completed(LastSextet(v), 3, d)
  {
    BytesFirst(v + [d]);
    assert (v + [d])[4..] == [];
    assert Bytes(v) == [Byte0(v[0], v[1]), Byte1(v[1], v[2])];
  }

  lemma BytesNextShort(v: seq<sextet>, d: sextet)
    requires |v| < 4
    ensures Bytes(v + [d]) == Bytes(v) + Completed(LastSextet(v), |v|, d)
  {
    if |v| == 1 {
      BytesOfTwo(v, d);
    } else if |v| == 2 {
      BytesOfThree(v, d);
    } else if |v| == 3 {
      BytesOfFour(v, d);
    }
  }

  lemma Mod4(n: nat)
    ensures (n + 4) % 4 == n % 4
    ensures (n + 1) % 4 == if n % 4 == 3 then 0 else n % 4 + 1
    ensures n < 4 ==> n % 4 == n
  {}

  lemma Mod3(n: nat)
    ensures (n + 1) % 3 == if n % 3 == 2 then 0 else n % 3 + 1
  {}

  lemma {:induction false} BytesNext(v: seq<sextet>, d: sextet)
    ensures Bytes(v + [d]) == Bytes(v) + Completed(LastSextet(v), |v| % 4, d)
    decreases |v|
  {
    Mod4(|v|);
    if |v| < 4 {
      BytesNextShort(v, d);
    } else {
      var w := v[4..];
      Mod4(|w|);
      assert (v + [d])[4..] == w + [d];
      BytesNext(w, d);
      assert w != [] ==> LastSextet(w) == LastSextet(v);
      BytesFirst(v);
      BytesFirst(v + [d]);
    }
  }

  lemma {:induction false} LettersStep(s: string, i: nat)
    requires i <= |s| && IsLetters(s[..i])
    ensures s[..i] <= Letters(s)
    ensures i == |s| || ValueOf(s[i]) == -1 ==> Letters(s) == s[..i]
  {
    if i > 0 {
      assert s[1..][..i - 1] == s[..i][1..];
      assert IsLetters(s[1..][..i - 1]) && ValueOf(s[..i][0]) >= 0;
      LettersStep(s[1..], i - 1);
      assert [s[0]] + s[1..][..i - 1] == s[..i];
    }
  }

  /** The characters of the source's strings are bytes. */
  predicate IsByteString(s: string) {
    forall i :: 0 <= i < |s| ==> s[i] as int < 256
  }

  /** The table maps the first `n` letters of the alphabet to their values, and all else to -1. */
  ghost predicate HoldsLetters(table: seq<int>, n: int) {
    |table| == 256 &&
    forall k :: 0 <= k < 256 ==> table[k] == if ValueOf(k as char) < n then ValueOf(k as char) else -1
  }

  /** The table of the decoder. */
  method LetterTable() returns (table: array<int>)
    ensures fresh(table) && table.Length == 256
    ensures HoldsLetters(table[..], 64)
  {
    table := new int[256](_ => -1);
    var i: int := 0;
    while i < 64
      invariant 0 <= i <= 64 && table.Length == 256
      invariant HoldsLetters(table[..], i)
    {
      table[Letter(i) as int] := i;
      forall k {:trigger table[k]} | 0 <= k < 256 && ValueOf(k as char) == i ensures k == Letter(i) as int {
        LetterOfValue(k as char);
      }
      i := i + 1;
    }
  }

  lemma ValuesNext(s: string, i: nat)
    requires i < |s| && IsLetters(s[..i]) && ValueOf(s[i]) >= 0
    ensures IsLetters(s[..i + 1]) && Values(s[..i + 1]) == Values(s[..i]) + [ValueOf(s[i])]
  {
    assert s[..i + 1] == s[..i] + [s[i]];
  }

  function OffByte(val: int, valb: nat): byte
    requires valb <= 6
  {
    ShiftRight(val, valb) % 256
  }

  /** The byte that comes off after a sextet, by how many sextets came before it. */
  lemma OffAfterSextet(v: seq<sextet>, val: int, d: sextet)
    requires val % 64 == LastSextet(v)
    ensures var w := Push(val, 64, d);
      && w % 64 == d && LastSextet(v + [d]) == d
      && Bytes(v + [d]) == Bytes(v) + if |v| % 4 == 0 then [] else [OffByte(w, 6 - 2 * (|v| % 4))]
  {
    ShiftInSextet(val, LastSextet(v), d);
    BytesNext(v, d);
  }

  /** The decoder after the sextets `v`: `valb` counts in a small range, `val` is the unbounded accumulator
      `big` wrapped to 32 bits, and all bytes that are complete are out. */
  ghost predicate DecoderSync(val: int, valb: int, out: seq<byte>, big: int, v: seq<sextet>) {
    && valb == (if |v| % 4 == 0 then -8 else -2 * (|v| % 4))
    && val == Int32(big) && val % 64 == LastSextet(v)
    && out == Bytes(v)
  }

  /** One letter in the decoder's loop. */
  method DecodeLetter(val: int, valb: int, out: seq<byte>, d: sextet, ghost big: int, ghost v: seq<sextet>)
    returns (val': int, valb': int, out': seq<byte>)
    requires DecoderSync(val, valb, out, big, v)
    ensures DecoderSync(val', valb', out', big * 64 + d, v + [d])
  {
    Mod4(|v|);
    WrapOnce(big, 64, d);
    OffAfterSextet(v, val, d);
    val', valb', out' := Push(val, 64, d), valb + 6, out;
    if valb' >= 0 {
      out' := out' + [OffByte(val', valb')];
      valb' := valb' - 8;
    }
  }

  method DecodeStream(s: string) returns (out: seq<byte>)
    requires IsByteString(s)
    ensures out == Decode(s)
  {
    out := [];
    var table := LetterTable();
    var val: int, valb: int := 0, -8;
    ghost var big: int, v: seq<sextet> := 0, [];
    var i := 0;
    while i < |s|
      invariant 0 <= i <= |s| && table.Length == 256
      invariant HoldsLetters(table[..], 64)
      invariant IsLetters(s[..i]) && v == Values(s[..i])
      invariant DecoderSync(val, valb, out, big, v)
    {
      var d := table[s[i] as int];
      if d == -1 {
        break;
      }
      ValuesNext(s, i);
      val, valb, out := DecodeLetter(val, valb, out, d, big, v);
      big, v := big * 64 + d, v + [d];
      i := i + 1;
    }
    LettersStep(s, i);
    assert i == |s| ==> s[..i] == s;
  }

  // ---------------------------------------------------------------- round trips

  lemma Values0(a: byte, b: byte, c: byte)
    ensures Byte0(Sextet0(a), Sextet1(a, b)) == a
    ensures Byte1(Sextet1(a, b), Sextet2(b, c)) == b
    ensures Byte2(Sextet2(b, c), Sextet3(c)) == c
  {}

  lemma BytesOfOne(a: byte)
    ensures Bytes(Sextets([a])) == [a]
  {
    SextetsOne(a);
    BytesTwo(Sextet0(a), Sextet1(a, 0));
    Values0(a, 0, 0);
  }

  lemma BytesOfPair(a: byte, b: byte)
    ensures Bytes(Sextets([a, b])) == [a, b]
  {
    SextetsTwo(a, b);
    BytesThree(Sextet0(a), Sextet1(a, b), Sextet2(b, 0));
    Values0(a, b, 0);
  }

  lemma {:induction false} BytesOfSextets(x: seq<byte>)
    ensures Bytes(Sextets(x)) == x
    decreases |x|
  {
    if |x| == 1 {
      BytesOfOne(x[0]);
      assert x == [x[0]];
    } else if |x| == 2 {
      BytesOfPair(x[0], x[1]);
      assert x == [x[0], x[1]];
    } else if |x| >= 3 {
      var v := Sextets(x);
      SextetsFirst(x);
      Values0(x[0], x[1], x[2]);
      BytesFirst(v);
      assert v[4..] == Sextets(x[3..]);
      BytesOfSextets(x[3..]);
      assert x == [x[0], x[1], x[2]] + x[3..];
    }
  }

  lemma ValuesOfSpell(v: seq<sextet>)
    ensures Values(Spell(v)) == v
  {}

  lemma LettersThen(s: string, t: string)
    requires IsLetters(s) && (t != "" ==> ValueOf(t[0]) == -1)
    ensures Letters(s + t) == s
  {
    assert (s + t)[..|s|] == s;
    LettersStep(s + t, |s|);
  }

  /** Decoding undoes both encodings, for every byte string: it stops at the padding. */
  lemma DecodeEncode(x: seq<byte>)
    ensures Decode(Encode(x)) == x
    ensures Decode(EncodePadded(x)) == x
  {
    var s := Encode(x);
    LettersThen(s, "");
    assert s + "" == s;
    LettersThen(s, Padding(|x|));
    ValuesOfSpell(Sextets(x));
    BytesOfSextets(x);
  }

  /** What an encoder can have written: letters only, not one more than a multiple of four, and zeros in
      the bits of the last letter that no byte fills (RFC 4648 section 3.5). */
  predicate Canonical(s: string) {
    && IsLetters(s) && |s| % 4 != 1
    && (|s| % 4 == 2 ==> ValueOf(s[|s| - 1]) % 16 == 0)
    && (|s| % 4 == 3 ==> ValueOf(s[|s| - 1]) % 4 == 0)
  }

  predicate CanonicalValues(v: seq<sextet>) {
    && |v| % 4 != 1
    && (|v| % 4 == 2 ==> LastSextet(v) % 16 == 0)
    && (|v| % 4 == 3 ==> LastSextet(v) % 4 == 0)
  }

  lemma Bits0(p: sextet, q: sextet, r: sextet, s: sextet)
    ensures Sextet0(Byte0(p, q)) == p
    ensures Sextet1(Byte0(p, q), Byte1(q, r)) == q
    ensures Sextet2(Byte1(q, r), Byte2(r, s)) == r
    ensures Sextet3(Byte2(r, s)) == s
    ensures q % 16 == 0 ==> Sextet1(Byte0(p, q), 0) == q
    ensures r % 4 == 0 ==> Sextet2(Byte1(q, r), 0) == r
  {}

  lemma SextetsOfTwo(p: sextet, q: sextet)
    requires q % 16 == 0
    ensures Sextets(Bytes([p, q])) == [p, q]
  {
    BytesTwo(p, q);
    SextetsOne(Byte0(p, q));
    Bits0(p, q, 0, 0);
  }

  lemma SextetsOfThree(p: sextet, q: sextet, r: sextet)
    requires r % 4 == 0
    ensures Sextets(Bytes([p, q, r])) == [p, q, r]
  {
    BytesThree(p, q, r);
    SextetsTwo(Byte0(p, q), Byte1(q, r));
    Bits0(p, q, r, 0);
  }

  lemma SextetsOfFour(p: sextet, q: sextet, r: sextet, s: sextet, x: seq<byte>)
    ensures Sextets([Byte0(p, q), Byte1(q, r), Byte2(r, s)] + x) == [p, q, r, s] + Sextets(x)
  {
    var y := [Byte0(p, q), Byte1(q, r), Byte2(r, s)] + x;
    SextetsFirst(y);
    assert y[3..] == x;
    Bits0(p, q, r, s);
  }

  lemma {:induction false} SextetsOfBytes(v: seq<sextet>)
    requires CanonicalValues(v)
    ensures Sextets(Bytes(v)) == v
    decreases |v|
  {
    if |v| == 2 {
      SextetsOfTwo(v[0], v[1]);
      assert v == [v[0], v[1]];
    } else if |v| == 3 {
      SextetsOfThree(v[0], v[1], v[2]);
      assert v == [v[0], v[1], v[2]];
    } else if |v| >= 4 {
      CanonicalTail(v);
      SextetsOfBytes(v[4..]);
      BytesFirst(v);
      SextetsOfFour(v[0], v[1], v[2], v[3], Bytes(v[4..]));
      assert v == [v[0], v[1], v[2], v[3]] + v[4..];
    }
  }

  lemma CanonicalTail(v: seq<sextet>)
    requires CanonicalValues(v) && |v| >= 4
    ensures CanonicalValues(v[4..])
  {
    Mod4(|v| - 4);
    assert v[4..] != [] ==> LastSextet(v[4..]) == LastSextet(v);
  }

  lemma {:induction false} SextetsCanonical(x: seq<byte>)
    ensures CanonicalValues(Sextets(x))
    decreases |x|
  {
    if |x| >= 3 {
      var v := Sextets(x[3..]);
      SextetsCanonical(x[3..]);
      Mod4(|v|);
      assert v != [] ==> LastSextet(Sextets(x)) == LastSextet(v);
    }
  }

  lemma SpellOfValues(s: string)
    requires IsLetters(s)
    ensures Spell(Values(s)) == s
  {
    forall i | 0 <= i < |s| ensures Spell(Values(s))[i] == s[i] {
      LetterOfValue(s[i]);
    }
  }

  /** Encoding undoes decoding exactly on the canonical strings. */
  lemma {:induction false} EncodeDecode(s: string)
    ensures Encode(Decode(s)) == s <==> Canonical(s)
  {
    if IsLetters(s) {
      LettersThen(s, "");
      assert s + "" == s;
      SpellOfValues(s);
      if Canonical(s) {
        SextetsOfBytes(Values(s));
      }
    }
    SextetsCanonical(Decode(s));
    if Encode(Decode(s)) == s {
      ValuesOfSpell(Sextets(Decode(s)));
    }
  }

  /** The length of an encoding is four thirds of the length of the bytes, rounded up; padding makes it
      a multiple of four. */
  lemma Lengths(x: seq<byte>)
    ensures |Encode(x)| == (4 * |x| + 2) / 3
    ensures |EncodePadded(x)| == 4 * ((|x| + 2) / 3)
  {
    SextetsLength(x);
    PaddedLength(|x|);
  }

  /** The padding, spelt out. */
  lemma PaddingSigns(x: seq<byte>)
    ensures |x| % 3 == 0 ==> EncodePadded(x) == Encode(x)
    ensures |x| % 3 == 1 ==> EncodePadded(x) == Encode(x) + "=="
    ensures |x| % 3 == 2 ==> EncodePadded(x) == Encode(x) + "="
  {
    assert Encode(x) + "" == Encode(x);
  }

  lemma PaddedLength(n: nat)
    ensures (4 * n + 2) / 3 + |Padding(n)| == 4 * ((n + 2) / 3)
  {
    var k, r := n / 3, n % 3;
    assert n == 3 * k + r;
    assert (4 * n + 2) / 3 == 4 * k + (4 * r + 2) / 3;
  }

  lemma {:induction false} SextetsLength(x: seq<byte>)
    ensures |Sextets(x)| == (4 * |x| + 2) / 3
    decreases |x|
  {
    if |x| >= 3 {
      SextetsLength(x[3..]);
    }
  }

  lemma {:induction false} BytesLength(v: seq<sextet>)
    ensures |Bytes(v)| == 3 * |v| / 4
    decreases |v|
  {
    if |v| >= 4 {
      BytesLength(v[4..]);
    }
  }

  /** On letters in groups of four the codec is a bijection: strings of `4 * n` letters and strings of
      `3 * n` bytes -- 24-letter salts and 18 bytes, 64-letter keys and 48 bytes. */
  lemma GroupsBijection(n: nat, s: string, x: seq<byte>)
    ensures IsLetters(s) && |s| == 4 * n ==> |Decode(s)| == 3 * n && Encode(Decode(s)) == s
    ensures |x| == 3 * n ==>
      IsLetters(Encode(x)) && |Encode(x)| == 4 * n && EncodePadded(x) == Encode(x) && Decode(Encode(x)) == x
  {
    if IsLetters(s) && |s| == 4 * n {
      assert |s| % 4 == 0;
      EncodeDecode(s);
      LettersThen(s, "");
      assert s + "" == s;
      BytesLength(Values(s));
    }
    if |x| == 3 * n {
      assert |x| % 3 == 0;
      SextetsLength(x);
      assert Encode(x) + "" == Encode(x);
      DecodeEncode(x);
    }
  }
}
