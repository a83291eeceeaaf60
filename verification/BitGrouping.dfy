/** The codec against its definition in RFC 4648, section 4: encoding regroups the bits of the bytes in
    sixes, and decoding regroups the bits of the letters in eights.

    A number is the list of its bits, highest first, cut where the bits of one group end inside another. */
module BitGrouping {
  import opened Common
  import opened Shifts
  import opened Base64

  /** The `width` lowest bits of a number, highest first. */
  function Bits(v: nat, width: nat): (b: seq<nat>)
    ensures |b| == width
  {
    if width == 0 then [] else Bits(v / 2, width - 1) + [v % 2]
  }

  function BitsOfBytes(x: seq<byte>): (b: seq<nat>)
    ensures |b| == 8 * |x|
  {
    if x == [] then [] else Bits(x[0], 8) + BitsOfBytes(x[1..])
  }

  function BitsOfSextets(v: seq<sextet>): (b: seq<nat>)
    ensures |b| == 6 * |v|
  {
    if v == [] then [] else Bits(v[0], 6) + BitsOfSextets(v[1..])
  }

  function Zeros(n: nat): (z: seq<nat>)
    ensures |z| == n
  {
    seq(n, _ => 0)
  }

  // A number that is put together from two groups of bits.
  lemma Join1(v: nat, h: nat, w: nat, l: nat)
    requires v == 2 * h + l && l < 2
    ensures Bits(v, w + 1) == Bits(h, w) + [l]
  {}

  lemma Pair(l: nat)
    requires l < 4
    ensures Bits(l, 2) == [l / 2, l % 2]
  {
    Join1(l, l / 2, 1, l % 2);
    Join1(l / 2, 0, 0, l / 2);
  }

  lemma Join2(v: nat, h: nat, w: nat, l: nat)
    requires v == 4 * h + l && l < 4
    ensures Bits(v, w + 2) == Bits(h, w) + Bits(l, 2)
  {
    var k, b := l / 2, l % 2;
    Join1(v, 2 * h + k, w + 1, b);
    Join1(2 * h + k, h, w, k);
    Pair(l);
  }

  lemma Join4(v: nat, h: nat, w: nat, l: nat)
    requires v == 16 * h + l && l < 16
    ensures Bits(v, w + 4) == Bits(h, w) + Bits(l, 4)
  {
    Join2Twice(v, 4 * h + l / 4, h, w, l, l / 4, l % 4);
  }

  lemma Join2Twice(v: nat, u: nat, h: nat, w: nat, l: nat, k: nat, b: nat)
    requires v == 4 * u + b && u == 4 * h + k && l == 4 * k + b && k < 4 && b < 4
    ensures Bits(v, w + 4) == Bits(h, w) + Bits(l, 4)
  {
    Join2(v, u, w + 2, b);
    Join2(u, h, w, k);
    Join2(l, k, 2, b);
    ShiftOne(Bits(h, w), Bits(k, 2), Bits(b, 2));
  }

  lemma Join6(v: nat, h: nat, w: nat, l: nat)
    requires v == 64 * h + l && l < 64
    ensures Bits(v, w + 6) == Bits(h, w) + Bits(l, 6)
  {
    Join2After4(v, 16 * h + l / 4, h, w, l, l / 4, l % 4);
  }

  lemma Join2After4(v: nat, u: nat, h: nat, w: nat, l: nat, k: nat, b: nat)
    requires v == 4 * u + b && u == 16 * h + k && l == 4 * k + b && k < 16 && b < 4
    ensures Bits(v, w + 6) == Bits(h, w) + Bits(l, 6)
  {
    Join2(v, u, w + 4, b);
    Join4(u, h, w, k);
    Join2(l, k, 4, b);
    ShiftOne(Bits(h, w), Bits(k, 4), Bits(b, 2));
  }

  lemma ShiftOne(a: seq<nat>, b: seq<nat>, z: seq<nat>)
    ensures a + (b + z) == (a + b) + z
  {}

  // The bits of a byte, cut where sextets are cut, and the other way round.
  lemma CutByte(a: byte)
    ensures Bits(a, 8) == Bits(a / 4, 6) + Bits(a % 4, 2)
    ensures Bits(a, 8) == Bits(a / 16, 4) + Bits(a % 16, 4)
    ensures Bits(a, 8) == Bits(a / 64, 2) + Bits(a % 64, 6)
  {
    Join2(a, a / 4, 6, a % 4);
    Join4(a, a / 16, 4, a % 16);
    Join6(a, a / 64, 2, a % 64);
  }

  lemma CutSextet(q: sextet)
    ensures Bits(q, 6) == Bits(q / 16, 2) + Bits(q % 16, 4)
    ensures Bits(q, 6) == Bits(q / 4, 4) + Bits(q % 4, 2)
  {
    Join4(q, q / 16, 2, q % 16);
    Join2(q, q / 4, 4, q % 4);
  }

  lemma BitsSextet1(a: byte, b: byte)
    ensures Bits(Sextet1(a, b), 6) == Bits(a % 4, 2) + Bits(b / 16, 4)
  {
    Join4(Sextet1(a, b), a % 4, 2, b / 16);
  }

  lemma BitsSextet2(b: byte, c: byte)
    ensures Bits(Sextet2(b, c), 6) == Bits(b % 16, 4) + Bits(c / 64, 2)
  {
    Join2(Sextet2(b, c), b % 16, 4, c / 64);
  }

  lemma BitsByte0(p: sextet, q: sextet)
    ensures Bits(Byte0(p, q), 8) == Bits(p, 6) + Bits(q / 16, 2)
  {
    Join2(Byte0(p, q), p, 6, q / 16);
  }

  lemma BitsByte1(q: sextet, r: sextet)
    ensures Bits(Byte1(q, r), 8) == Bits(q % 16, 4) + Bits(r / 4, 4)
  {
    Join4(Byte1(q, r), q % 16, 4, r / 4);
  }

  lemma BitsByte2(r: sextet, s: sextet)
    ensures Bits(Byte2(r, s), 8) == Bits(r % 4, 2) + Bits(s, 6)
  {
    Join6(Byte2(r, s), r % 4, 2, s);
  }

  // One group.
  lemma CutThrice(a: seq<nat>, b: seq<nat>, c: seq<nat>, d: seq<nat>, e: seq<nat>, f: seq<nat>)
    ensures (a + b) + (c + d) + (e + f) == a + (b + c) + (d + e) + f
  {}

  lemma GroupOfBytes(a: byte, b: byte, c: byte)
    ensures Bits(a, 8) + Bits(b, 8) + Bits(c, 8)
         == Bits(Sextet0(a), 6) + Bits(Sextet1(a, b), 6) + Bits(Sextet2(b, c), 6) + Bits(Sextet3(c), 6)
  {
    CutByte(a);
    CutByte(b);
    CutByte(c);
    BitsSextet1(a, b);
    BitsSextet2(b, c);
    CutThrice(Bits(a / 4, 6), Bits(a % 4, 2), Bits(b / 16, 4), Bits(b % 16, 4), Bits(c / 64, 2), Bits(c % 64, 6));
  }

  lemma GroupOfSextets(p: sextet, q: sextet, r: sextet, s: sextet)
    ensures Bits(Byte0(p, q), 8) + Bits(Byte1(q, r), 8) + Bits(Byte2(r, s), 8)
         == Bits(p, 6) + Bits(q, 6) + Bits(r, 6) + Bits(s, 6)
  {
    CutSextet(q);
    CutSextet(r);
    BitsByte0(p, q);
    BitsByte1(q, r);
    BitsByte2(r, s);
    CutThrice(Bits(p, 6), Bits(q / 16, 2), Bits(q % 16, 4), Bits(r / 4, 4), Bits(r % 4, 2), Bits(s, 6));
  }

  lemma BitsZero(w: nat)
    ensures Bits(0, w) == Zeros(w)
  {
    if w > 0 {
      BitsZero(w - 1);
    }
  }

  // Taking the first members off a list.
  lemma BytesCons(a: byte, rest: seq<byte>)
    ensures BitsOfBytes([a] + rest) == Bits(a, 8) + BitsOfBytes(rest)
  {
    assert ([a] + rest)[1..] == rest;
  }

  lemma SextetsCons(p: sextet, rest: seq<sextet>)
    ensures BitsOfSextets([p] + rest) == Bits(p, 6) + BitsOfSextets(rest)
  {
    assert ([p] + rest)[1..] == rest;
  }

  lemma Cons2<T>(a: T, b: T, rest: seq<T>)
    ensures [a, b] + rest == [a] + ([b] + rest)
  {}

  lemma Cons3<T>(a: T, b: T, c: T, rest: seq<T>)
    ensures [a, b, c] + rest == [a] + ([b, c] + rest)
  {}

  lemma Cons4<T>(a: T, b: T, c: T, d: T, rest: seq<T>)
    ensures [a, b, c, d] + rest == [a] + ([b, c, d] + rest)
  {}

  lemma BytesCons2(a: byte, b: byte, rest: seq<byte>)
    ensures BitsOfBytes([a, b] + rest) == Bits(a, 8) + (Bits(b, 8) + BitsOfBytes(rest))
  {
    Cons2(a, b, rest);
    BytesCons(a, [b] + rest);
    BytesCons(b, rest);
  }

  lemma BytesCons3(a: byte, b: byte, c: byte, rest: seq<byte>)
    ensures BitsOfBytes([a, b, c] + rest) == Bits(a, 8) + (Bits(b, 8) + (Bits(c, 8) + BitsOfBytes(rest)))
  {
    Cons3(a, b, c, rest);
    BytesCons(a, [b, c] + rest);
    BytesCons2(b, c, rest);
  }

  lemma SextetsCons2(p: sextet, q: sextet, rest: seq<sextet>)
    ensures BitsOfSextets([p, q] + rest) == Bits(p, 6) + (Bits(q, 6) + BitsOfSextets(rest))
  {
    Cons2(p, q, rest);
    SextetsCons(p, [q] + rest);
    SextetsCons(q, rest);
  }

  lemma SextetsCons3(p: sextet, q: sextet, r: sextet, rest: seq<sextet>)
    ensures BitsOfSextets([p, q, r] + rest) == Bits(p, 6) + (Bits(q, 6) + (Bits(r, 6) + BitsOfSextets(rest)))
  {
    Cons3(p, q, r, rest);
    SextetsCons(p, [q, r] + rest);
    SextetsCons2(q, r, rest);
  }

  lemma SextetsCons4(p: sextet, q: sextet, r: sextet, s: sextet, rest: seq<sextet>)
    ensures BitsOfSextets([p, q, r, s] + rest)
         == Bits(p, 6) + (Bits(q, 6) + (Bits(r, 6) + (Bits(s, 6) + BitsOfSextets(rest))))
  {
    Cons4(p, q, r, s, rest);
    SextetsCons(p, [q, r, s] + rest);
    SextetsCons3(q, r, s, rest);
  }

  // ---------------------------------------------------------------- the two directions

  // The bits of short lists.
  lemma BytesOne(a: byte)
    ensures BitsOfBytes([a]) == Bits(a, 8)
  {
    BytesCons(a, []);
    assert [a] + [] == [a] && Bits(a, 8) + [] == Bits(a, 8);
  }

  lemma BytesPair(a: byte, b: byte)
    ensures BitsOfBytes([a, b]) == Bits(a, 8) + Bits(b, 8)
  {
    BytesCons(a, [b]);
    BytesOne(b);
    assert [a] + [b] == [a, b];
  }

  lemma SextetsSingle(p: sextet)
    ensures BitsOfSextets([p]) == Bits(p, 6)
  {
    SextetsCons(p, []);
    assert [p] + [] == [p] && Bits(p, 6) + [] == Bits(p, 6);
  }

  lemma SextetsPair(p: sextet, q: sextet)
    ensures BitsOfSextets([p, q]) == Bits(p, 6) + Bits(q, 6)
  {
    SextetsCons(p, [q]);
    SextetsSingle(q);
    assert [p] + [q] == [p, q];
  }

  lemma SextetsTriple(p: sextet, q: sextet, r: sextet)
    ensures BitsOfSextets([p, q, r]) == Bits(p, 6) + (Bits(q, 6) + Bits(r, 6))
  {
    SextetsCons(p, [q, r]);
    SextetsPair(q, r);
    assert [p] + [q, r] == [p, q, r];
  }

  lemma RegroupOne(a: byte)
    ensures BitsOfSextets([Sextet0(a), Sextet1(a, 0)]) == BitsOfBytes([a]) + Zeros(4)
  {
    SextetsPair(Sextet0(a), Sextet1(a, 0));
    BytesOne(a);
    CutByte(a);
    BitsSextet1(a, 0);
    BitsZero(4);
    ShiftOne(Bits(a / 4, 6), Bits(a % 4, 2), Zeros(4));
  }

  lemma RegroupTwo(a: byte, b: byte)
    ensures BitsOfSextets([Sextet0(a), Sextet1(a, b), Sextet2(b, 0)]) == BitsOfBytes([a, b]) + Zeros(2)
  {
    var p, q, r, t := Bits(a / 4, 6), Bits(a % 4, 2), Bits(b / 16, 4), Bits(b % 16, 4);
    assert BitsOfSextets([Sextet0(a), Sextet1(a, b), Sextet2(b, 0)]) == p + ((q + r) + (t + Zeros(2))) by {
      SextetsTriple(Sextet0(a), Sextet1(a, b), Sextet2(b, 0));
      BitsSextet1(a, b);
      BitsSextet2(b, 0);
      BitsZero(2);
    }
    assert BitsOfBytes([a, b]) == (p + q) + (r + t) by {
      BytesPair(a, b);
      CutByte(a);
      CutByte(b);
    }
    ShiftTwo(p, q, r, t, Zeros(2));
  }

  lemma ShiftTwo(a: seq<nat>, b: seq<nat>, c: seq<nat>, d: seq<nat>, z: seq<nat>)
    ensures a + ((b + c) + (d + z)) == ((a + b) + (c + d)) + z
  {}

  lemma ShiftThree(p: seq<nat>, q: seq<nat>, r: seq<nat>, s: seq<nat>, t: seq<nat>)
    ensures (p + q) + (r + s) <= p + ((q + r) + (s + t))
  {}

  lemma RegroupThree(a: byte, b: byte, c: byte, x: seq<byte>, v: seq<sextet>)
    ensures var group := Bits(a, 8) + Bits(b, 8) + Bits(c, 8);
      && BitsOfSextets([Sextet0(a), Sextet1(a, b), Sextet2(b, c), Sextet3(c)] + v) == group + BitsOfSextets(v)
      && BitsOfBytes([a, b, c] + x) == group + BitsOfBytes(x)
  {
    SextetsCons4(Sextet0(a), Sextet1(a, b), Sextet2(b, c), Sextet3(c), v);
    BytesCons3(a, b, c, x);
    GroupOfBytes(a, b, c);
    Associate(Bits(a, 8), Bits(b, 8), Bits(c, 8), BitsOfBytes(x));
    Associate4(Bits(Sextet0(a), 6), Bits(Sextet1(a, b), 6), Bits(Sextet2(b, c), 6), Bits(Sextet3(c), 6),
               BitsOfSextets(v));
  }

  lemma Associate(a: seq<nat>, b: seq<nat>, c: seq<nat>, rest: seq<nat>)
    ensures a + (b + (c + rest)) == (a + b + c) + rest
  {}

  lemma Associate4(a: seq<nat>, b: seq<nat>, c: seq<nat>, d: seq<nat>, rest: seq<nat>)
    ensures a + (b + (c + (d + rest))) == (a + b + c + d) + rest
  {}

  /** The letters hold the bits of the bytes, in order, followed by the zeros that fill the last letter. */
  lemma {:induction false} EncodeRegroupsBits(x: seq<byte>)
    ensures BitsOfSextets(Sextets(x))
         == BitsOfBytes(x) + Zeros(if |x| % 3 == 0 then 0 else if |x| % 3 == 1 then 4 else 2)
    decreases |x|
  {
    if |x| == 1 {
      SextetsOne(x[0]);
      RegroupOne(x[0]);
      assert x == [x[0]];
    } else if |x| == 2 {
      SextetsTwo(x[0], x[1]);
      RegroupTwo(x[0], x[1]);
      assert x == [x[0], x[1]];
    } else if |x| >= 3 {
      Mod3Minus(|x|, 3);
      EncodeRegroupsBits(x[3..]);
      var rest := x[3..];
      SextetsFirst(x);
      assert x == [x[0], x[1], x[2]] + rest;
      RegroupFirst(x[0], x[1], x[2], rest, Sextets(rest),
                   Zeros(if |x| % 3 == 0 then 0 else if |x| % 3 == 1 then 4 else 2));
    }
  }

  lemma RegroupFirst(a: byte, b: byte, c: byte, x: seq<byte>, v: seq<sextet>, z: seq<nat>)
    requires BitsOfSextets(v) == BitsOfBytes(x) + z
    ensures BitsOfSextets([Sextet0(a), Sextet1(a, b), Sextet2(b, c), Sextet3(c)] + v)
         == BitsOfBytes([a, b, c] + x) + z
  {
    RegroupThree(a, b, c, x, v);
    ShiftOne(Bits(a, 8) + Bits(b, 8) + Bits(c, 8), BitsOfBytes(x), z);
  }

  lemma RegroupBytesTwo(p: sextet, q: sextet)
    ensures BitsOfBytes([Byte0(p, q)]) <= BitsOfSextets([p, q])
  {
    SextetsPair(p, q);
    BytesOne(Byte0(p, q));
    BitsByte0(p, q);
    CutSextet(q);
    ShiftOne(Bits(p, 6), Bits(q / 16, 2), Bits(q % 16, 4));
  }

  lemma RegroupBytesThree(p: sextet, q: sextet, r: sextet)
    ensures BitsOfBytes([Byte0(p, q), Byte1(q, r)]) <= BitsOfSextets([p, q, r])
  {
    SextetsTriple(p, q, r);
    BytesPair(Byte0(p, q), Byte1(q, r));
    BitsByte0(p, q);
    BitsByte1(q, r);
    CutSextet(q);
    CutSextet(r);
    ShiftThree(Bits(p, 6), Bits(q / 16, 2), Bits(q % 16, 4), Bits(r / 4, 4), Bits(r % 4, 2));
  }

  lemma RegroupBytesFour(p: sextet, q: sextet, r: sextet, s: sextet, x: seq<byte>, v: seq<sextet>)
    requires BitsOfBytes(x) <= BitsOfSextets(v)
    ensures BitsOfBytes([Byte0(p, q), Byte1(q, r), Byte2(r, s)] + x) <= BitsOfSextets([p, q, r, s] + v)
  {
    SextetsCons4(p, q, r, s, v);
    BytesCons3(Byte0(p, q), Byte1(q, r), Byte2(r, s), x);
    GroupOfSextets(p, q, r, s);
    Associate(Bits(Byte0(p, q), 8), Bits(Byte1(q, r), 8), Bits(Byte2(r, s), 8), BitsOfBytes(x));
    Associate4(Bits(p, 6), Bits(q, 6), Bits(r, 6), Bits(s, 6), BitsOfSextets(v));
  }

  /** The bytes hold the bits of the letters, as far as these fill whole bytes. */
  lemma {:induction false} DecodeRegroupsBits(v: seq<sextet>)
    ensures BitsOfBytes(Bytes(v)) <= BitsOfSextets(v)
    ensures 6 * |v| - 8 * |Bytes(v)| < 8
    decreases |v|
  {
    if |v| == 2 {
      assert v == [v[0], v[1]];
      BytesTwo(v[0], v[1]);
      RegroupBytesTwo(v[0], v[1]);
    } else if |v| == 3 {
      assert v == [v[0], v[1], v[2]];
      BytesThree(v[0], v[1], v[2]);
      RegroupBytesThree(v[0], v[1], v[2]);
    } else if |v| >= 4 {
      DecodeRegroupsBits(v[4..]);
      BytesFirst(v);
      RegroupBytesFour(v[0], v[1], v[2], v[3], Bytes(v[4..]), v[4..]);
      assert v == [v[0], v[1], v[2], v[3]] + v[4..];
    }
  }
}
