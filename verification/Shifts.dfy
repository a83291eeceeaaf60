/** Arithmetic of the codec's accumulators.  The source keeps them in signed 32-bit ints, shifts bytes and
    letters in from the right and reads letters and bytes off again, while bits that are done with are pushed
    out at the left or wrap into the sign: here is why what is read off is right all the same.

    Every step that divides by a constant is a lemma of its own, with the quotient as a parameter. */
module Shifts {
  import opened Common

  type sextet = v: int | 0 <= v < 64

  // The four sextets of the bytes a, b, c, and the three bytes of the sextets p, q, r, s.
  function Sextet0(a: byte): sextet { a / 4 }
  function Sextet1(a: byte, b: byte): sextet { a % 4 * 16 + b / 16 }
  function Sextet2(b: byte, c: byte): sextet { b % 16 * 4 + c / 64 }
  function Sextet3(c: byte): sextet { c % 64 }
  function Byte0(p: sextet, q: sextet): byte { p * 4 + q / 16 }
  function Byte1(q: sextet, r: sextet): byte { q % 16 * 16 + r / 4 }
  function Byte2(r: sextet, s: sextet): byte { r % 4 * 64 + s }

  // ---------------------------------------------------------------- what the encoder shifts

  lemma Split(v: int, low: int)
    requires v % 0x1_0000 == low
    ensures v == 0x1_0000 * (v / 0x1_0000) + low
  {}

  lemma Drop64(q: int, l: int)
    ensures (64 * q + l) % 64 == l % 64
  {}

  lemma Drop256(q: int, l: int)
    ensures (256 * q + l) % 256 == l % 256
  {}

  lemma Drop65536(q: int, l: int)
    ensures (0x1_0000 * q + l) % 0x1_0000 == l % 0x1_0000
  {}

  /** `val >> n` of a 32-bit int in two's complement: the quotient rounds towards minus infinity. */
  function ShiftRight(val: int, n: nat): int
    requires n <= 6
  {
    if n == 0 then val else if n == 1 then val / 2 else if n == 2 then val / 4 else if n == 3 then val / 8
    else if n == 4 then val / 16 else if n == 5 then val / 32 else val / 64
  }

  // What the encoder reads off an accumulator with known low 16 bits.
  lemma Shift0(v: int, low: int)
    requires v % 0x1_0000 == low
    ensures ShiftRight(v, 0) % 64 == low % 64 && ShiftRight(v, 0) % 256 == low % 256
  {
    Split(v, low);
    Drop64(0x400 * (v / 0x1_0000), low);
    Drop256(0x100 * (v / 0x1_0000), low);
  }

  lemma Shift2(v: int, low: int)
    requires v % 0x1_0000 == low
    ensures ShiftRight(v, 2) % 64 == low / 4 % 64 && ShiftRight(v, 2) % 256 == low / 4 % 256
  {
    Split(v, low);
    assert v / 4 == 0x4000 * (v / 0x1_0000) + low / 4;
    Drop64(0x100 * (v / 0x1_0000), low / 4);
    Drop256(0x40 * (v / 0x1_0000), low / 4);
  }

  lemma Shift4(v: int, low: int)
    requires v % 0x1_0000 == low
    ensures ShiftRight(v, 4) % 64 == low / 16 % 64 && ShiftRight(v, 4) % 256 == low / 16 % 256
  {
    Split(v, low);
    assert v / 16 == 0x1000 * (v / 0x1_0000) + low / 16;
    Drop64(0x40 * (v / 0x1_0000), low / 16);
    Drop256(0x10 * (v / 0x1_0000), low / 16);
  }

  lemma Shift6(v: int, low: int)
    requires v % 0x1_0000 == low
    ensures ShiftRight(v, 6) % 64 == low / 64 % 64
  {
    Split(v, low);
    assert v / 64 == 0x400 * (v / 0x1_0000) + low / 64;
    Drop64(0x10 * (v / 0x1_0000), low / 64);
  }

  /** The low bits of a value are not touched by wrapping it to 32 bits. */
  lemma LowBitsSurvive(v: int)
    ensures Int32(v) % 0x1_0000 == v % 0x1_0000
  {
    var q := (Int32(v) - v) / 0x1_0000_0000;
    assert Int32(v) == 0x1_0000 * (0x1_0000 * q) + v;
    Drop65536(0x1_0000 * q, v);
  }

  /** `(val << k) + c` of a 32-bit int, where `factor` is 2^k. */
  function Push(val: int, factor: nat, c: int): int {
    Int32(val * factor + c)
  }

  /** Wrapping in every step is wrapping once: the accumulator is the unbounded one, modulo 2^32. */
  lemma WrapOnce(big: int, factor: nat, c: int)
    ensures Push(Int32(big), factor, c) == Int32(big * factor + c)
  {
    var q := (Int32(big) - big) / 0x1_0000_0000;
    assert Int32(big) == big + 0x1_0000_0000 * q;
    assert Int32(big) * factor + c == big * factor + c + 0x1_0000_0000 * (q * factor);
    Int32Periodic(big * factor + c, q * factor);
  }

  lemma Int32Periodic(v: int, q: int)
    ensures Int32(v + 0x1_0000_0000 * q) == Int32(v)
  {}

  /** Shifting in a byte, when the lowest byte of the accumulator is known. */
  lemma ShiftInByte(val: int, last: byte, c: byte)
    requires val % 256 == last
    ensures Push(val, 256, c) % 0x1_0000 == last * 256 + c
    ensures Push(val, 256, c) % 256 == c
  {
    var v := val * 256 + c;
    LowBitsSurvive(v);
    assert v == 0x1_0000 * (val / 256) + (last * 256 + c);
    Drop65536(val / 256, last * 256 + c);
    Shift0(Int32(v), last * 256 + c);
    Drop256(last, c);
  }

  // The sextets in the two lowest bytes of the accumulator.
  lemma TwoBytes0(last: byte, c: byte)
    ensures (last * 256 + c) / 4 % 64 == Sextet0(c)
  {
    assert (last * 256 + c) / 4 == 64 * last + c / 4;
    Drop64(last, c / 4);
  }

  lemma TwoBytes1(last: byte, c: byte)
    ensures (last * 256 + c) / 16 % 64 == Sextet1(last, c)
  {
    var high, low := last / 4, last % 4;
    assert last * 256 + c == 16 * (64 * high + 16 * low) + c;
    assert (last * 256 + c) / 16 == 64 * high + (16 * low + c / 16);
    Drop64(high, 16 * low + c / 16);
  }

  lemma TwoBytes2(last: byte, c: byte)
    ensures (last * 256 + c) / 64 % 64 == Sextet2(last, c)
  {
    var high, low := last / 16, last % 16;
    assert last * 256 + c == 64 * (64 * high + 4 * low) + c;
    assert (last * 256 + c) / 64 == 64 * high + (4 * low + c / 64);
    Drop64(high, 4 * low + c / 64);
  }

  lemma TwoBytes3(last: byte, c: byte)
    ensures (last * 256 + c) % 64 == Sextet3(c)
  {
    Drop64(4 * last, c);
  }

  function Taken(val: int, valb: nat): sextet
    requires valb <= 6
  {
    ShiftRight(val, valb) % 64
  }

  // ---------------------------------------------------------------- what the decoder shifts

  // What the decoder reads off an accumulator with known low 12 bits.
  lemma LowTwelve(w: int, t: int)
    requires w % 4096 == t
    ensures w % 64 == t % 64 && w % 256 == t % 256
  {
    var h := w / 4096;
    assert w == 4096 * h + t;
    Drop64(64 * h, t);
    Drop256(16 * h, t);
  }

  lemma LowTwelveShifted(w: int, t: int)
    requires w % 4096 == t
    ensures w / 4 % 256 == t / 4 % 256 && w / 16 % 256 == t / 16 % 256
  {
    var h := w / 4096;
    assert w == 4096 * h + t;
    assert w / 4 == 1024 * h + t / 4;
    Drop256(4 * h, t / 4);
    assert w / 16 == 256 * h + t / 16;
    Drop256(h, t / 16);
  }

  lemma LowTwelveOfLow(w: int)
    ensures w % 0x1_0000 % 4096 == w % 4096
  {
    Split(w, w % 0x1_0000);
    assert w == 4096 * (16 * (w / 0x1_0000)) + w % 0x1_0000;
  }

  lemma LowTwelveSurvive(v: int)
    ensures Int32(v) % 4096 == v % 4096
  {
    LowBitsSurvive(v);
    LowTwelveOfLow(v);
    LowTwelveOfLow(Int32(v));
  }

  lemma Remainder4096(q: int, t: int)
    requires 0 <= t < 4096
    ensures (4096 * q + t) % 4096 == t
  {}

  lemma ShiftedLow(val: int, q: int, last: sextet, d: sextet)
    requires val == 64 * q + last
    ensures (val * 64 + d) % 4096 == last * 64 + d
  {
    Remainder4096(q, last * 64 + d);
    assert val * 64 + d == 4096 * q + (last * 64 + d);
  }

  lemma ShiftedSextet(val: int, last: sextet, d: sextet)
    requires val % 64 == last
    ensures Push(val, 64, d) % 4096 == last * 64 + d
  {
    LowTwelveSurvive(val * 64 + d);
    ShiftedLow(val, val / 64, last, d);
  }

  // Quotients and remainders of a number whose quotient is known.
  lemma Quotient4(v: int, q: int, r: int)
    requires v == 4 * q + r && 0 <= r < 4
    ensures v / 4 == q && v % 4 == r
  {}

  lemma Quotient16(v: int, q: int, r: int)
    requires v == 16 * q + r && 0 <= r < 16
    ensures v / 16 == q && v % 16 == r
  {}

  lemma Quotient64(v: int, q: int, r: int)
    requires v == 64 * q + r && 0 <= r < 64
    ensures v / 64 == q && v % 64 == r
  {}

  lemma Quotient256(v: int, q: int, r: int)
    requires v == 256 * q + r && 0 <= r < 256
    ensures v / 256 == q && v % 256 == r
  {}

  // The bytes in the two lowest sextets of the accumulator, cut at the places where bytes end.
  lemma TwoSextets0(last: sextet, d: sextet, h: int, l: int)
    requires d == 16 * h + l && 0 <= l < 16
    ensures (last * 64 + d) / 16 % 256 == Byte0(last, d) && (last * 64 + d) % 64 == d
  {
    Quotient16(d, h, l);
    Quotient16(last * 64 + d, 4 * last + h, l);
    Quotient64(last * 64 + d, last, d);
    Quotient256(4 * last + h, 0, 4 * last + h);
  }

  lemma TwoSextets1(last: sextet, d: sextet, h: int, l: int, h': int, l': int)
    requires last == 16 * h + l && 0 <= l < 16 && d == 4 * h' + l' && 0 <= l' < 4
    ensures (last * 64 + d) / 4 % 256 == Byte1(last, d)
  {
    Quotient16(last, h, l);
    Quotient4(d, h', l');
    Quotient4(last * 64 + d, 16 * last + h', l');
    Quotient256(16 * last + h', h, 16 * l + h');
  }

  lemma TwoSextets2(last: sextet, d: sextet, h: int, l: int)
    requires last == 4 * h + l && 0 <= l < 4
    ensures (last * 64 + d) % 256 == Byte2(last, d)
  {
    Quotient4(last, h, l);
    Quotient256(last * 64 + d, h, 64 * l + d);
  }

  /** Shifting in a sextet, when the lowest one of the accumulator is known, and what comes off then. */
  lemma ShiftInSextet(val: int, last: sextet, d: sextet)
    requires val % 64 == last
    ensures var w := Push(val, 64, d);
      && w % 64 == d
      && ShiftRight(w, 4) % 256 == Byte0(last, d)
      && ShiftRight(w, 2) % 256 == Byte1(last, d)
      && ShiftRight(w, 0) % 256 == Byte2(last, d)
  {
    ShiftedSextet(val, last, d);
    LowTwelve(Push(val, 64, d), last * 64 + d);
    LowTwelveShifted(Push(val, 64, d), last * 64 + d);
    TwoSextets0(last, d, d / 16, d % 16);
    TwoSextets1(last, d, last / 16, last % 16, d / 4, d % 4);
    TwoSextets2(last, d, last / 4, last % 4);
  }
}
