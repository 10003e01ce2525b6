// `crc32` and `crc32_inc` (lib/include/crc32.h): the table-driven loop computes the bitwise
// checksum, also in pieces, and no change of a single byte goes unnoticed.
module Crc {
  import opened CrcTable

  /** A data byte enters the register. */
  function Mix(c: bv32, b: bv8): bv32 { c ^ (b as bv32) }

  function Not(c: bv32): bv32 { c ^ 0xFFFF_FFFF }

  /** The bitwise checksum register after the bytes of `s`. */
  function Register(c: bv32, s: seq<bv8>): bv32 {
    if s == [] then c else Bits8(Mix(Register(c, s[..|s| - 1]), s[|s| - 1]))
  }

  /** The checksum of section 8 of RFC 1952, bit by bit. */
  function Checksum(s: seq<bv8>): bv32 {
    Not(Register(0xFFFF_FFFF, s))
  }

  // ----- a step splits over exclusive or -----

  function Xor(x: bv32, y: bv32): bv32 { x ^ y }

  lemma BitXor(x: bv32, y: bv32)
    ensures Bit(Xor(x, y)) == Xor(Bit(x), Bit(y))
  {
    if x & 1 == 1 {
      if y & 1 == 1 { OddOdd(x, y); } else { OddEven(x, y); }
    } else {
      if y & 1 == 1 { OddEven(y, x); XorSwap(x, y); XorSwap(Bit(x), Bit(y)); } else { EvenEven(x, y); }
    }
    hide *;
  }

  lemma XorSwap(x: bv32, y: bv32)
    ensures Xor(x, y) == Xor(y, x)
  {
  }

  lemma OddOdd(x: bv32, y: bv32)
    requires x & 1 == 1 && y & 1 == 1
    ensures Bit(Xor(x, y)) == Xor(Bit(x), Bit(y))
  {
  }

  lemma OddEven(x: bv32, y: bv32)
    requires x & 1 == 1 && y & 1 != 1
    ensures Bit(Xor(x, y)) == Xor(Bit(x), Bit(y))
  {
  }

  lemma EvenEven(x: bv32, y: bv32)
    requires x & 1 != 1 && y & 1 != 1
    ensures Bit(Xor(x, y)) == Xor(Bit(x), Bit(y))
  {
  }

  lemma Bits8Xor(x: bv32, y: bv32)
    ensures Bits8(Xor(x, y)) == Xor(Bits8(x), Bits8(y))
  {
    hide Bit, Xor;
    var x1, y1 := Bit(x), Bit(y);
    var x2, y2 := Bit(x1), Bit(y1);
    var x3, y3 := Bit(x2), Bit(y2);
    var x4, y4 := Bit(x3), Bit(y3);
    var x5, y5 := Bit(x4), Bit(y4);
    var x6, y6 := Bit(x5), Bit(y5);
    var x7, y7 := Bit(x6), Bit(y6);
    BitXor(x, y);
    BitXor(x1, y1);
    BitXor(x2, y2);
    BitXor(x3, y3);
    BitXor(x4, y4);
    BitXor(x5, y5);
    BitXor(x6, y6);
    BitXor(x7, y7);
  }

  /** Eight steps with nothing in the low byte only shift. */
  lemma Bits8High(c: bv32)
    ensures Bits8(c & 0xFFFF_FF00) == c >> 8
  {
  }

  lemma Halves(c: bv32)
    ensures Xor(c & 0xFF, c & 0xFFFF_FF00) == c && c & 0xFF < 256
  {
  }

  /** One turn of the loop at line 62. */
  function ByTable(c: bv32, b: bv8): bv32 {
    Xor(Table(Mix(c, b) & 0xFF), c >> 8)
  }

  lemma ByTableIs(c: bv32, b: bv8)
    ensures ByTable(c, b) == Xor(Table(Mix(c, b) & 0xFF), Mix(c, b) >> 8)
  {
    hide Table, Xor, Mix;
    MixHigh(c, b);
  }

  lemma MixHigh(c: bv32, b: bv8)
    ensures Mix(c, b) >> 8 == c >> 8
  {
  }

  /** One byte by table is eight bits by definition. */
  lemma ByteStep(c: bv32, b: bv8)
    ensures ByTable(c, b) == Bits8(Mix(c, b))
  {
    hide *;
    var x := Mix(c, b);
    ByTableIs(c, b);
    Halves(x);
    TableIs(x & 0xFF);
    Bits8High(x);
    Bits8Xor(x & 0xFF, x & 0xFFFF_FF00);
  }

  // ----- the loops -----

  /** `crc32_inc`. */
  method Crc32Inc(buf: array<bv8>, crc: bv32) returns (r: bv32)
    ensures r == Not(Register(Not(crc), buf[..]))
  {
    hide Bits8, ByTable, Mix, Not;
    var c := Not(crc);
    for i := 0 to buf.Length
      invariant c == Register(Not(crc), buf[..i])
    {
      ByteStep(c, buf[i]);
      assert buf[..i + 1][..i] == buf[..i];
      c := ByTable(c, buf[i]);
    }
    assert buf[..buf.Length] == buf[..];
    r := Not(c);
  }

  /** `crc32`. */
  method Crc32(buf: array<bv8>) returns (r: bv32)
    ensures r == Checksum(buf[..])
  {
    hide Register;
    r := Crc32Inc(buf, 0);
  }

  lemma {:induction false} RegisterJoin(c: bv32, a: seq<bv8>, b: seq<bv8>)
    ensures Register(c, a + b) == Register(Register(c, a), b)
  {
    hide Bits8, Mix;
    if b == [] {
      assert a + b == a;
    } else {
      RegisterJoin(c, a, b[..|b| - 1]);
      assert (a + b)[..|a + b| - 1] == a + b[..|b| - 1];
    }
  }

  lemma NotNot(c: bv32)
    ensures Not(Not(c)) == c
  {
  }

  /** Feeding two pieces one after the other is one pass over both. */
  lemma IncrementalIs(a: seq<bv8>, b: seq<bv8>)
    ensures Not(Register(Not(Checksum(a)), b)) == Checksum(a + b)
  {
    hide Register, Not;
    RegisterJoin(0xFFFF_FFFF, a, b);
    NotNot(Register(0xFFFF_FFFF, a));
  }

  // ----- error detection -----

  lemma BitInjective(x: bv32, y: bv32)
    requires Bit(x) == Bit(y)
    ensures x == y
  {
  }

  lemma Bits8Injective(x: bv32, y: bv32)
    requires Bits8(x) == Bits8(y)
    ensures x == y
  {
    hide Bit;
    var x1, y1 := Bit(x), Bit(y);
    var x2, y2 := Bit(x1), Bit(y1);
    var x3, y3 := Bit(x2), Bit(y2);
    var x4, y4 := Bit(x3), Bit(y3);
    var x5, y5 := Bit(x4), Bit(y4);
    var x6, y6 := Bit(x5), Bit(y5);
    var x7, y7 := Bit(x6), Bit(y6);
    BitInjective(x7, y7);
    BitInjective(x6, y6);
    BitInjective(x5, y5);
    BitInjective(x4, y4);
    BitInjective(x3, y3);
    BitInjective(x2, y2);
    BitInjective(x1, y1);
    BitInjective(x, y);
  }

  lemma MixInjective(x: bv32, y: bv32, b: bv8)
    requires Mix(x, b) == Mix(y, b)
    ensures x == y
  {
    assert (x ^ (b as bv32)) ^ (b as bv32) == x;
    assert (y ^ (b as bv32)) ^ (b as bv32) == y;
  }

  lemma MixByte(c: bv32, x: bv8, y: bv8)
    requires Mix(c, x) == Mix(c, y)
    ensures x == y
  {
    assert (c ^ (x as bv32)) ^ c == x as bv32;
    assert (c ^ (y as bv32)) ^ c == y as bv32;
  }

  lemma RegisterNext(c: bv32, s: seq<bv8>, b: bv8)
    ensures Register(c, s + [b]) == Bits8(Mix(Register(c, s), b))
  {
    hide Bits8, Mix;
    assert (s + [b])[..|s|] == s;
  }

  /** Different registers stay different over the same bytes. */
  lemma {:induction false} RegisterInjective(x: bv32, y: bv32, s: seq<bv8>)
    requires Register(x, s) == Register(y, s)
    ensures x == y
  {
    hide Bits8, Mix;
    if s != [] {
      var t, b := s[..|s| - 1], s[|s| - 1];
      Bits8Injective(Mix(Register(x, t), b), Mix(Register(y, t), b));
      MixInjective(Register(x, t), Register(y, t), b);
      RegisterInjective(x, y, t);
    }
  }

  /** Two buffers that differ in one byte have different checksums. */
  lemma DetectsByte(a: seq<bv8>, x: bv8, y: bv8, b: seq<bv8>)
    requires x != y
    ensures Checksum(a + [x] + b) != Checksum(a + [y] + b)
  {
    hide Bits8, Mix, Not, Register;
    var c: bv32 := 0xFFFF_FFFF;
    var r := Register(c, a);
    if Checksum(a + [x] + b) == Checksum(a + [y] + b) {
      NotNot(Register(c, a + [x] + b));
      NotNot(Register(c, a + [y] + b));
      RegisterJoin(c, a + [x], b);
      RegisterJoin(c, a + [y], b);
      RegisterInjective(Register(c, a + [x]), Register(c, a + [y]), b);
      RegisterNext(c, a, x);
      RegisterNext(c, a, y);
      Bits8Injective(Mix(r, x), Mix(r, y));
      MixByte(r, x, y);
    }
  }
}
