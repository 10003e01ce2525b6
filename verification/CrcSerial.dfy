// The checksum one message bit at a time (section 8 of RFC 1952, without a table and without taking
// bytes into the register), and its value on the customary check text.
module CrcSerial {
  import opened CrcTable
  import opened Crc

  /** One message bit: the register is shifted, and the polynomial is added when the bit that falls out
      and the message bit differ. */
  function Feed(c: bv32, bit: bool): bv32 {
    if (c & 1 == 1) != bit then (c >> 1) ^ 0xEDB8_8320 else c >> 1
  }

  /** Bit `k` of a byte, the lowest first. */
  predicate BitAt(b: bv8, k: nat)
    requires k < 8
  {
    (b >> k) & 1 == 1
  }

  function FeedByte(c: bv32, b: bv8, k: nat): bv32
    requires k <= 8
  {
    if k == 0 then c else Feed(FeedByte(c, b, k - 1), BitAt(b, k - 1))
  }

  function FeedAll(c: bv32, s: seq<bv8>): bv32
    decreases |s|
  {
    if s == [] then c else FeedAll(FeedByte(c, s[0], 8), s[1..])
  }

  lemma ShiftXor(c: bv32, d: bv32)
    ensures Xor(c, d) >> 1 == Xor(c >> 1, d >> 1)
  {
    hide Xor;
    XorIs(c, d);
    XorIs(c >> 1, d >> 1);
    ShiftBits(c, d);
  }

  lemma XorIs(x: bv32, y: bv32)
    ensures Xor(x, y) == x ^ y
  {
  }

  lemma ShiftBits(c: bv32, d: bv32)
    ensures (c ^ d) >> 1 == (c >> 1) ^ (d >> 1)
  {
  }

  lemma LowXor(c: bv32, d: bv32)
    ensures (Xor(c, d) & 1 == 1) == ((c & 1 == 1) != (d & 1 == 1))
  {
  }

  lemma LastXor(x: bv32, y: bv32, p: bv32)
    ensures Xor(Xor(x, y), p) == Xor(Xor(x, p), y) && Xor(x, 0) == x
  {
  }

  lemma BitIs(c: bv32)
    ensures Bit(c) == if c & 1 == 1 then Xor(c >> 1, 0xEDB8_8320) else c >> 1
  {
  }

  lemma FeedIs(c: bv32, bit: bool)
    ensures Feed(c, bit) == if (c & 1 == 1) != bit then Xor(c >> 1, 0xEDB8_8320) else c >> 1
  {
  }

  /** A register with the rest of a byte mixed in steps like the register fed one bit of it. */
  lemma MixStep(c: bv32, d: bv32, bit: bool)
    requires (d & 1 == 1) == bit
    ensures Bit(Xor(c, d)) == Xor(Feed(c, bit), d >> 1)
  {
    hide *;
    var c1, d1, low := c >> 1, d >> 1, c & 1 == 1;
    ShiftXor(c, d);
    LowXor(c, d);
    LastXor(c1, d1, 0xEDB8_8320);
    BitIs(Xor(c, d));
    FeedIs(c, bit);
    if low != bit {
      assert Bit(Xor(c, d)) == Xor(Xor(c1, d1), 0xEDB8_8320);
    } else {
      assert Bit(Xor(c, d)) == Xor(c1, d1);
    }
  }

  lemma FeedStep(c: bv32, b: bv8, k: nat)
    requires k < 8
    ensures FeedByte(c, b, 0) == c && FeedByte(c, b, k + 1) == Feed(FeedByte(c, b, k), BitAt(b, k))
  {
  }

  /** One of the eight steps. */
  lemma Turn(c: bv32, b: bv8, k: nat, d: bv32)
    requires k < 8 && (d & 1 == 1) == BitAt(b, k)
    ensures Bit(Xor(FeedByte(c, b, k), d)) == Xor(FeedByte(c, b, k + 1), d >> 1)
  {
    hide *;
    FeedStep(c, b, k);
    MixStep(FeedByte(c, b, k), d, BitAt(b, k));
  }

  lemma MixIs(c: bv32, b: bv8)
    ensures Mix(c, b) == Xor(c, b as bv32)
  {
  }

  lemma Bits8Is(x: bv32)
    ensures Bits8(x) == Bit(Bit(Bit(Bit(Bit(Bit(Bit(Bit(x))))))))
  {
    hide Bit;
  }

  /** Eight steps with a byte mixed in are eight bits fed. */
  lemma ByteFeeds(c: bv32, b: bv8)
    ensures Bits8(Mix(c, b)) == FeedByte(c, b, 8)
  {
    hide *;
    var d := b as bv32;
    BitOf(b);
    MixIs(c, b);
    FeedStep(c, b, 0);
    Bits8Is(Mix(c, b));
    Turn(c, b, 0, d);
    Turn(c, b, 1, d >> 1);
    Turn(c, b, 2, d >> 2);
    Turn(c, b, 3, d >> 3);
    Turn(c, b, 4, d >> 4);
    Turn(c, b, 5, d >> 5);
    Turn(c, b, 6, d >> 6);
    Turn(c, b, 7, d >> 7);
    LastXor(FeedByte(c, b, 8), 0, 0);
  }

  lemma BitOf(b: bv8)
    ensures var d := b as bv32; (d & 1 == 1) == BitAt(b, 0) && ((d >> 1) & 1 == 1) == BitAt(b, 1) && ((d >> 2) & 1 == 1) == BitAt(b, 2) && ((d >> 3) & 1 == 1) == BitAt(b, 3)
    ensures var d := b as bv32; ((d >> 4) & 1 == 1) == BitAt(b, 4) && ((d >> 5) & 1 == 1) == BitAt(b, 5) && ((d >> 6) & 1 == 1) == BitAt(b, 6) && ((d >> 7) & 1 == 1) == BitAt(b, 7)
    ensures var d := b as bv32; d >> 8 == 0 && (d >> 1) >> 1 == d >> 2 && (d >> 2) >> 1 == d >> 3 && (d >> 3) >> 1 == d >> 4 && (d >> 4) >> 1 == d >> 5 && (d >> 5) >> 1 == d >> 6 && (d >> 6) >> 1 == d >> 7 && (d >> 7) >> 1 == d >> 8
  {
  }

  /** The register after a message is the register fed all its bits in order. */
  lemma {:induction false} RegisterFeeds(c: bv32, s: seq<bv8>)
    ensures Register(c, s) == FeedAll(c, s)
    decreases |s|
  {
    hide Bits8, Mix, FeedByte;
    if s != [] {
      RegisterNext(c, [], s[0]);
      assert [] + [s[0]] == [s[0]];
      RegisterJoin(c, [s[0]], s[1..]);
      assert [s[0]] + s[1..] == s;
      ByteFeeds(c, s[0]);
      RegisterFeeds(FeedByte(c, s[0], 8), s[1..]);
    }
  }

  // ----- the check text -----

  lemma TextStep(s: seq<bv8>, t: seq<bv8>, b: bv8, r: bv32, next: bv32)
    requires t == s + [b] && Register(0xFFFF_FFFF, s) == r && Bits8(Mix(r, b)) == next
    ensures Register(0xFFFF_FFFF, t) == next
  {
    hide Bits8, Mix;
    RegisterNext(0xFFFF_FFFF, s, b);
  }

  /** The checksum of the digits 1 to 9 in ASCII. */
  lemma CheckValue()
    ensures Checksum([0x31, 0x32, 0x33, 0x34, 0x35, 0x36, 0x37, 0x38, 0x39]) == 0xCBF4_3926
  {
    hide *;
    Empty();
    Values1(0xFFFF_FFFF, 0x31);
    TextStep([], [0x31], 0x31, 0xFFFF_FFFF, 0x7C23_1048);
    Values2(0x7C23_1048, 0x32);
    TextStep([0x31], [0x31, 0x32], 0x32, 0x7C23_1048, 0xB0AC_BB32);
    Values3(0xB0AC_BB32, 0x33);
    TextStep([0x31, 0x32], [0x31, 0x32, 0x33], 0x33, 0xB0AC_BB32, 0x77B7_9C2D);
    Values4(0x77B7_9C2D, 0x34);
    TextStep([0x31, 0x32, 0x33], [0x31, 0x32, 0x33, 0x34], 0x34, 0x77B7_9C2D, 0x641C_1F5C);
    Values5(0x641C_1F5C, 0x35);
    TextStep([0x31, 0x32, 0x33, 0x34], [0x31, 0x32, 0x33, 0x34, 0x35], 0x35, 0x641C_1F5C, 0x340A_C5E3);
    Values6(0x340A_C5E3, 0x36);
    TextStep([0x31, 0x32, 0x33, 0x34, 0x35], [0x31, 0x32, 0x33, 0x34, 0x35, 0x36], 0x36, 0x340A_C5E3, 0xF68D_2C9E);
    Values7(0xF68D_2C9E, 0x37);
    TextStep([0x31, 0x32, 0x33, 0x34, 0x35, 0x36], [0x31, 0x32, 0x33, 0x34, 0x35, 0x36, 0x37], 0x37, 0xF68D_2C9E, 0xAFFC_9660);
    Values8(0xAFFC_9660, 0x38);
    TextStep([0x31, 0x32, 0x33, 0x34, 0x35, 0x36, 0x37], [0x31, 0x32, 0x33, 0x34, 0x35, 0x36, 0x37, 0x38], 0x38, 0xAFFC_9660, 0x651F_2550);
    Values9(0x651F_2550, 0x39);
    TextStep([0x31, 0x32, 0x33, 0x34, 0x35, 0x36, 0x37, 0x38], [0x31, 0x32, 0x33, 0x34, 0x35, 0x36, 0x37, 0x38, 0x39], 0x39, 0x651F_2550, 0x340B_C6D9);
    ChecksumIs([0x31, 0x32, 0x33, 0x34, 0x35, 0x36, 0x37, 0x38, 0x39]);
    NotValue();
  }

  lemma Empty()
    ensures Register(0xFFFF_FFFF, []) == 0xFFFF_FFFF
  {
  }

  lemma ChecksumIs(s: seq<bv8>)
    ensures Checksum(s) == Not(Register(0xFFFF_FFFF, s))
  {
  }

  lemma NotValue()
    ensures Not(0x340B_C6D9) == 0xCBF4_3926
  {
  }

  lemma Values1(c: bv32, b: bv8) requires c == 0xFFFF_FFFF && b == 0x31 ensures Bits8(Mix(c, b)) == 0x7C23_1048 {}

  lemma Values2(c: bv32, b: bv8) requires c == 0x7C23_1048 && b == 0x32 ensures Bits8(Mix(c, b)) == 0xB0AC_BB32 {}

  lemma Values3(c: bv32, b: bv8) requires c == 0xB0AC_BB32 && b == 0x33 ensures Bits8(Mix(c, b)) == 0x77B7_9C2D {}

  lemma Values4(c: bv32, b: bv8) requires c == 0x77B7_9C2D && b == 0x34 ensures Bits8(Mix(c, b)) == 0x641C_1F5C {}

  lemma Values5(c: bv32, b: bv8) requires c == 0x641C_1F5C && b == 0x35 ensures Bits8(Mix(c, b)) == 0x340A_C5E3 {}

  lemma Values6(c: bv32, b: bv8) requires c == 0x340A_C5E3 && b == 0x36 ensures Bits8(Mix(c, b)) == 0xF68D_2C9E {}

  lemma Values7(c: bv32, b: bv8) requires c == 0xF68D_2C9E && b == 0x37 ensures Bits8(Mix(c, b)) == 0xAFFC_9660 {}

  lemma Values8(c: bv32, b: bv8) requires c == 0xAFFC_9660 && b == 0x38 ensures Bits8(Mix(c, b)) == 0x651F_2550 {}

  lemma Values9(c: bv32, b: bv8) requires c == 0x651F_2550 && b == 0x39 ensures Bits8(Mix(c, b)) == 0x340B_C6D9 {}
}
