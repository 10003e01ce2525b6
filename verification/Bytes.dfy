// Machine integers and the little-endian word codec (lib/include/mem.h).
module Bytes {

  const TWO8: int := 0x100
  const TWO28: int := 0x1000_0000
  const TWO32: int := 0x1_0000_0000

  type byte = x: int | 0 <= x < 0x100
  type u16 = x: int | 0 <= x < 0x1_0000
  type u32 = x: int | 0 <= x < 0x1_0000_0000

  /** The value a 32-bit unsigned C expression keeps: wrap-around made explicit. */
  function U32(x: int): u32 {
    x % 0x1_0000_0000
  }

  lemma QuotientNonneg(x: int, k: int)
    requires 0 <= x && 0 < k
    ensures 0 <= x / k
  {
  }

  /** `read_u32`: four bytes, least significant first. */
  function ReadU32(s: seq<byte>, i: nat): u32
    requires i + 4 <= |s|
  {
    var b0: int, b1: int, b2: int, b3: int := s[i], s[i + 1], s[i + 2], s[i + 3];
    b0 + 0x100 * b1 + 0x1_0000 * b2 + 0x100_0000 * b3
  }

  /** The bytes after `write_u32(p + i, v)`. */
  function WriteU32(s: seq<byte>, i: nat, v: u32): (t: seq<byte>)
    requires i + 4 <= |s|
    ensures |t| == |s|
    ensures forall k :: 0 <= k < |s| && !(i <= k < i + 4) ==> t[k] == s[k]
    ensures ReadU32(t, i) == v
  {
    var q1 := v / 0x100;
    var q2 := q1 / 0x100;
    s[i := v % 0x100][i + 1 := q1 % 0x100][i + 2 := q2 % 0x100][i + 3 := q2 / 0x100]
  }

  /** `s` with `t` written over positions at, at + 1, ... */
  function Splice<T>(s: seq<T>, at: nat, t: seq<T>): (r: seq<T>)
    requires at + |t| <= |s|
    ensures |r| == |s|
    ensures forall k :: 0 <= k < |s| ==> r[k] == if at <= k < at + |t| then t[k - at] else s[k]
  {
    s[..at] + t + s[at + |t|..]
  }

  function Zeros(n: nat): (z: seq<byte>)
    ensures |z| == n && forall k :: 0 <= k < n ==> z[k] == 0
  {
    seq(n, _ => 0)
  }

  function Min(a: int, b: int): int {
    if a < b then a else b
  }

  /** Encoding then decoding any other aligned word of the buffer sees the old value. */
  lemma WriteU32Elsewhere(s: seq<byte>, i: nat, v: u32, j: nat)
    requires i + 4 <= |s| && j + 4 <= |s|
    requires j + 4 <= i || i + 4 <= j
    ensures ReadU32(WriteU32(s, i, v), j) == ReadU32(s, j)
  {
    var t := WriteU32(s, i, v);
    assert t[j] == s[j] && t[j + 1] == s[j + 1] && t[j + 2] == s[j + 2] && t[j + 3] == s[j + 3];
  }

  // ----- numbers as byte sequences -----

  /** The number a byte sequence denotes, least significant byte first. */
  function Number(s: seq<byte>): nat {
    if s == [] then 0 else s[0] + 0x100 * Number(s[1..])
  }

  function LittleEndian(v: nat, n: nat): (s: seq<byte>)
    ensures |s| == n
  {
    if n == 0 then [] else [v % 0x100] + LittleEndian(v / 0x100, n - 1)
  }

  function Power(n: nat): nat {
    if n == 0 then 1 else 0x100 * Power(n - 1)
  }

  /** A number that fits n bytes reads back from them. */
  lemma {:induction false} NumberBack(v: nat, n: nat)
    requires v < Power(n)
    ensures Number(LittleEndian(v, n)) == v
  {
    if n > 0 {
      NumberBack(v / 0x100, n - 1);
      assert LittleEndian(v, n)[1..] == LittleEndian(v / 0x100, n - 1);
    }
  }

  /** `read_u32` is the number of four bytes. */
  lemma ReadNumber(s: seq<byte>, i: nat)
    requires i + 4 <= |s|
    ensures ReadU32(s, i) == Number(s[i..i + 4])
  {
    NumberOf4(s[i], s[i + 1], s[i + 2], s[i + 3]);
    assert s[i..i + 4] == [s[i], s[i + 1], s[i + 2], s[i + 3]];
  }

  lemma NumberOf4(a: byte, b: byte, c: byte, d: byte)
    ensures Number([a, b, c, d]) == a + 0x100 * b + 0x1_0000 * c + 0x100_0000 * d
    ensures Number([a, b]) == a + 0x100 * b
  {
    NumberMore(a, [b, c, d]);
    NumberMore(b, [c, d]);
    NumberMore(c, [d]);
    NumberMore(d, []);
    NumberMore(a, [b]);
    NumberMore(b, []);
  }

  lemma NumberMore(a: byte, s: seq<byte>)
    ensures Number([a] + s) == a + 0x100 * Number(s)
  {
    assert ([a] + s)[1..] == s;
  }

  /** `write_u32` puts the four bytes of the number in place and leaves the others. */
  lemma WriteNumber(s: seq<byte>, i: nat, v: u32)
    requires i + 4 <= |s|
    ensures WriteU32(s, i, v) == s[..i] + LittleEndian(v, 4) + s[i + 4..]
  {
    EndianOf4(v);
    StoreIs(s, i, v);
    hide LittleEndian, ReadU32, WriteU32;
    FourStored(s, i, v % 0x100, v / 0x100 % 0x100, v / 0x1_0000 % 0x100, v / 0x100_0000 % 0x100);
  }

  lemma StoreIs(s: seq<byte>, i: nat, v: u32)
    requires i + 4 <= |s|
    ensures WriteU32(s, i, v) == s[i := v % 0x100][i + 1 := v / 0x100 % 0x100][i + 2 := v / 0x1_0000 % 0x100][i + 3 := v / 0x100_0000 % 0x100]
  {
    assert v / 0x100 / 0x100 == v / 0x1_0000 && v / 0x1_0000 / 0x100 == v / 0x100_0000;
  }

  lemma FourStored(s: seq<byte>, i: nat, a: byte, b: byte, c: byte, d: byte)
    requires i + 4 <= |s|
    ensures s[i := a][i + 1 := b][i + 2 := c][i + 3 := d] == s[..i] + [a, b, c, d] + s[i + 4..]
  {
  }

  lemma EndianOf4(v: nat)
    ensures LittleEndian(v, 4) == [v % 0x100, v / 0x100 % 0x100, v / 0x1_0000 % 0x100, v / 0x100_0000 % 0x100]
    ensures LittleEndian(v, 2) == [v % 0x100, v / 0x100 % 0x100]
  {
    assert v / 0x100 / 0x100 == v / 0x1_0000 && v / 0x1_0000 / 0x100 == v / 0x100_0000;
    EndianMore(v, 3);
    EndianMore(v / 0x100, 2);
    EndianMore(v / 0x1_0000, 1);
    EndianMore(v / 0x100_0000, 0);
    EndianMore(v, 1);
    EndianMore(v / 0x100, 0);
    assert LittleEndian(v, 0) == LittleEndian(v / 0x100_0000 / 0x100, 0) == [];
  }

  lemma EndianMore(v: nat, n: nat)
    ensures LittleEndian(v, n + 1) == [v % 0x100] + LittleEndian(v / 0x100, n)
  {
  }

  /** A number put among other bytes is read back at its place. */
  lemma WordAt(a: seq<byte>, v: u32, b: seq<byte>)
    ensures ReadU32(a + LittleEndian(v, 4) + b, |a|) == v
  {
    var e := a + LittleEndian(v, 4) + b;
    hide LittleEndian, ReadU32, Number;
    ReadNumber(e, |a|);
    PowerFour();
    NumberBack(v, 4);
    assert e[|a|..|a| + 4] == LittleEndian(v, 4);
  }

  lemma PowerFour()
    ensures Power(4) == 0x1_0000_0000
  {
    assert Power(1) == 0x100 && Power(2) == 0x1_0000 && Power(3) == 0x100_0000;
  }

  lemma HalfAt(a: seq<byte>, v: u16, b: seq<byte>)
    ensures var e: seq<int> := a + LittleEndian(v, 2) + b; e[|a|] + 0x100 * e[|a| + 1] == v
  {
    EndianOf4(v);
  }

  /** Equal numbers have equal bytes. */
  lemma FourDigits(a: byte, b: byte, c: byte, d: byte, e: byte, f: byte, g: byte, h: byte)
    requires a + 0x100 * b + 0x1_0000 * c + 0x100_0000 * d == e + 0x100 * f + 0x1_0000 * g + 0x100_0000 * h
    ensures a == e && b == f && c == g && d == h
  {
    FirstDigit(a, b + 0x100 * c + 0x1_0000 * d, e, f + 0x100 * g + 0x1_0000 * h);
    FirstDigit(b, c + 0x100 * d, f, g + 0x100 * h);
    FirstDigit(c, d, g, h);
  }

  lemma FirstDigit(a: byte, x: int, b: byte, y: int)
    requires a + 0x100 * x == b + 0x100 * y
    ensures a == b && x == y
  {
  }
}
