// The 21 size classes and their arenas (lib/src/mem.c, lines 153-224): sizes, bounds, alignment.
module Arenas {

  const CLASSES: nat := 21
  const BASE: int := 0xC101_0000   // ALIGNED_ALLOC_BASE

  /** `size_class_sizes`. */
  function BlockSize(i: nat): (s: int)
    ensures 16 <= s <= 0x100_0000
  {
    if i == 0 then 16
    else if i == 1 then 32
    else if i == 2 then 64
    else if i == 3 then 128
    else if i == 4 then 256
    else if i == 5 then 512
    else if i == 6 then 1024
    else if i == 7 then 2048
    else if i == 8 then 4096
    else if i == 9 then 8192
    else if i == 10 then 16384
    else if i == 11 then 32768
    else if i == 12 then 65536
    else if i == 13 then 131072
    else if i == 14 then 262144
    else if i == 15 then 524288
    else if i == 16 then 1048576
    else if i == 17 then 2097152
    else if i == 18 then 4194304
    else if i == 19 then 8388608
    else if i == 20 then 16777216
    else 16
  }

  /** `size_class_arena_sizes`. */
  function ArenaSize(i: nat): (s: int)
    ensures s >= 0
  {
    if i == 0 then 131072
    else if i == 1 then 262144
    else if i == 2 then 524288
    else if i == 3 then 1048576
    else if i == 4 then 2097152
    else if i == 5 then 4194304
    else if i == 6 then 8388608
    else if i == 7 then 16777216  // up to here 8192 blocks each
    else if i == 8 then 67108864  // twice as many 4 KiB pages
    else if i == 9 then 8388608  // an eighth
    else if i == 10 then 16777216  // an eighth
    else if i == 11 then 131072
    else if i == 12 then 262144
    else if i == 13 then 524288
    else if i == 14 then 1048576
    else if i == 15 then 2097152
    else if i == 16 then 4194304  // up to here 4 blocks each
    else if i == 17 then 4194304
    else if i == 18 then 8388608
    else if i == 19 then 16777216
    else if i == 20 then 33554432  // two blocks each
    else 0
  }

  function Start(i: nat): int {
    if i == 0 then BASE else Start(i - 1) + ArenaSize(i - 1)
  }

  function End(i: nat): int {
    Start(i) + ArenaSize(i)
  }

  /** One row of the tables. */
  lemma Row(i: nat)
    requires i < CLASSES
    ensures TableRowOk(i)
    ensures ArenaSize(i) % BlockSize(i) == 0 && ArenaSize(i) >= BlockSize(i)
    ensures ArenaSize(i) % 0x2_0000 == 0
  {
    RowOf(i);
    hide BlockSize, ArenaSize;
  }

  lemma RowOf(i: nat)
    requires i < 21
    ensures TableRowOk(i)
  {
    hide *;
    if i == 0 { Row0(); }
    else if i == 1 { Row1(); }
    else if i == 2 { Row2(); }
    else if i == 3 { Row3(); }
    else if i == 4 { Row4(); }
    else if i == 5 { Row5(); }
    else if i == 6 { Row6(); }
    else if i == 7 { Row7(); }
    else if i == 8 { Row8(); }
    else if i == 9 { Row9(); }
    else if i == 10 { Row10(); }
    else if i == 11 { Row11(); }
    else if i == 12 { Row12(); }
    else if i == 13 { Row13(); }
    else if i == 14 { Row14(); }
    else if i == 15 { Row15(); }
    else if i == 16 { Row16(); }
    else if i == 17 { Row17(); }
    else if i == 18 { Row18(); }
    else if i == 19 { Row19(); }
    else { Row20(); }
  }

  lemma Row0() ensures TableRowOk(0) {}
  lemma Row1() ensures TableRowOk(1) {}
  lemma Row2() ensures TableRowOk(2) {}
  lemma Row3() ensures TableRowOk(3) {}
  lemma Row4() ensures TableRowOk(4) {}
  lemma Row5() ensures TableRowOk(5) {}
  lemma Row6() ensures TableRowOk(6) {}
  lemma Row7() ensures TableRowOk(7) {}
  lemma Row8() ensures TableRowOk(8) {}
  lemma Row9() ensures TableRowOk(9) {}
  lemma Row10() ensures TableRowOk(10) {}
  lemma Row11() ensures TableRowOk(11) {}
  lemma Row12() ensures TableRowOk(12) {}
  lemma Row13() ensures TableRowOk(13) {}
  lemma Row14() ensures TableRowOk(14) {}
  lemma Row15() ensures TableRowOk(15) {}
  lemma Row16() ensures TableRowOk(16) {}
  lemma Row17() ensures TableRowOk(17) {}
  lemma Row18() ensures TableRowOk(18) {}
  lemma Row19() ensures TableRowOk(19) {}
  lemma Row20() ensures TableRowOk(20) {}

  predicate TableRowOk(i: nat) {
    && ArenaSize(i) % BlockSize(i) == 0 && ArenaSize(i) >= BlockSize(i) && ArenaSize(i) % 0x2_0000 == 0
    && (if BlockSize(i) <= 0x1_0000 then 0x1_0000 % BlockSize(i) == 0 else BlockSize(i) % 0x2_0000 == 0)
    && BlockSize(i) % 16 == 0
    && (i + 1 < CLASSES ==> BlockSize(i + 1) == 2 * BlockSize(i))
  }

  lemma {:induction false} StartAligned(i: nat)
    requires i <= CLASSES
    ensures Start(i) % 0x2_0000 == 0x1_0000
  {
    if i > 0 {
      StartAligned(i - 1);
      hide *;
      Row(i - 1);
      StartNext(i - 1);
    }
  }

  lemma StartNext(i: nat)
    requires ArenaSize(i) % 0x2_0000 == 0 && Start(i) % 0x2_0000 == 0x1_0000
    ensures Start(i + 1) == End(i) == Start(i) + ArenaSize(i)
    ensures Start(i + 1) % 0x2_0000 == 0x1_0000
  {
    hide ArenaSize;
  }

  lemma {:induction false} StartAfter(i: nat, j: nat)
    requires i < j <= CLASSES
    ensures BASE <= Start(i) < End(i) <= Start(j)
    decreases j
  {
    hide *;
    StartAbove(i);
    ArenaPositive(i, j);
    EndIs(i);
    EndIs(j - 1);
    if i < j - 1 { StartAfter(i, j - 1); }
  }

  lemma ArenaPositive(i: nat, j: nat)
    requires i < j <= CLASSES
    ensures ArenaSize(i) > 0
  {
    hide ArenaSize, TableRowOk, BlockSize;
    Row(i);
  }

  lemma EndIs(i: nat)
    ensures End(i) == Start(i) + ArenaSize(i) == Start(i + 1) && ArenaSize(i) >= 0
  {
    hide ArenaSize;
  }

  lemma {:induction false} StartAbove(i: nat)
    requires i <= CLASSES
    ensures Start(i) >= BASE
  {
    if i > 0 {
      StartAbove(i - 1);
      Row(i - 1);
    }
  }

  /** The last arena ends below 4 GB. */
  lemma ArenasEnd()
    ensures Start(CLASSES) == 0xCCBD_0000
  {
    assert Start(5) == BASE + 4063232;
    assert Start(10) == Start(5) + 104857600;
    assert Start(15) == Start(10) + 18743296;
  }

  // ----- blocks -----

  /** `a` starts a block of class `i`. */
  predicate OnGrid(i: nat, a: int) {
    a >= Start(i) && (a - Start(i)) % BlockSize(i) == 0
  }

  lemma MultipleGap(x: int, y: int, k: int)
    requires k > 0 && x % k == 0 && y % k == 0 && x < y
    ensures x + k <= y
  {
    var d := y - x;
    assert x == x / k * k && y == y / k * k;
    if y / k <= x / k { QuotientMono(y / k, x / k, k); } else { QuotientMono(x / k + 1, y / k, k); assert (x / k + 1) * k == x / k * k + k; }
  }

  lemma QuotientMono(a: int, b: int, k: int)
    requires a <= b && k > 0
    ensures a * k <= b * k
  {
  }

  lemma MultipleSum(x: int, k: int)
    requires k > 0 && x % k == 0
    ensures (x + k) % k == 0 && 0 % k == 0
  {
    assert x == x / k * k;
    assert (x / k + 1) * k == x + k;
    MultipleMod(x / k + 1, k);
    MultipleMod(0, k);
  }

  lemma MultipleMod(q: int, k: int)
    requires k > 0
    ensures q * k % k == 0
  {
    var d := q * k / k;
    assert q * k == d * k + q * k % k;
    assert (d + 1) * k == d * k + k && (q + 1) * k == q * k + k;
    if d < q {
      QuotientMono(d + 1, q, k);
    } else if q < d {
      QuotientMono(q + 1, d, k);
    }
  }

  lemma MultipleTrans(x: int, a: int, b: int)
    requires a > 0 && b > 0 && x % a == 0 && a % b == 0
    ensures x % b == 0
  {
    var p, q := x / a, a / b;
    assert x == p * a && a == q * b;
    assert p * (q * b) == (p * q) * b;
    MultipleMod(p * q, b);
  }

  lemma MultipleAdd(x: int, y: int, k: int)
    requires k > 0 && x % k == 0 && y % k == 0
    ensures (x + y) % k == 0 && (x - y) % k == 0
  {
    var p, q := x / k, y / k;
    assert x == p * k && y == q * k;
    assert p * k + q * k == (p + q) * k && p * k - q * k == (p - q) * k;
    MultipleMod(p + q, k);
    MultipleMod(p - q, k);
  }

  /** Blocks of one class lie at least a block size apart. */
  lemma GridGap(i: nat, a: int, b: int)
    requires OnGrid(i, a) && OnGrid(i, b) && a < b
    ensures a + BlockSize(i) <= b
  {
    MultipleGap(a - Start(i), b - Start(i), BlockSize(i));
  }

  /** A block is aligned to its own size exactly when that size is at most 64 KiB: every arena
      starts at an odd multiple of 64 KiB. */
  lemma BlockAligned(i: nat, a: int)
    requires i < CLASSES && OnGrid(i, a)
    ensures a % BlockSize(i) == 0 <==> BlockSize(i) <= 0x1_0000
  {
    Row(i);
    StartAligned(i);
    hide BlockSize, Start, ArenaSize;
    OddStart(Start(i), BlockSize(i), a);
  }

  lemma OddStart(s: int, bs: int, a: int)
    requires bs > 0 && s % 0x2_0000 == 0x1_0000 && (a - s) % bs == 0
    requires if bs <= 0x1_0000 then 0x1_0000 % bs == 0 else bs % 0x2_0000 == 0
    ensures a % bs == 0 <==> bs <= 0x1_0000
  {
    if bs <= 0x1_0000 {
      SmallStart(s, bs);
      MultipleAdd(s, a - s, bs);
      assert s + (a - s) == a;
    } else if a % bs == 0 {
      MultipleAdd(a, a - s, bs);
      assert a - (a - s) == s;
      MultipleTrans(s, bs, 0x2_0000);
    }
  }

  lemma SmallStart(s: int, bs: int)
    requires 0 < bs <= 0x1_0000 && s % 0x2_0000 == 0x1_0000 && 0x1_0000 % bs == 0
    ensures s % bs == 0
  {
    assert s % 0x1_0000 == 0;
    MultipleTrans(s, 0x1_0000, bs);
  }
}
