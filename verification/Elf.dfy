// Loading an ELF image (final/src/elf.c): the headers as the loader reads them, and what the
// segments of a loaded image look like.
module Elf {
  import opened Bytes
  import opened UserMemory

  const ELF_ERR: int := 0xFFFF_FFFF
  const PT_LOAD: int := 1

  // ----- headers -----

  function U16At(s: seq<byte>, i: nat): u16
    requires i + 2 <= |s|
  {
    var b0: int, b1: int := s[i], s[i + 1];
    b0 + 0x100 * b1
  }

  /** A program header: 32 bytes. */
  datatype Phdr = Phdr(kind: int, offset: int, vaddr: int, filesz: int, memsz: int, flags: int)

  function PhOff(elf: seq<byte>): int
    requires |elf| >= 52
  {
    ReadU32(elf, 28)
  }

  function PhNum(elf: seq<byte>): nat
    requires |elf| >= 52
  {
    U16At(elf, 44)
  }

  function Entry(elf: seq<byte>): int
    requires |elf| >= 52
  {
    ReadU32(elf, 24)
  }

  /** The header table lies inside the file. */
  predicate TableInside(elf: seq<byte>) {
    |elf| >= 52 && PhOff(elf) + 32 * PhNum(elf) <= |elf|
  }

  function PhAt(elf: seq<byte>, i: nat): Phdr
    requires TableInside(elf) && i < PhNum(elf)
  {
    var p := PhOff(elf) + 32 * i;
    Phdr(ReadU32(elf, p), ReadU32(elf, p + 4), ReadU32(elf, p + 8), ReadU32(elf, p + 16), ReadU32(elf, p + 20), ReadU32(elf, p + 24))
  }

  /** Lines 14-43: a little-endian 32-bit ARM image with program headers. */
  predicate Accepted(elf: seq<byte>)
    requires |elf| >= 52
  {
    && elf[0] == 0x7F && elf[1] == 'E' as int && elf[2] == 'L' as int && elf[3] == 'F' as int
    && elf[4] == 1 && elf[5] == 1 && U16At(elf, 18) == 40 && PhOff(elf) != 0 && PhNum(elf) != 0
  }

  predicate Loads(elf: seq<byte>, i: nat)
    requires TableInside(elf)
  {
    i < PhNum(elf) && PhAt(elf, i).kind == PT_LOAD
  }

  /** `a` lies in segment `i`. */
  predicate Holds(elf: seq<byte>, i: nat, a: int)
    requires TableInside(elf)
  {
    Loads(elf, i) && PhAt(elf, i).vaddr <= a < PhAt(elf, i).vaddr + PhAt(elf, i).memsz
  }

  function FirstPage(ph: Phdr): int { ph.vaddr / 4096 }

  /** `ALIGN_UP` in 32-bit arithmetic. */
  function EndPage(ph: Phdr): int { (ph.vaddr + ph.memsz + 4095) % 0x1_0000_0000 / 4096 }

  /** Segments inside the file and below the top of memory, and pairwise disjoint. */
  ghost predicate WellFormed(elf: seq<byte>)
    requires TableInside(elf)
  {
    && (forall i: nat :: Loads(elf, i) ==> SegmentOk(elf, PhAt(elf, i)))
    && (forall i: nat, j: nat, a :: Holds(elf, i, a) && Holds(elf, j, a) ==> i == j)
  }

  predicate SegmentOk(elf: seq<byte>, ph: Phdr) {
    0 <= ph.filesz <= ph.memsz && 0 <= ph.offset && ph.offset + ph.filesz <= |elf| && 0 <= ph.vaddr && ph.vaddr + ph.memsz + 4095 < 0x1_0000_0000
  }

  // ----- the loaded image -----

  /** Byte `k` of a segment: from the file, then zero. */
  function SegByte(elf: seq<byte>, ph: Phdr, k: int): int
    requires SegmentOk(elf, ph) && 0 <= k < ph.memsz
  {
    if k < ph.filesz then elf[ph.offset + k] else 0
  }

  /** The segment reads as its file bytes followed by zeros. */
  ghost predicate Loaded(m: Mem, elf: seq<byte>, ph: Phdr)
    requires SegmentOk(elf, ph)
  {
    forall k :: 0 <= k < ph.memsz ==> At(m, ph.vaddr + k) == SegByte(elf, ph, k)
  }

  /** The byte at `a` once its page is mapped. */
  function Held(m: Mem, pages: set<int>, a: int): int {
    if a / 4096 in pages then At(m, a) else 0
  }

  /** Byte `k` of a segment as the loader leaves it: `memcpy` does nothing at address 0, so there
      the mapped page keeps what it holds in place of the file bytes. */
  function PlacedByte(elf: seq<byte>, ph: Phdr, m: Mem, pages: set<int>, k: int): int
    requires SegmentOk(elf, ph) && 0 <= k < ph.memsz
  {
    if ph.vaddr == 0 && k < ph.filesz then Held(m, pages, k) else SegByte(elf, ph, k)
  }

  /** Memory `m` over the segment, loaded into a process that had `m0` on `pages0`. */
  ghost predicate Placed(m0: Mem, pages0: set<int>, m: Mem, elf: seq<byte>, ph: Phdr)
    requires SegmentOk(elf, ph)
  {
    forall k :: 0 <= k < ph.memsz ==> At(m, ph.vaddr + k) == PlacedByte(elf, ph, m0, pages0, k)
  }

  /** The segment is not at address 0, or its file bytes are there already. */
  ghost predicate Copyable(elf: seq<byte>, ph: Phdr, m0: Mem, pages0: set<int>)
    requires SegmentOk(elf, ph)
  {
    ph.vaddr != 0 || forall k :: 0 <= k < ph.filesz ==> elf[ph.offset + k] == Held(m0, pages0, k)
  }

  /** Exactly then the segment reads as its file bytes followed by zeros. */
  lemma LoadedExactly(m0: Mem, pages0: set<int>, m: Mem, elf: seq<byte>, ph: Phdr)
    requires SegmentOk(elf, ph) && Placed(m0, pages0, m, elf, ph)
    ensures Loaded(m, elf, ph) <==> Copyable(elf, ph, m0, pages0)
  {
    hide At;
    if Loaded(m, elf, ph) && ph.vaddr == 0 {
      forall k | 0 <= k < ph.filesz ensures elf[ph.offset + k] == Held(m0, pages0, k) {
        assert At(m, ph.vaddr + k) == SegByte(elf, ph, k) == elf[ph.offset + k];
        assert At(m, ph.vaddr + k) == PlacedByte(elf, ph, m0, pages0, k);
      }
    }
    if Copyable(elf, ph, m0, pages0) {
      forall k | 0 <= k < ph.memsz ensures At(m, ph.vaddr + k) == SegByte(elf, ph, k) {
        assert At(m, ph.vaddr + k) == PlacedByte(elf, ph, m0, pages0, k);
      }
    }
  }

  /** The pages of the segments among the first `n` headers. */
  ghost function SegPages(elf: seq<byte>, n: nat): set<int>
    requires TableInside(elf) && n <= PhNum(elf)
  {
    if n == 0 then {} else SegPages(elf, n - 1) + (if Loads(elf, n - 1) then PageSet(FirstPage(PhAt(elf, n - 1)), EndPage(PhAt(elf, n - 1))) else {})
  }

  /** `a` lies in none of the first `n` segments. */
  ghost predicate Outside(elf: seq<byte>, n: nat, a: int)
    requires TableInside(elf)
  {
    forall i: nat :: i < n ==> !Holds(elf, i, a)
  }

  lemma OutsideNext(elf: seq<byte>, n: nat, a: int)
    requires TableInside(elf)
    ensures Outside(elf, n + 1, a) <==> Outside(elf, n, a) && !Holds(elf, n, a)
  {
    hide Holds;
  }

  /** After the first `n` headers: their segments are placed; every other byte is as before, or zero
      on a page that was not mapped before. */
  ghost predicate ImageUpTo(elf: seq<byte>, n: nat, m0: Mem, pages0: set<int>, m: Mem, pages: set<int>)
    requires TableInside(elf) && WellFormed(elf) && n <= PhNum(elf)
  {
    && pages == pages0 + SegPages(elf, n)
    && (forall i: nat :: i < n && Loads(elf, i) ==> Placed(m0, pages0, m, elf, PhAt(elf, i)))
    && (forall a :: Outside(elf, n, a) ==> At(m, a) == if a / 4096 in pages && a / 4096 !in pages0 then 0 else At(m0, a))
  }

  /** What loading one segment does to memory: map its pages, copy, clear. */
  ghost predicate SegmentStep(elf: seq<byte>, ph: Phdr, m: Mem, pages: set<int>, m': Mem)
    requires SegmentOk(elf, ph)
  {
    && Placed(m, pages, m', elf, ph)
    && OnlyIn(Mapped(m, pages, FirstPage(ph), EndPage(ph)), m', ph.vaddr, ph.vaddr + ph.memsz)
  }

  /** A segment's pages are no more than it takes. */
  lemma TightPages(elf: seq<byte>, ph: Phdr)
    requires SegmentOk(elf, ph)
    ensures 4096 * FirstPage(ph) <= ph.vaddr < 4096 * FirstPage(ph) + 4096
    ensures ph.vaddr + ph.memsz <= 4096 * EndPage(ph) < ph.vaddr + ph.memsz + 4096
  {
    var e := ph.vaddr + ph.memsz + 4095;
    assert e % 0x1_0000_0000 == e;
    assert e == 4096 * (e / 4096) + e % 4096;
  }

  /** Segment bytes lie on the segment's pages. */
  lemma SegmentPage(elf: seq<byte>, ph: Phdr, a: int)
    requires SegmentOk(elf, ph) && ph.vaddr <= a < ph.vaddr + ph.memsz
    ensures FirstPage(ph) <= a / 4096 < EndPage(ph)
  {
    assert (ph.vaddr + ph.memsz + 4095) % 0x1_0000_0000 == ph.vaddr + ph.memsz + 4095;
    assert (ph.vaddr + ph.memsz + 4095) / 4096 >= (a + 4096) / 4096;
  }

  lemma {:induction false} SegPagesHold(elf: seq<byte>, n: nat, i: nat, a: int)
    requires TableInside(elf) && WellFormed(elf) && i < n <= PhNum(elf) && Holds(elf, i, a)
    ensures a / 4096 in SegPages(elf, n)
  {
    if i < n - 1 { SegPagesHold(elf, n - 1, i, a); }
    else { SegmentPage(elf, PhAt(elf, i), a); }
  }

  /** An earlier segment's bytes are on mapped pages, so later mapping and copying miss them. */
  lemma EarlierStays(elf: seq<byte>, n: nat, m0: Mem, pages0: set<int>, m: Mem, pages: set<int>, m': Mem, i: nat)
    requires TableInside(elf) && WellFormed(elf) && Loads(elf, n) && i < n && Loads(elf, i)
    requires ImageUpTo(elf, n, m0, pages0, m, pages) && SegmentStep(elf, PhAt(elf, n), m, pages, m')
    ensures Placed(m0, pages0, m', elf, PhAt(elf, i))
  {
    hide SegPages, PhAt, SegmentOk, PlacedByte, FirstPage, EndPage, Outside, SegmentStep, At;
    var ph := PhAt(elf, i);
    assert Placed(m0, pages0, m, elf, ph);
    forall k | 0 <= k < ph.memsz ensures At(m', ph.vaddr + k) == PlacedByte(elf, ph, m0, pages0, k) {
      EarlierByte(elf, n, pages0, m, pages, m', i, ph.vaddr + k);
    }
  }

  lemma EarlierByte(elf: seq<byte>, n: nat, pages0: set<int>, m: Mem, pages: set<int>, m': Mem, i: nat, a: int)
    requires TableInside(elf) && WellFormed(elf) && Loads(elf, n) && i < n && Holds(elf, i, a)
    requires pages == pages0 + SegPages(elf, n) && SegmentStep(elf, PhAt(elf, n), m, pages, m')
    ensures At(m', a) == At(m, a)
  {
    hide SegPages, PhAt, SegmentOk, FirstPage, EndPage, Placed;
    SegPagesHold(elf, n, i, a);
    assert !Holds(elf, n, a);
  }

  lemma OutsideStays(elf: seq<byte>, n: nat, m0: Mem, pages0: set<int>, m: Mem, pages: set<int>, m': Mem, a: int)
    requires TableInside(elf) && WellFormed(elf) && Loads(elf, n)
    requires ImageUpTo(elf, n, m0, pages0, m, pages) && SegmentStep(elf, PhAt(elf, n), m, pages, m')
    requires Outside(elf, n + 1, a)
    ensures var pages' := pages + PageSet(FirstPage(PhAt(elf, n)), EndPage(PhAt(elf, n))); At(m', a) == if a / 4096 in pages' && a / 4096 !in pages0 then 0 else At(m0, a)
  {
    OutsideNext(elf, n, a);
    hide SegPages, PhAt, SegmentOk, FirstPage, EndPage, Placed, Outside;
  }

  /** The segment just placed, seen from the memory before the first: what its pages held was there
      from the start. */
  lemma NewestPlaced(elf: seq<byte>, n: nat, m0: Mem, pages0: set<int>, m: Mem, pages: set<int>, m': Mem)
    requires TableInside(elf) && WellFormed(elf) && Loads(elf, n)
    requires ImageUpTo(elf, n, m0, pages0, m, pages) && SegmentStep(elf, PhAt(elf, n), m, pages, m')
    ensures Placed(m0, pages0, m', elf, PhAt(elf, n))
  {
    hide SegPages, PhAt, SegmentOk, FirstPage, EndPage, At, SegByte;
    var ph := PhAt(elf, n);
    forall k | 0 <= k < ph.memsz ensures At(m', ph.vaddr + k) == PlacedByte(elf, ph, m0, pages0, k) {
      assert At(m', ph.vaddr + k) == PlacedByte(elf, ph, m, pages, k);
      assert Holds(elf, n, ph.vaddr + k);
      assert Outside(elf, n, ph.vaddr + k);
    }
  }

  lemma ImageNext(elf: seq<byte>, n: nat, m0: Mem, pages0: set<int>, m: Mem, pages: set<int>, m': Mem)
    requires TableInside(elf) && WellFormed(elf) && Loads(elf, n)
    requires ImageUpTo(elf, n, m0, pages0, m, pages) && SegmentStep(elf, PhAt(elf, n), m, pages, m')
    ensures ImageUpTo(elf, n + 1, m0, pages0, m', pages + PageSet(FirstPage(PhAt(elf, n)), EndPage(PhAt(elf, n))))
  {
    hide SegmentOk, FirstPage, EndPage, Placed, PhAt, Holds;
    forall i: nat | i < n + 1 && Loads(elf, i) ensures Placed(m0, pages0, m', elf, PhAt(elf, i)) {
      if i < n { EarlierStays(elf, n, m0, pages0, m, pages, m', i); } else { NewestPlaced(elf, n, m0, pages0, m, pages, m'); }
    }
    var pages' := pages + PageSet(FirstPage(PhAt(elf, n)), EndPage(PhAt(elf, n)));
    forall a | Outside(elf, n + 1, a)
      ensures At(m', a) == if a / 4096 in pages' && a / 4096 !in pages0 then 0 else At(m0, a)
    {
      OutsideStays(elf, n, m0, pages0, m, pages, m', a);
    }
  }

  lemma ImageSkip(elf: seq<byte>, n: nat, m0: Mem, pages0: set<int>, m: Mem, pages: set<int>)
    requires TableInside(elf) && WellFormed(elf) && n < PhNum(elf) && !Loads(elf, n)
    requires ImageUpTo(elf, n, m0, pages0, m, pages)
    ensures ImageUpTo(elf, n + 1, m0, pages0, m, pages)
  {
    hide SegmentOk, Placed, PhAt;
    forall a | Outside(elf, n + 1, a) ensures Outside(elf, n, a) { OutsideNext(elf, n, a); }
  }

  /** The end of the break region: page-aligned and above every writable segment. */
  ghost function RwEnd(elf: seq<byte>, n: nat): (r: int)
    requires TableInside(elf) && n <= PhNum(elf)
  {
    if n == 0 then 0
    else
      var end := PhAt(elf, n - 1).vaddr + PhAt(elf, n - 1).memsz;
      if Loads(elf, n - 1) && PhAt(elf, n - 1).flags / 2 % 2 == 1 && end > RwEnd(elf, n - 1) then end else RwEnd(elf, n - 1)
  }

  lemma {:induction false} BreakAbove(elf: seq<byte>, n: nat, i: nat)
    requires TableInside(elf) && WellFormed(elf) && n <= PhNum(elf)
    ensures 0 <= RwEnd(elf, n) && RwEnd(elf, n) + 4095 < 0x1_0000_0000
    ensures i < n && Loads(elf, i) && PhAt(elf, i).flags / 2 % 2 == 1 ==> PhAt(elf, i).vaddr + PhAt(elf, i).memsz <= RwEnd(elf, n)
  {
    hide PhAt;
    if n > 0 {
      BreakAbove(elf, n - 1, i);
      if Loads(elf, n - 1) { assert SegmentOk(elf, PhAt(elf, n - 1)); }
    }
  }

  /** And no higher than the end of one of them: it is 0 only without a writable segment, or if all
      such end at 0. */
  lemma {:induction false} BreakTight(elf: seq<byte>, n: nat)
    requires TableInside(elf) && n <= PhNum(elf)
    ensures RwEnd(elf, n) == 0 || exists i: nat {:trigger Loads(elf, i)} :: i < n && Loads(elf, i) && PhAt(elf, i).flags / 2 % 2 == 1 && PhAt(elf, i).vaddr + PhAt(elf, i).memsz == RwEnd(elf, n)
  {
    hide PhAt, PhNum;
    if n > 0 {
      BreakTight(elf, n - 1);
      if RwEnd(elf, n) == RwEnd(elf, n - 1) {
        if RwEnd(elf, n) != 0 {
          var i: nat :| i < n - 1 && Loads(elf, i) && PhAt(elf, i).flags / 2 % 2 == 1 && PhAt(elf, i).vaddr + PhAt(elf, i).memsz == RwEnd(elf, n - 1);
          assert Loads(elf, i);
        }
      } else {
        assert Loads(elf, n - 1);
      }
    }
  }

  /** Whether the file bytes of segment `i` include the start of the header table. */
  predicate ShowsTable(elf: seq<byte>, i: nat)
    requires TableInside(elf)
  {
    Loads(elf, i) && PhAt(elf, i).offset <= PhOff(elf) < PhAt(elf, i).offset + PhAt(elf, i).filesz
  }

  /** `AT_PHDR`: where the first such segment puts the table; 0 if there is none. */
  function TableVa(elf: seq<byte>, i: nat): int
    requires TableInside(elf) && i <= PhNum(elf)
    decreases PhNum(elf) - i
  {
    if i == PhNum(elf) then 0
    else if ShowsTable(elf, i) then (PhAt(elf, i).vaddr + (PhOff(elf) - PhAt(elf, i).offset)) % 0x1_0000_0000
    else TableVa(elf, i + 1)
  }

  /** The process finds the header table at `va`, as far as segment `j`'s file bytes go. */
  ghost predicate TableAt(elf: seq<byte>, m: Mem, j: nat, va: int)
    requires TableInside(elf) && WellFormed(elf) && Loads(elf, j)
  {
    SegmentFits(elf, j);
    forall k :: PhOff(elf) <= k < PhAt(elf, j).offset + PhAt(elf, j).filesz ==> At(m, va + (k - PhOff(elf))) == elf[k]
  }

  lemma SegmentFits(elf: seq<byte>, j: nat)
    requires TableInside(elf) && WellFormed(elf) && Loads(elf, j)
    ensures SegmentOk(elf, PhAt(elf, j))
  {
    hide PhAt;
  }

  /** At `AT_PHDR` the process finds the header table if and only if the segment that shows it is
      not at address 0, or the table is there already. */
  lemma {:induction false} TableReadable(elf: seq<byte>, m0: Mem, pages0: set<int>, m: Mem, i: nat) returns (j: nat)
    requires TableInside(elf) && WellFormed(elf) && i <= PhNum(elf)
    requires forall k: nat :: Loads(elf, k) ==> Placed(m0, pages0, m, elf, PhAt(elf, k))
    requires exists k: nat :: i <= k && ShowsTable(elf, k)
    ensures ShowsTable(elf, j)
    ensures TableAt(elf, m, j, TableVa(elf, i)) <==> TableCopyable(elf, m0, pages0, j)
    decreases PhNum(elf) - i
  {
    hide PhAt, PhOff, Placed, TableAt, TableCopyable;
    if i < PhNum(elf) && ShowsTable(elf, i) {
      j := i;
      TableSeen(elf, m0, pages0, m, i);
    } else {
      j := TableReadable(elf, m0, pages0, m, i + 1);
    }
  }

  ghost predicate TableCopyable(elf: seq<byte>, m0: Mem, pages0: set<int>, j: nat)
    requires TableInside(elf) && WellFormed(elf) && Loads(elf, j)
  {
    SegmentFits(elf, j);
    var ph := PhAt(elf, j);
    ph.vaddr != 0 || forall k :: PhOff(elf) <= k < ph.offset + ph.filesz ==> elf[k] == Held(m0, pages0, k - ph.offset)
  }

  lemma TableSeen(elf: seq<byte>, m0: Mem, pages0: set<int>, m: Mem, i: nat)
    requires TableInside(elf) && WellFormed(elf) && i < PhNum(elf) && ShowsTable(elf, i)
    requires SegmentOk(elf, PhAt(elf, i)) && Placed(m0, pages0, m, elf, PhAt(elf, i))
    ensures TableAt(elf, m, i, TableVa(elf, i)) <==> TableCopyable(elf, m0, pages0, i)
  {
    hide PhAt, PhOff, WellFormed, At, Held;
    var ph, off := PhAt(elf, i), PhOff(elf);
    assert TableVa(elf, i) == ph.vaddr + (off - ph.offset);
    forall k | off <= k < ph.offset + ph.filesz
      ensures At(m, TableVa(elf, i) + (k - off)) == if ph.vaddr == 0 then Held(m0, pages0, k - ph.offset) else elf[k]
    {
      assert At(m, ph.vaddr + (k - ph.offset)) == PlacedByte(elf, ph, m0, pages0, k - ph.offset);
      assert TableVa(elf, i) + (k - off) == ph.vaddr + (k - ph.offset);
    }
  }
}
