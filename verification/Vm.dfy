// Address spaces in place (final/src/vm.c): copying tables and pages, tearing them down,
// and mapping user ranges, over the allocator.
module Vm {
  import opened Arenas
  import opened LinkedList
  import opened Blocks
  import opened Frames
  import opened PageTables
  import Heap

  // ----- word-wise copies and clears -----

  /** `memcpy` of `n` aligned words between disjoint blocks. */
  method CopyWords(mem: Memory, dst: int, src: int, n: nat)
    requires dst + 4 * n <= src || src + 4 * n <= dst
    modifies mem
    ensures OnlyRange(old(mem.words), mem.words, dst, dst + 4 * n)
    ensures forall k: nat :: k < n ==> Rd(mem.words, dst + 4 * k) == Rd(old(mem.words), src + 4 * k)
  {
    ghost var m := mem.words;
    for i := 0 to n
      invariant OnlyRange(m, mem.words, dst, dst + 4 * i)
      invariant forall k: nat :: k < i ==> Rd(mem.words, dst + 4 * k) == Rd(m, src + 4 * k)
    {
      assert Rd(mem.words, src + 4 * i) == Rd(m, src + 4 * i);
      mem.Store(dst + 4 * i, Rd(mem.words, src + 4 * i));
    }
  }

  /** `memset` to zero of `n` aligned words. */
  method ClearWords(mem: Memory, at: int, n: nat)
    modifies mem
    ensures OnlyRange(old(mem.words), mem.words, at, at + 4 * n)
    ensures forall k: nat :: k < n ==> Rd(mem.words, at + 4 * k) == 0
  {
    ghost var m := mem.words;
    for i := 0 to n
      invariant OnlyRange(m, mem.words, at, at + 4 * i)
      invariant forall k: nat :: k < i ==> Rd(mem.words, at + 4 * k) == 0
    {
      mem.Store(at + 4 * i, 0);
    }
  }

  // ----- how many blocks a copy takes -----

  ghost function SmallFrom(m: Mem, l2: int, j: nat): nat
    decreases 256 - j
  {
    if j >= 256 then 0 else (if Small(L2At(m, l2, j)) then 1 else 0) + SmallFrom(m, l2, j + 1)
  }

  /** The three classes' remaining blocks. */
  datatype Room = Room(tables: int, pages: int, roots: int)

  ghost function RoomOf(st: State): Room
    requires |st.cur| == |st.free| == CLASSES
  {
    Room(Avail(st, L2_CLASS), Avail(st, PAGE_CLASS), Avail(st, L1_CLASS))
  }

  /** One block of class `c`, which is known to have one left. */
  method Take(heap: Heap.Allocator, size: int, ghost c: nat) returns (p: int)
    requires heap.Valid() && ClassFrom(size, 0) == c < CLASSES && Avail(heap.St(), c) > 0
    modifies heap, heap.mem
    ensures heap.Valid() && Extends(old(heap.St()), heap.St())
    ensures p !in old(heap.St()).live && Owned(heap.St(), c, p) && heap.St().live == old(heap.St()).live + {p}
    ensures forall d: nat :: d < CLASSES ==> Avail(heap.St(), d) == if d == c then Avail(old(heap.St()), d) - 1 else Avail(old(heap.St()), d)
  {
    hide Alloc, Avail, ClassFrom, Inv;
    AllocExtends(heap.St(), size, c);
    var reply := heap.Kalloc(size);
    p := reply.addr;
  }

  lemma RoomAfter(a: State, b: State, c: nat)
    requires |a.cur| == |a.free| == |b.cur| == |b.free| == CLASSES && c in {L2_CLASS, PAGE_CLASS, L1_CLASS}
    requires forall d: nat :: d < CLASSES ==> Avail(b, d) == if d == c then Avail(a, d) - 1 else Avail(a, d)
    ensures RoomOf(b) == (match RoomOf(a) case Room(t, p, r) => Room(if c == 6 then t - 1 else t, if c == 8 then p - 1 else p, if c == 10 then r - 1 else r))
  {
    hide Avail;
  }

  /** The allocator's state depends on memory only through its words. */
  lemma RoomWords(st: State, m: Mem)
    requires |st.cur| == |st.free| == CLASSES
    ensures RoomOf(st.(words := m)) == RoomOf(st)
  {
    hide BlockSize, End;
  }

  /** Lines 195-199: a private copy of page `pa`. */
  method CopyPage(heap: Heap.Allocator, pa: int, ghost st0: State) returns (f: int)
    requires heap.Valid() && Extends(st0, heap.St()) && Owned(st0, PAGE_CLASS, pa)
    requires RoomOf(heap.St()).pages > 0
    modifies heap, heap.mem
    ensures heap.Valid() && Extends(old(heap.St()), heap.St()) && Extends(st0, heap.St())
    ensures Owned(heap.St(), PAGE_CLASS, f) && f !in old(heap.St()).live && heap.St().live == old(heap.St()).live + {f}
    ensures SamePage(st0.words, heap.St().words, pa, f)
    ensures RoomOf(heap.St()) == RoomOf(old(heap.St())).(pages := RoomOf(old(heap.St())).pages - 1)
  {
    ghost var st := heap.St();
    RequestClasses();
    f := Take(heap, 4096, PAGE_CLASS);
    ghost var a := heap.St();
    RoomAfter(st, a, PAGE_CLASS);
    hide *;
    PagesApart(st0, st, a, pa, f);
    ExtendsTrans(st0, st, a);
    CopyWords(heap.mem, f, pa, 1024);
    RoomWords(a, heap.mem.words);
    PageCopied(heap, st0, st, a, pa, f);
  }

  lemma PagesApart(st0: State, st: State, a: State, pa: int, f: int)
    requires Extends(st0, st) && Extends(st, a) && Owned(st0, PAGE_CLASS, pa) && f !in st.live && Owned(a, PAGE_CLASS, f)
    ensures f + 4 * 1024 <= pa || pa + 4 * 1024 <= f
    ensures f !in st0.live && Owned(st, PAGE_CLASS, pa) && Owned(a, PAGE_CLASS, pa)
  {
    RequestClasses();
    hide Inv, BlockSize;
    assert Owned(st, PAGE_CLASS, pa);
    assert Owned(a, PAGE_CLASS, pa);
    OwnedApart(a, PAGE_CLASS, f, PAGE_CLASS, pa);
  }

  lemma PageCopied(heap: Heap.Allocator, st0: State, st: State, a: State, pa: int, f: int)
    requires heap.Rows() && heap.St() == a.(words := heap.mem.words)
    requires Extends(st0, st) && Extends(st, a) && Extends(st0, a) && Owned(a, PAGE_CLASS, f) && f !in st.live && f !in st0.live
    requires Owned(st0, PAGE_CLASS, pa)
    requires OnlyRange(a.words, heap.mem.words, f, f + 4 * 1024)
    requires forall k: nat :: k < 1024 ==> Rd(heap.mem.words, f + 4 * k) == Rd(a.words, pa + 4 * k)
    ensures heap.Valid() && Extends(st, heap.St()) && Extends(st0, heap.St()) && Owned(heap.St(), PAGE_CLASS, f)
    ensures heap.St().live == a.live && SamePage(st0.words, heap.St().words, pa, f)
  {
    RequestClasses();
    StoreInv(a, heap.mem.words, PAGE_CLASS, f);
    StoreExtends(st, a, heap.mem.words, PAGE_CLASS, f);
    StoreExtends(st0, a, heap.mem.words, PAGE_CLASS, f);
    hide Inv, OnlyRange;
    forall k: nat | k < 1024 ensures Rd(heap.mem.words, f + 4 * k) == Rd(st0.words, pa + 4 * k) {
      SharedWord(st0, a, PAGE_CLASS, pa, pa + 4 * k);
    }
  }

  /** Pages still to be copied when entry `j` is reached. */
  ghost predicate Affords(st0: State, st: State, l2: int, j: nat) {
    && |st0.cur| == |st0.free| == |st.cur| == |st.free| == CLASSES
    && RoomOf(st) == Room(RoomOf(st0).tables - 1, RoomOf(st0).pages - SmallFrom(st0.words, l2, 0) + SmallFrom(st0.words, l2, j), RoomOf(st0).roots)
    && RoomOf(st0).pages >= SmallFrom(st0.words, l2, 0)
  }

  /** Lines 191-200: one entry of the new table. */
  method ForkEntry(heap: Heap.Allocator, ghost st0: State, ghost l2: int, new_: int, j: nat)
    requires heap.Valid() && RowOk(st0, l2) && RowForked(st0, heap.St(), l2, new_, j) && j < 256
    requires Affords(st0, heap.St(), l2, j)
    modifies heap, heap.mem
    ensures heap.Valid() && RowForked(st0, heap.St(), l2, new_, j + 1)
    ensures Affords(st0, heap.St(), l2, j + 1)
  {
    hide *;
    ghost var st := heap.St();
    ForkedParts(st0, st, l2, new_, j);
    AffordStep(st0, st, l2, j);
    var e := L2At(heap.mem.words, new_, j);
    if Small(e) {
      var f := CopyPage(heap, Pa(e), st0);
      ghost var b := heap.St();
      HeapShape(heap);
      RowStepSmall(st0, st, b, l2, new_, j, f);
      heap.mem.Store(new_ + 4 * j, PageEntry(f, 255, 1, 1));
      RoomWords(b, heap.mem.words);
      Restored(heap, st0, b, new_, l2, j + 1);
      Afforded(st0, st, heap.St(), l2, j);
    } else {
      RowStepOther(st0, st, l2, new_, j);
    }
  }

  lemma HeapShape(heap: Heap.Allocator)
    requires heap.Valid()
    ensures |heap.St().cur| == |heap.St().free| == CLASSES
  {
  }

  lemma AffordStart(st0: State, st: State, l2: int)
    requires |st0.cur| == |st0.free| == |st.cur| == |st.free| == CLASSES
    requires RoomOf(st0).pages >= SmallFrom(st0.words, l2, 0)
    requires RoomOf(st) == RoomOf(st0).(tables := RoomOf(st0).tables - 1)
    ensures Affords(st0, st, l2, 0)
  {
    hide RoomOf, SmallFrom;
  }

  lemma AffordStep(st0: State, st: State, l2: int, j: nat)
    requires Affords(st0, st, l2, j) && j < 256
    ensures Small(L2At(st0.words, l2, j)) ==> RoomOf(st).pages > 0
    ensures !Small(L2At(st0.words, l2, j)) ==> Affords(st0, st, l2, j + 1)
  {
    hide RoomOf, Small, L2At;
  }

  lemma Afforded(st0: State, st: State, st': State, l2: int, j: nat)
    requires Affords(st0, st, l2, j) && j < 256 && Small(L2At(st0.words, l2, j))
    requires |st'.cur| == |st'.free| == CLASSES && RoomOf(st') == RoomOf(st).(pages := RoomOf(st).pages - 1)
    ensures Affords(st0, st', l2, j + 1)
  {
    hide RoomOf, Small, L2At;
  }

  /** Lines 187-201: one second-level table with private copies of its small pages. */
  method ForkRow(heap: Heap.Allocator, l2: int) returns (new_: int)
    requires heap.Valid() && RowOk(heap.St(), l2)
    requires RoomOf(heap.St()).tables > 0 && RoomOf(heap.St()).pages >= SmallFrom(heap.mem.words, l2, 0)
    modifies heap, heap.mem
    ensures heap.Valid() && RowForked(old(heap.St()), heap.St(), l2, new_, 256)
    ensures var r := RoomOf(old(heap.St())); RoomOf(heap.St()) == Room(r.tables - 1, r.pages - SmallFrom(old(heap.mem.words), l2, 0), r.roots)
  {
    hide *;
    ghost var st0 := heap.St();
    HeapShape(heap);
    new_ := CopyTable(heap, l2);
    HeapShape(heap);
    AffordStart(st0, heap.St(), l2);
    for j := 0 to 256
      invariant heap.Valid() && RowForked(st0, heap.St(), l2, new_, j)
      invariant Affords(st0, heap.St(), l2, j)
    {
      ForkEntry(heap, st0, l2, new_, j);
    }
    AffordEnd(st0, heap.St(), l2);
  }

  lemma AffordEnd(st0: State, st: State, l2: int)
    requires Affords(st0, st, l2, 256)
    ensures var r := RoomOf(st0); RoomOf(st) == Room(r.tables - 1, r.pages - SmallFrom(st0.words, l2, 0), r.roots)
  {
  }

  lemma ForkedParts(st0: State, st: State, l2: int, new_: int, j: nat)
    requires RowForked(st0, st, l2, new_, j) && RowOk(st0, l2) && j < 256
    ensures L2At(st.words, new_, j) == L2At(st0.words, l2, j) && Extends(st0, st)
    ensures Small(L2At(st0.words, l2, j)) ==> Owned(st0, PAGE_CLASS, Pa(L2At(st0.words, l2, j))) && SmallFrom(st0.words, l2, j) == 1 + SmallFrom(st0.words, l2, j + 1)
    ensures !Small(L2At(st0.words, l2, j)) ==> SmallFrom(st0.words, l2, j) == SmallFrom(st0.words, l2, j + 1)
  {
    hide Extends, Owned, Small, Pa, L2At, CopiedEntry;
  }

  lemma Restored(heap: Heap.Allocator, st0: State, b: State, new_: int, l2: int, j: nat)
    requires heap.Rows() && heap.St() == b.(words := heap.mem.words) && RowForked(st0, heap.St(), l2, new_, j)
    ensures heap.Valid()
  {
  }

  /** Lines 187-188. */
  method CopyTable(heap: Heap.Allocator, l2: int) returns (new_: int)
    requires heap.Valid() && RowOk(heap.St(), l2) && RoomOf(heap.St()).tables > 0
    modifies heap, heap.mem
    ensures heap.Valid() && RowForked(old(heap.St()), heap.St(), l2, new_, 0)
    ensures RoomOf(heap.St()) == RoomOf(old(heap.St())).(tables := RoomOf(old(heap.St())).tables - 1)
  {
    ghost var st0 := heap.St();
    RequestClasses();
    new_ := Take(heap, 1024, L2_CLASS);
    ghost var a := heap.St();
    RoomAfter(st0, a, L2_CLASS);
    TablesApart(st0, a, l2, new_);
    hide *;
    CopyWords(heap.mem, new_, l2, 256);
    RoomWords(a, heap.mem.words);
    RowOwned(st0, l2);
    TableCopied(a.words, heap.mem.words, l2, new_);
    RowStart(st0, a, heap.mem.words, l2, new_);
    Restored(heap, st0, a, new_, l2, 0);
  }

  lemma RowOwned(st: State, l2: int)
    requires RowOk(st, l2)
    ensures Owned(st, L2_CLASS, l2) && Owned(st, 6, l2)
  {
  }

  lemma TableCopied(m: Mem, m': Mem, l2: int, new_: int)
    requires OnlyRange(m, m', new_, new_ + 4 * 256) && forall k: nat :: k < 256 ==> Rd(m', new_ + 4 * k) == Rd(m, l2 + 4 * k)
    ensures OnlyRange(m, m', new_, new_ + 1024) && forall k: nat :: k < 256 ==> L2At(m', new_, k) == L2At(m, l2, k)
  {
  }

  lemma TablesApart(st0: State, a: State, l2: int, new_: int)
    requires RowOk(st0, l2) && Extends(st0, a) && new_ !in st0.live && Owned(a, L2_CLASS, new_)
    ensures new_ + 4 * 256 <= l2 || l2 + 4 * 256 <= new_
  {
    RequestClasses();
    hide Inv, BlockSize;
    assert Owned(st0, L2_CLASS, l2);
    assert Owned(a, L2_CLASS, l2);
    OwnedApart(a, L2_CLASS, new_, L2_CLASS, l2);
  }
}
