// `make_sure_user_space` in place (final/src/vm.c, lines 118-164).
module UserMap {
  import opened Arenas
  import opened LinkedList
  import opened Blocks
  import opened Frames
  import opened PageTables
  import opened Spaces
  import opened UserSpace
  import opened Vm
  import Heap

  // ----- the range of pages -----

  function StartPage(start: nat): nat { start / 4096 }

  /** The end is aligned up in 32-bit arithmetic. */
  function EndPage(start: nat, size: nat): nat { (start + size + 4095) % 0x1_0000_0000 / 4096 }

  /** The pages visited cover the requested bytes exactly when aligning up does not wrap. */
  lemma CoversRange(start: nat, size: nat)
    requires start < 0x1_0000_0000 && size < 0x1_0000_0000
    ensures (forall a :: start <= a < start + size ==> StartPage(start) <= a / 4096 < EndPage(start, size)) <==> size == 0 || start + size + 4095 < 0x1_0000_0000
  {
    if start + size + 4095 < 0x1_0000_0000 {
      forall a | start <= a < start + size ensures StartPage(start) <= a / 4096 < EndPage(start, size) {
        assert (start + size + 4095) / 4096 >= (a + 4096) / 4096;
      }
    } else if size > 0 {
      var a := start + size - 1;
      assert (start + size + 4095) % 0x1_0000_0000 <= start + size + 4095 - 0x1_0000_0000;
      assert EndPage(start, size) <= a / 4096;
    }
  }

  /** And no page more than it takes. */
  lemma TightRange(start: nat, size: nat)
    requires start + size + 4095 < 0x1_0000_0000
    ensures 4096 * StartPage(start) <= start < 4096 * StartPage(start) + 4096
    ensures start + size <= 4096 * EndPage(start, size) < start + size + 4096
  {
    var e := start + size + 4095;
    assert e % 0x1_0000_0000 == e;
    assert e == 4096 * (e / 4096) + e % 4096;
  }

  // ----- what the range takes -----

  /** Page `v` is the first of the range in a row without a table. */
  predicate NewRow(m: Mem, l1: int, lo: nat, v: nat) {
    !RowAt(m, l1, v / 256) && (v == lo || v % 256 == 0)
  }

  ghost function TablesNeed(m: Mem, l1: int, lo: nat, v: nat, hi: nat): nat
    decreases hi - v
  {
    if v >= hi then 0 else (if NewRow(m, l1, lo, v) then 1 else 0) + TablesNeed(m, l1, lo, v + 1, hi)
  }

  ghost function PagesNeed(m: Mem, l1: int, v: nat, hi: nat): nat
    decreases hi - v
  {
    if v >= hi then 0 else (if Kind(View(m, l1, v)) == 0 then 1 else 0) + PagesNeed(m, l1, v + 1, hi)
  }

  /** Enough blocks for what is left of the range at page `v`. */
  ghost predicate Stocked(st0: State, st: State, l1: int, lo: nat, v: nat, hi: nat) {
    && |st.cur| == |st.free| == CLASSES
    && RoomOf(st).tables >= TablesNeed(st0.words, l1, lo, v, hi) && RoomOf(st).pages >= PagesNeed(st0.words, l1, v, hi)
  }

  ghost function RowsOf(lo: nat, v: nat): set<nat> {
    set w: nat | lo <= w < v :: w / 256
  }

  lemma RowsOfNext(lo: nat, v: nat)
    requires lo <= v
    ensures RowsOf(lo, v + 1) == RowsOf(lo, v) + {v / 256}
  {
    forall r: nat | r in RowsOf(lo, v + 1) ensures r in RowsOf(lo, v) + {v / 256} {
      var w: nat :| lo <= w < v + 1 && w / 256 == r;
      if w < v { assert w / 256 in RowsOf(lo, v); }
    }
    assert v / 256 in RowsOf(lo, v + 1);
    forall r: nat | r in RowsOf(lo, v) ensures r in RowsOf(lo, v + 1) {
      var w: nat :| lo <= w < v && w / 256 == r;
      assert lo <= w < v + 1;
    }
  }

  /** What page `v` takes. */
  ghost predicate RoomFor(st: State, l1: int, v: nat) {
    && |st.cur| == |st.free| == CLASSES
    && (!RowAt(st.words, l1, v / 256) ==> RoomOf(st).tables > 0) && (Kind(View(st.words, l1, v)) == 0 ==> RoomOf(st).pages > 0)
  }

  lemma StockedRoom(st0: State, st: State, l1: int, lo: nat, v: nat, hi: nat)
    requires Stocked(st0, st, l1, lo, v, hi) && lo <= v < hi && v / 256 < 4095
    requires ViewsMapped(st0, st, l1, lo, v) && RowsAdded(st0, st, l1, RowsOf(lo, v))
    ensures RoomFor(st, l1, v)
  {
    hide RoomOf, RowAt, View, PageMapped, Kind;
    if v > lo && v % 256 != 0 { LateRow(st0, st, l1, lo, v); }
  }

  /** Past the first page of a row its table is there. */
  lemma LateRow(st0: State, st: State, l1: int, lo: nat, v: nat)
    requires RowsAdded(st0, st, l1, RowsOf(lo, v)) && lo < v && v % 256 != 0 && v / 256 < 4095
    ensures RowAt(st.words, l1, v / 256)
  {
    hide RowAt;
    SameRowPages(v);
    assert lo <= v - 1 < v;
    assert (v - 1) / 256 in RowsOf(lo, v);
  }

  lemma SameRowPages(v: nat)
    requires v % 256 != 0
    ensures (v - 1) / 256 == v / 256
  {
  }

  /** The room left after page `v`. */
  ghost predicate PageTaken(st: State, st': State, l1: int, v: nat) {
    && |st.cur| == |st.free| == |st'.cur| == |st'.free| == CLASSES
    && RoomOf(st').tables == RoomOf(st).tables - (if RowAt(st.words, l1, v / 256) then 0 else 1)
    && RoomOf(st').pages == RoomOf(st).pages - (if Kind(View(st.words, l1, v)) == 0 then 1 else 0)
  }

  lemma StockedNext(st0: State, st: State, st': State, l1: int, lo: nat, v: nat, hi: nat)
    requires Stocked(st0, st, l1, lo, v, hi) && lo <= v < hi && v / 256 < 4095 && PageTaken(st, st', l1, v)
    requires ViewsMapped(st0, st, l1, lo, v) && RowsAdded(st0, st, l1, RowsOf(lo, v))
    ensures Stocked(st0, st', l1, lo, v + 1, hi)
  {
    hide RoomOf, RowAt, View, PageMapped, Kind;
    if v > lo && v % 256 != 0 { LateRow(st0, st, l1, lo, v); }
  }

  // ----- one page -----

  lemma WithTable(st: State, l1: int, v: nat)
    requires Inv(st) && Space(st, l1) && RowAt(st.words, l1, v / 256)
    ensures Mapped(st, st, l1, v, v, {v / 256})
  {
    MappedNone(st, l1, v);
    hide PagesSpared, Grown, ViewsMapped, RowAt, Space, NoFaults;
  }

  lemma Committed(heap: Heap.Allocator, b: State, c: State, l1: int, lo: nat, hi: nat, rows: set<nat>)
    requires heap.Rows() && heap.St() == c && Mapped(b, c, l1, lo, hi, rows)
    ensures heap.Valid() && Inv(heap.St()) && Space(heap.St(), l1)
  {
    hide Inv, ViewsMapped, RowsAdded, Frugal, Space;
  }

  lemma ZeroTable(m: Mem, l2: int)
    requires forall k: nat :: k < 256 ==> Rd(m, l2 + 4 * k) == 0
    ensures forall k: nat :: k < 256 ==> L2At(m, l2, k) == 0
  {
  }

  lemma AllocStored(b: State, a: State, m: Mem, c: nat, p: int, n: int)
    requires Extends(b, a) && Owned(a, c, p) && p !in b.live && c < CLASSES && n == BlockSize(c) && OnlyRange(a.words, m, p, p + n)
    ensures Extends(b, a.(words := m)) && Owned(a.(words := m), c, p)
  {
    StoreExtends(b, a, m, c, p);
    hide Inv, BlockSize, OnlyRange, Extends;
  }

  /** Lines 126-140: a table for the row of page `v`. */
  method EnsureTable(heap: Heap.Allocator, l1: int, v: nat)
    requires heap.Valid() && Space(heap.St(), l1) && v / 256 < 4095
    requires !RowAt(heap.mem.words, l1, v / 256) ==> RoomOf(heap.St()).tables > 0
    modifies heap, heap.mem
    ensures heap.Valid() && Mapped(old(heap.St()), heap.St(), l1, v, v, {v / 256})
    ensures RoomOf(heap.St()) == RoomOf(old(heap.St())).(tables := RoomOf(old(heap.St())).tables - (if RowAt(old(heap.mem.words), l1, v / 256) then 0 else 1))
  {
    hide Inv, BlockSize, Start, End, Avail, ClassFrom, Space, RoomOf, Extends, Owned, Mapped, Coarse, L1At;
    ghost var b := heap.St();
    var i := v / 256;
    if !Coarse(L1At(heap.mem.words, l1, i)) {
      RequestClasses();
      assert Avail(b, L2_CLASS) > 0 by { RoomTables(b); }
      var l2 := Take(heap, 1024, L2_CLASS);
      ghost var a := heap.St();
      RoomAfter(b, a, L2_CLASS);
      ClearWords(heap.mem, l2, 256);
      ghost var m := heap.mem.words;
      RoomWords(a, m);
      AllocStored(b, a, m, L2_CLASS, l2, 1024);
      ZeroTable(m, l2);
      heap.mem.Store(l1 + 4 * i, l2 + 1);
      RoomWords(a, heap.mem.words);
      TableAdded(b, a.(words := m), l1, v, l2);
      assert heap.St() == Stored(a.(words := m), l1, i, l2 + 1);
      Committed(heap, b, heap.St(), l1, v, v, {i});
    } else {
      WithTable(b, l1, v);
    }
  }

  lemma RoomTables(b: State)
    requires |b.cur| == |b.free| == CLASSES
    ensures RoomOf(b).tables == Avail(b, L2_CLASS) && RoomOf(b).pages == Avail(b, PAGE_CLASS)
  {
    hide Avail;
  }

  lemma ZeroedPage(m: Mem, p: int)
    requires forall k: nat :: k < 1024 ==> Rd(m, p + 4 * k) == 0
    ensures ZeroPage(m, p)
  {
  }

  /** Lines 142-161: the entry of page `v`. */
  method SetEntry(heap: Heap.Allocator, l1: int, v: nat)
    requires heap.Valid() && Space(heap.St(), l1) && v / 256 < 4095 && RowAt(heap.mem.words, l1, v / 256)
    requires Kind(View(heap.mem.words, l1, v)) == 0 ==> RoomOf(heap.St()).pages > 0
    modifies heap, heap.mem
    ensures heap.Valid() && Mapped(old(heap.St()), heap.St(), l1, v, v + 1, {})
    ensures RoomOf(heap.St()) == RoomOf(old(heap.St())).(pages := RoomOf(old(heap.St())).pages - (if Kind(View(old(heap.mem.words), l1, v)) == 0 then 1 else 0))
  {
    hide Inv, BlockSize, Start, End, Avail, ClassFrom, Space, RoomOf, Extends, Owned, Mapped, Coarse, L1At, L2Base, Kind, L2At, PageEntry, OpenPerms;
    ghost var b := heap.St();
    var l2 := TableAt(heap.mem.words, l1, v / 256);
    var e := L2At(heap.mem.words, l2, v % 256);
    if Kind(e) == 0 {
      RequestClasses();
      RoomTables(b);
      var f := Take(heap, 4096, PAGE_CLASS);
      ghost var a := heap.St();
      RoomAfter(b, a, PAGE_CLASS);
      ClearWords(heap.mem, f, 1024);
      ghost var m := heap.mem.words;
      RoomWords(a, m);
      AllocStored(b, a, m, PAGE_CLASS, f, 4096);
      ZeroedPage(m, f);
      heap.mem.Store(l2 + 4 * (v % 256), PageEntry(f, 255, 1, 1));
      RoomWords(a, heap.mem.words);
      EntryFilled(b, a.(words := m), l1, v, f);
      assert heap.St() == Stored(a.(words := m), l2, v % 256, PageEntry(f, 255, 1, 1));
      Committed(heap, b, heap.St(), l1, v, v + 1, {});
    } else {
      EntryOpened(b, l1, v);
      heap.mem.Store(l2 + 4 * (v % 256), OpenPerms(e));
      RoomWords(b, heap.mem.words);
      assert heap.St() == Stored(b, l2, v % 256, OpenPerms(e));
      Committed(heap, b, heap.St(), l1, v, v + 1, {});
    }
  }

  /** One turn of the loop. */
  method MapPage(heap: Heap.Allocator, l1: int, v: nat)
    requires heap.Valid() && Space(heap.St(), l1) && v / 256 < 4095 && RoomFor(heap.St(), l1, v)
    modifies heap, heap.mem
    ensures heap.Valid() && Space(heap.St(), l1) && Mapped(old(heap.St()), heap.St(), l1, v, v + 1, {v / 256})
    ensures PageTaken(old(heap.St()), heap.St(), l1, v)
  {
    hide *;
    ghost var b := heap.St();
    RoomForParts(b, l1, v);
    EnsureTable(heap, l1, v);
    ghost var c := heap.St();
    HeapShape(heap);
    AfterTable(b, c, l1, v);
    SetEntry(heap, l1, v);
    HeapShape(heap);
    ghost var d := heap.St();
    MappedTrans(b, c, d, l1, v, v, v + 1, {v / 256}, {});
    assert {v / 256} + {} == {v / 256};
    AfterEntry(b, d, l1, v);
  }

  lemma RoomForParts(b: State, l1: int, v: nat)
    requires RoomFor(b, l1, v)
    ensures |b.cur| == |b.free| == CLASSES
    ensures (!RowAt(b.words, l1, v / 256) ==> RoomOf(b).tables > 0) && (Kind(View(b.words, l1, v)) == 0 ==> RoomOf(b).pages > 0)
  {
  }

  lemma AfterTable(b: State, c: State, l1: int, v: nat)
    requires Mapped(b, c, l1, v, v, {v / 256}) && v / 256 < 4095
    ensures Space(c, l1) && RowAt(c.words, l1, v / 256) && View(c.words, l1, v) == View(b.words, l1, v)
  {
    hide PagesSpared, Space, RowAt, View, Frugal;
    assert v / 256 in {v / 256};
  }

  lemma AfterEntry(b: State, d: State, l1: int, v: nat)
    requires Mapped(b, d, l1, v, v + 1, {v / 256}) && |b.cur| == |b.free| == |d.cur| == |d.free| == CLASSES
    requires var r := RoomOf(b); RoomOf(d) == Room(r.tables - (if RowAt(b.words, l1, v / 256) then 0 else 1), r.pages - (if Kind(View(b.words, l1, v)) == 0 then 1 else 0), r.roots)
    ensures Space(d, l1) && PageTaken(b, d, l1, v)
  {
    hide PagesSpared, Space, RowAt, View, RoomOf, ViewsMapped, RowsAdded, Frugal;
  }

  /** The last page of the loop, which runs at all only if the end lies above the start. */
  function LastPage(start: nat, size: nat): nat {
    if EndPage(start, size) > StartPage(start) then EndPage(start, size) else StartPage(start)
  }

  lemma AlignedRange(start: nat, size: nat)
    ensures start - start % 4096 == 4096 * StartPage(start)
    ensures var up := (start + size + 4095) % 0x1_0000_0000; up - up % 4096 == 4096 * EndPage(start, size)
    ensures StartPage(start) <= LastPage(start, size)
  {
  }

  lemma PageAddress(start: nat, size: nat, v: nat)
    requires StartPage(start) <= v
    ensures 4096 * v < 4096 * EndPage(start, size) <==> v < LastPage(start, size)
  {
  }

  ghost predicate LoopOk(st0: State, st: State, l1: int, lo: nat, v: nat, hi: nat) {
    Space(st, l1) && Mapped(st0, st, l1, lo, v, RowsOf(lo, v)) && Stocked(st0, st, l1, lo, v, hi)
  }

  lemma LoopTurn(st0: State, st: State, l1: int, lo: nat, v: nat, hi: nat)
    requires LoopOk(st0, st, l1, lo, v, hi) && lo <= v < hi <= 256 * 4095
    ensures Space(st, l1) && RoomFor(st, l1, v) && v / 256 < 4095
  {
    hide Space, RowsOf, RoomFor, Stocked, ViewsMapped, RowsAdded, Frugal, PagesSpared, Grown;
    StockedRoom(st0, st, l1, lo, v, hi);
  }

  lemma LoopPage(v: nat, hi: nat)
    requires v < hi <= 256 * 4095
    ensures v / 256 < 4095
  {
  }

  lemma LoopParts(st0: State, st: State, l1: int, lo: nat, v: nat, hi: nat)
    requires LoopOk(st0, st, l1, lo, v, hi)
    ensures Mapped(st0, st, l1, lo, v, RowsOf(lo, v)) && Stocked(st0, st, l1, lo, v, hi)
    ensures ViewsMapped(st0, st, l1, lo, v) && RowsAdded(st0, st, l1, RowsOf(lo, v))
  {
    hide Space, RowsOf, Stocked, ViewsMapped, RowsAdded, Frugal, PagesSpared, Grown, RootKept;
  }

  lemma LoopMake(st0: State, st: State, l1: int, lo: nat, v: nat, hi: nat)
    requires Space(st, l1) && Mapped(st0, st, l1, lo, v, RowsOf(lo, v)) && Stocked(st0, st, l1, lo, v, hi)
    ensures LoopOk(st0, st, l1, lo, v, hi)
  {
  }

  lemma LoopNext(st0: State, st: State, st': State, l1: int, lo: nat, v: nat, hi: nat)
    requires LoopOk(st0, st, l1, lo, v, hi) && lo <= v < hi <= 256 * 4095
    requires Space(st', l1) && Mapped(st, st', l1, v, v + 1, {v / 256}) && PageTaken(st, st', l1, v)
    ensures LoopOk(st0, st', l1, lo, v + 1, hi)
  {
    hide *;
    LoopParts(st0, st, l1, lo, v, hi);
    LoopPage(v, hi);
    RowsOfNext(lo, v);
    StockedNext(st0, st, st', l1, lo, v, hi);
    MappedTrans(st0, st, st', l1, lo, v, v + 1, RowsOf(lo, v), {v / 256});
    LoopMake(st0, st', l1, lo, v + 1, hi);
  }

  lemma LoopStart(st: State, l1: int, lo: nat, hi: nat)
    requires Inv(st) && Space(st, l1) && Stocked(st, st, l1, lo, lo, hi)
    ensures LoopOk(st, st, l1, lo, lo, hi)
  {
    MappedNone(st, l1, lo);
    assert RowsOf(lo, lo) == {};
    hide Mapped, Space, Stocked;
  }

  lemma LoopEnd(st0: State, st: State, l1: int, lo: nat, v: nat, hi: nat)
    requires LoopOk(st0, st, l1, lo, v, hi)
    ensures Space(st, l1) && Mapped(st0, st, l1, lo, v, RowsOf(lo, v))
  {
    hide Space, Mapped, Stocked;
  }

  /** `make_sure_user_space`: for a range below the kernel's last megabyte. */
  method MakeSureUserSpace(heap: Heap.Allocator, l1: int, start: nat, size: nat) returns (root: int)
    requires heap.Valid() && Space(heap.St(), l1)
    requires start < 0x1_0000_0000 && size < 0x1_0000_0000 && LastPage(start, size) <= 256 * 4095
    requires Stocked(heap.St(), heap.St(), l1, StartPage(start), StartPage(start), LastPage(start, size))
    modifies heap, heap.mem
    ensures root == l1 && heap.Valid() && Space(heap.St(), l1)
    ensures Mapped(old(heap.St()), heap.St(), l1, StartPage(start), LastPage(start, size), RowsOf(StartPage(start), LastPage(start, size)))
  {
    hide *;
    var startVa := start - start % 4096;
    var up := (start + size + 4095) % 0x1_0000_0000;
    var endVa := up - up % 4096;
    ghost var lo, hi: nat := StartPage(start), LastPage(start, size);
    AlignedRange(start, size);
    PageAddress(start, size, lo);
    ghost var st0 := heap.St();
    LoopStart(st0, l1, lo, hi);
    var va := startVa;
    ghost var v := lo;
    while va < endVa
      invariant va == 4096 * v && lo <= v <= hi && (va < endVa <==> v < hi)
      invariant heap.Valid() && LoopOk(st0, heap.St(), l1, lo, v, hi)
    {
      ghost var st := heap.St();
      LoopTurn(st0, st, l1, lo, v, hi);
      MapPage(heap, l1, va / 4096);
      LoopNext(st0, st, heap.St(), l1, lo, v, hi);
      va := va + 4096;
      v := v + 1;
      PageAddress(start, size, v);
    }
    LoopEnd(st0, heap.St(), l1, lo, v, hi);
    root := l1;
  }

  // ----- what a mapped range is good for -----

  lemma NewFields(e: int)
    requires e == PageEntry(Pa(e), 255, 1, 1)
    ensures Small(e) && Perms(e) == 255 && Kind(e) != 0
  {
    PageEntryFields(Pa(e), 255, 1, 1);
  }

  lemma OpenedFields(e: int)
    ensures Kind(OpenPerms(e)) == Kind(e) && Perms(OpenPerms(e)) == 255 && Pa(OpenPerms(e)) == Pa(e) && (Small(OpenPerms(e)) <==> Small(e))
    ensures Small(e) ==> Kind(e) != 0
  {
    OpenPermsFields(e);
  }

  lemma KeptPage(st0: State, st: State, l1: int, v: nat)
    requires Space(st0, l1) && PagesSpared(st0, st, l1) && Small(View(st0.words, l1, v))
    ensures SamePage(st0.words, st.words, Pa(View(st0.words, l1, v)), Pa(View(st0.words, l1, v)))
  {
    var i, l2 := v / 256, TableAt(st0.words, l1, v / 256);
    hide PagesSpared, Space, Pa, L2At, TableAt, SamePage, Owned, RowAt, RowOk;
    SpaceRow(st0, l1, i);
    PageOwned(st0, l2, v % 256);
    SparedPage(st0, st, l1, Pa(L2At(st0.words, l2, v % 256)));
  }

  /** A mapped page can be accessed; a page that was there keeps its frame and its bytes, and a new
      one is zero. */
  lemma MappedPage(st0: State, st: State, l1: int, lo: nat, hi: nat, rows: set<nat>, v: nat)
    requires Inv(st0) && Space(st0, l1) && Mapped(st0, st, l1, lo, hi, rows) && lo <= v < hi
    ensures Kind(View(st.words, l1, v)) != 0
    ensures var e, e' := View(st0.words, l1, v), View(st.words, l1, v); Kind(e) == 0 ==> Small(e') && Perms(e') == 255 && ZeroPage(st.words, Pa(e')) && Pa(e') !in st0.live
    ensures var e, e' := View(st0.words, l1, v), View(st.words, l1, v); Small(e) ==> Small(e') && Perms(e') == 255 && Pa(e') == Pa(e) && SamePage(st0.words, st.words, Pa(e), Pa(e))
  {
    hide PagesSpared, Grown, RowsAdded, Frugal, PageEntry, OpenPerms, Pa, Perms, ZeroPage, SamePage, Space, Owned, Inv, View, Kind, Small;
    var e, e' := View(st0.words, l1, v), View(st.words, l1, v);
    assert PageMapped(st0, st, l1, v);
    OpenedFields(e);
    if Kind(e) == 0 { NewFields(e'); }
    if Small(e) { KeptPage(st0, st, l1, v); }
  }

  lemma SparedPage(st0: State, st: State, l1: int, p: int)
    requires PagesSpared(st0, st, l1) && Owned(st0, PAGE_CLASS, p)
    ensures SamePage(st0.words, st.words, p, p)
  {
    RequestClasses();
    hide Owned, Inv, SpaceBlocks, BlockSize;
    assert SameBlock(st0.words, st.words, p, BlockSize(PAGE_CLASS));
  }

  /** A second call on the same range allocates nothing. */
  lemma MappedTwice(a: State, b: State, c: State, l1: int, lo: nat, hi: nat)
    requires Inv(a) && Space(a, l1) && Mapped(a, b, l1, lo, hi, RowsOf(lo, hi)) && Mapped(b, c, l1, lo, hi, RowsOf(lo, hi))
    ensures c.live == b.live
  {
    hide PagesSpared, Grown, RowsAdded, Inv, Space, Mapped, Kind, ViewsMapped, RowAt, View;
    forall v: nat | lo <= v < hi ensures Kind(View(b.words, l1, v)) != 0 { MappedPage(a, b, l1, lo, hi, RowsOf(lo, hi), v); }
    assert NoFaults(b.words, l1, lo, hi);
    forall i | i in RowsOf(lo, hi) ensures RowAt(b.words, l1, i) {
      var w: nat :| lo <= w < hi && w / 256 == i;
      FaultRow(b.words, l1, w);
    }
    MappedFrugal(b, c, l1, lo, hi, RowsOf(lo, hi));
  }

  lemma MappedFrugal(st0: State, st: State, l1: int, lo: nat, hi: nat, rows: set<nat>)
    requires Mapped(st0, st, l1, lo, hi, rows)
    ensures Frugal(st0, st, l1, lo, hi, rows)
  {
  }

  lemma FaultRow(m: Mem, l1: int, v: nat)
    requires Kind(View(m, l1, v)) != 0
    ensures RowAt(m, l1, v / 256)
  {
    hide RowAt, L2At, TableAt;
  }

  /** ... and needs no room. */
  lemma {:induction false} NeedNothing(m: Mem, l1: int, lo: nat, v: nat, hi: nat)
    requires forall w: nat :: v <= w < hi ==> Kind(View(m, l1, w)) != 0
    ensures TablesNeed(m, l1, lo, v, hi) == 0 && PagesNeed(m, l1, v, hi) == 0
    decreases hi - v
  {
    if v < hi {
      NeedNothing(m, l1, lo, v + 1, hi);
      FaultRow(m, l1, v);
      hide View, Kind, RowAt;
    }
  }
}
