// `free_L1_page_table` in place (final/src/vm.c, lines 82-116) and what fork and teardown
// together conserve.
module Teardown {
  import opened Arenas
  import opened LinkedList
  import opened Blocks
  import opened Frames
  import opened PageTables
  import opened Spaces
  import opened Fork
  import Heap

  /** Between `a` and `b` exactly the live blocks in `gone` were freed. */
  ghost predicate Released(a: State, b: State, gone: set<int>) {
    Spares(a, b, gone) && b.live == a.live - gone
  }

  lemma ReleasedNone(a: State)
    requires Inv(a)
    ensures Released(a, a, {})
  {
    hide ClassOk, Owned, BlockSize;
  }

  /** Freeing one more block. */
  lemma ReleaseMore(a: State, b: State, gone: set<int>, c: nat, p: int)
    requires Released(a, b, gone) && Owned(a, c, p) && p !in gone
    ensures p in b.live && Owned(b, c, p) && Released(a, Free(b, p), gone + {p})
  {
    SparesInv(a, b, gone);
    SparesOwned(a, b, gone, c, p);
    FreeSpares(b, c, p);
    hide Spares, Owned, Free, Inv;
    SparesTrans(a, b, Free(b, p), gone, {p});
  }

  lemma SparesInv(a: State, b: State, gone: set<int>)
    requires Spares(a, b, gone)
    ensures Inv(b) && |b.cur| == |b.free| == CLASSES
  {
  }

  lemma SparesOwned(a: State, b: State, gone: set<int>, c: nat, p: int)
    requires Spares(a, b, gone) && Owned(a, c, p) && p !in gone
    ensures Owned(b, c, p) && p in b.live
  {
    hide Inv, BlockSize;
  }

  /** Page frames lie below the kernel's last megabyte, so the test of line 99 never spares one. */
  lemma FrameLow(st: State, p: int)
    requires Inv(st) && Owned(st, PAGE_CLASS, p)
    ensures p < 0xFFF0_0000
  {
    ClassParts(st, PAGE_CLASS);
    CarvedBounds(st, PAGE_CLASS, p);
    hide Inv;
    EndIs(PAGE_CLASS);
    StartAfter(PAGE_CLASS, CLASSES);
    ArenasEnd();
  }

  /** Frames of the first `j` entries freed. */
  ghost predicate FramesFreed(st0: State, st: State, l2: int, j: nat) {
    Released(st0, st, RowFrames(st0.words, l2, j))
  }

  lemma FrameNext(st0: State, st: State, l2: int, j: nat)
    requires Inv(st0) && RowOk(st0, l2) && FramesFreed(st0, st, l2, j) && j < 256
    ensures L2At(st.words, l2, j) == L2At(st0.words, l2, j)
    ensures var e := L2At(st0.words, l2, j); Small(e) ==> Pa(e) < 0xFFF0_0000 && Pa(e) in st.live && FramesFreed(st0, Free(st, Pa(e)), l2, j + 1) && |st.cur| == |st.free| == 21
    ensures !Small(L2At(st0.words, l2, j)) ==> FramesFreed(st0, st, l2, j + 1)
  {
    var e := L2At(st0.words, l2, j);
    TableNotFrame(st0, l2, j);
    SparesInv(st0, st, RowFrames(st0.words, l2, j));
    EntrySurvives(st0, st, RowFrames(st0.words, l2, j), l2, j);
    hide Owned, Inv, L2At, Small, Pa, RowOk, Spares, Free;
    if Small(e) {
      PageOwned(st0, l2, j);
      FrameLow(st0, Pa(e));
      FrameDistinct(st0, l2, j);
      ReleaseMore(st0, st, RowFrames(st0.words, l2, j), PAGE_CLASS, Pa(e));
    }
  }

  lemma FrameDistinct(st: State, l2: int, j: nat)
    requires RowOk(st, l2) && j < 256 && Small(L2At(st.words, l2, j))
    ensures Pa(L2At(st.words, l2, j)) !in RowFrames(st.words, l2, j)
  {
    FrameIn(st.words, l2, j, Pa(L2At(st.words, l2, j)));
    hide Small, Pa, L2At, Owned;
  }

  lemma TableNotFrame(st: State, l2: int, j: nat)
    requires Inv(st) && RowOk(st, l2) && j <= 256
    ensures l2 !in RowFrames(st.words, l2, j)
  {
    if l2 in RowFrames(st.words, l2, j) {
      FrameIn(st.words, l2, j, l2);
      hide Small, Pa, L2At, Owned, Inv;
      OneClass(st, L2_CLASS, PAGE_CLASS, l2);
    }
  }

  /** Lines 94-112: the pages of one table. */
  method FreeFrames(heap: Heap.Allocator, l2: int)
    requires heap.Valid() && RowOk(heap.St(), l2)
    modifies heap, heap.mem
    ensures heap.Valid() && FramesFreed(old(heap.St()), heap.St(), l2, 256)
  {
    hide *;
    ghost var st0 := heap.St();
    FramesStart(st0, l2);
    for j := 0 to 256
      invariant heap.Valid() && FramesFreed(st0, heap.St(), l2, j)
    {
      FrameNext(st0, heap.St(), l2, j);
      var e := L2At(heap.mem.words, l2, j);
      if Small(e) && Pa(e) < 0xFFF0_0000 {
        heap.Kfree(Pa(e));
      }
    }
  }

  lemma FramesStart(st: State, l2: int)
    requires Inv(st)
    ensures FramesFreed(st, st, l2, 0)
  {
    ReleasedNone(st);
  }

  /** One table and its pages. */
  method FreeRow(heap: Heap.Allocator, l2: int)
    requires heap.Valid() && RowOk(heap.St(), l2)
    modifies heap, heap.mem
    ensures heap.Valid() && Released(old(heap.St()), heap.St(), RowBlocks(old(heap.mem.words), l2))
  {
    hide *;
    ghost var st0 := heap.St();
    FreeFrames(heap, l2);
    TableGone(st0, heap.St(), l2);
    heap.Kfree(l2);
  }

  lemma TableGone(st0: State, st: State, l2: int)
    requires Inv(st0) && RowOk(st0, l2) && FramesFreed(st0, st, l2, 256)
    ensures l2 in st.live && |st.cur| == |st.free| == 21 && Released(st0, Free(st, l2), RowBlocks(st0.words, l2))
  {
    TableNotFrame(st0, l2, 256);
    TableOwned(st0, l2);
    ReleaseMore(st0, st, RowFrames(st0.words, l2, 256), L2_CLASS, l2);
    SparesInv(st0, st, RowFrames(st0.words, l2, 256));
    hide Spares, Owned, Free, RowOk, Inv;
    assert RowFrames(st0.words, l2, 256) + {l2} == RowBlocks(st0.words, l2);
  }

  /** The tables of the first `i` rows freed. */
  ghost predicate RowsFreed(st0: State, st: State, l1: int, i: nat) {
    Released(st0, st, RowsUpTo(st0.words, l1, i))
  }

  lemma RowNext(st0: State, st: State, l1: int, i: nat)
    requires Inv(st0) && Space(st0, l1) && RowsFreed(st0, st, l1, i) && i < 4095
    ensures Inv(st) && L1At(st.words, l1, i) == L1At(st0.words, l1, i)
    ensures var l2 := L2Base(L1At(st0.words, l1, i)); Coarse(L1At(st0.words, l1, i)) ==> RowOk(st, l2) && RowBlocks(st.words, l2) == RowBlocks(st0.words, l2)
    ensures !Coarse(L1At(st0.words, l1, i)) ==> RowsFreed(st0, st, l1, i + 1)
  {
    RootOwned(st0, l1);
    RootNotInRows(st0, l1, i);
    SparesInv(st0, st, RowsUpTo(st0.words, l1, i));
    RootSurvives(st0, st, RowsUpTo(st0.words, l1, i), l1, i);
    hide Owned, Inv, L1At, Coarse, L2Base, Space, Spares, RowOk, RowBlocks;
    if Coarse(L1At(st0.words, l1, i)) {
      var l2 := TableAt(st0.words, l1, i);
      SpaceRow(st0, l1, i);
      RowApart(st0, l1, i);
      RowSurvives(st0, st, RowsUpTo(st0.words, l1, i), l2);
    }
  }

  lemma RootNotInRows(st: State, l1: int, i: nat)
    requires Inv(st) && Space(st, l1)
    ensures l1 !in RowsUpTo(st.words, l1, i)
  {
    if l1 in RowsUpTo(st.words, l1, i) {
      RowsIn(st.words, l1, i, l1);
      hide Inv, Owned, RowBlocks, RowAt, RowOk, TableAt;
      var k: nat :| k < i && RowAt(st.words, l1, k) && l1 in RowBlocks(st.words, TableAt(st.words, l1, k));
      RootApart(st, l1, TableAt(st.words, l1, k));
    }
  }

  /** A row's blocks are not among those of the rows before. */
  lemma RowApart(st: State, l1: int, i: nat)
    requires Space(st, l1) && RowAt(st.words, l1, i)
    ensures RowBlocks(st.words, TableAt(st.words, l1, i)) !! RowsUpTo(st.words, l1, i)
  {
    hide Owned, RowBlocks, RowAt, RowOk, TableAt;
    forall x | x in RowsUpTo(st.words, l1, i) ensures x !in RowBlocks(st.words, TableAt(st.words, l1, i)) {
      RowsIn(st.words, l1, i, x);
      var k: nat :| k < i && RowAt(st.words, l1, k) && x in RowBlocks(st.words, TableAt(st.words, l1, k));
      assert RowBlocks(st.words, TableAt(st.words, l1, k)) !! RowBlocks(st.words, TableAt(st.words, l1, i));
    }
  }

  lemma RowGone(st0: State, st: State, st': State, l1: int, i: nat)
    requires RowsFreed(st0, st, l1, i) && i < 4095 && Coarse(L1At(st0.words, l1, i))
    requires RowBlocks(st.words, L2Base(L1At(st0.words, l1, i))) == RowBlocks(st0.words, L2Base(L1At(st0.words, l1, i)))
    requires Released(st, st', RowBlocks(st.words, L2Base(L1At(st0.words, l1, i))))
    ensures RowsFreed(st0, st', l1, i + 1)
  {
    var g, h := RowsUpTo(st0.words, l1, i), RowBlocks(st0.words, TableAt(st0.words, l1, i));
    SparesTrans(st0, st, st', g, h);
    hide Spares, RowBlocks, L1At, L2Base, Coarse;
    assert RowsUpTo(st0.words, l1, i + 1) == g + h;
  }

  /** `free_L1_page_table`: frees exactly the blocks of the address space. */
  method FreeL1PageTable(heap: Heap.Allocator, l1: int)
    requires heap.Valid() && Space(heap.St(), l1)
    modifies heap, heap.mem
    ensures heap.Valid() && Released(old(heap.St()), heap.St(), SpaceBlocks(old(heap.mem.words), l1))
  {
    hide *;
    ghost var st0 := heap.St();
    RowsStart(st0, l1);
    for i := 0 to 4095
      invariant heap.Valid() && RowsFreed(st0, heap.St(), l1, i)
    {
      ghost var st := heap.St();
      RowNext(st0, st, l1, i);
      var e := L1At(heap.mem.words, l1, i);
      if Coarse(e) {
        FreeRow(heap, L2Base(e));
        RowGone(st0, st, heap.St(), l1, i);
      }
    }
    RootGone(st0, heap.St(), l1);
    heap.Kfree(l1);
  }

  lemma RowsStart(st: State, l1: int)
    requires Inv(st)
    ensures RowsFreed(st, st, l1, 0)
  {
    ReleasedNone(st);
  }

  lemma RootGone(st0: State, st: State, l1: int)
    requires Inv(st0) && Space(st0, l1) && RowsFreed(st0, st, l1, 4095)
    ensures l1 in st.live && |st.cur| == |st.free| == 21 && Released(st0, Free(st, l1), SpaceBlocks(st0.words, l1))
  {
    RootNotInRows(st0, l1, 4095);
    RootOwned(st0, l1);
    ReleaseMore(st0, st, RowsUpTo(st0.words, l1, 4095), L1_CLASS, l1);
    SparesInv(st0, st, RowsUpTo(st0.words, l1, 4095));
    hide Spares, Owned, Free, Space, Inv;
    assert RowsUpTo(st0.words, l1, 4095) + {l1} == SpaceBlocks(st0.words, l1);
  }

  // ----- fork and teardown together -----

  /** No device row has a second-level table. */
  predicate NoDeviceTables(m: Mem, l1: int) {
    forall k: nat :: 512 <= k < 516 ==> !Coarse(L1At(m, l1, k))
  }

  lemma RowOfChild(st0: State, st: State, l1: int, n1: int, i: nat)
    requires TableForked(st0, st, l1, n1, 4095) && i < 4095
    ensures CopiedRow(st0, st, l1, n1, i)
    ensures Copies(st.words, n1, i) <==> Copies(st0.words, l1, i)
    ensures Copies(st.words, n1, i) ==> RowCopied(st0, st, TableAt(st0.words, l1, i), TableAt(st.words, n1, i))
  {
    CopiedKind(st0, st, l1, n1, i);
    hide CopiedRow, Extends, Owned, L1At, RowBlocks, TableAt, Copies, RowCopied;
    assert CopiedRow(st0, st, l1, n1, i);
    CopiedKind(st0, st, l1, n1, i);
  }

  /** Without device tables every row of the child that has a table is a copy. */
  lemma ChildRow(st0: State, st: State, l1: int, n1: int, i: nat)
    requires TableForked(st0, st, l1, n1, 4095) && i < 4095 && NoDeviceTables(st0.words, l1)
    ensures RowAt(st.words, n1, i) <==> Copies(st.words, n1, i)
    ensures RowAt(st.words, n1, i) ==> RowCopied(st0, st, TableAt(st0.words, l1, i), TableAt(st.words, n1, i))
  {
    RowOfChild(st0, st, l1, n1, i);
    hide Coarse, RowCopied, L2Base, L1At, TableForked;
  }

  lemma {:induction false} ChildBlocks(st0: State, st: State, l1: int, n1: int, i: nat)
    requires TableForked(st0, st, l1, n1, 4095) && i <= 4095 && NoDeviceTables(st0.words, l1)
    ensures RowsUpTo(st.words, n1, i) == CopiesUpTo(st.words, n1, i)
  {
    if i > 0 {
      ChildBlocks(st0, st, l1, n1, i - 1);
      ChildRow(st0, st, l1, n1, i - 1);
      hide TableForked, NoDeviceTables, RowAt, Copies, RowBlocks, TableAt, RowCopied;
    }
  }

  lemma ChildPair(st0: State, st: State, l1: int, n1: int, i: nat, k: nat)
    requires TableForked(st0, st, l1, n1, 4095) && i < k < 4095 && Copies(st.words, n1, i) && Copies(st.words, n1, k)
    ensures RowBlocks(st.words, TableAt(st.words, n1, i)) !! RowBlocks(st.words, TableAt(st.words, n1, k))
  {
    hide Extends, Owned, CopiedRow, Copies, RowBlocks, TableAt, L1At;
  }

  /** The child is an address space of its own, made of exactly the blocks the fork allocated. */
  lemma ForkIsolates(st0: State, st: State, l1: int, n1: int)
    requires TableForked(st0, st, l1, n1, 4095) && NoDeviceTables(st0.words, l1)
    ensures Space(st, n1)
    ensures SpaceBlocks(st.words, n1) !! st0.live && st.live == st0.live + SpaceBlocks(st.words, n1)
  {
    ForkInv(st0, st, l1, n1, 4095);
    ChildBlocks(st0, st, l1, n1, 4095);
    ForkLive(st0, st, l1, n1);
    hide TableForked, NoDeviceTables, Owned, RowBlocks, TableAt, RowAt, RowOk, Inv, Copies, CopiesUpTo;
    forall i: nat | RowAt(st.words, n1, i)
      ensures RowOk(st, TableAt(st.words, n1, i)) && RowBlocks(st.words, TableAt(st.words, n1, i)) !! st0.live && i < 4095 && Copies(st.words, n1, i)
    {
      RowBound(st.words, n1, i);
      ChildRow(st0, st, l1, n1, i);
    }
    forall i: nat, k: nat | i < k && RowAt(st.words, n1, i) && RowAt(st.words, n1, k)
      ensures RowBlocks(st.words, TableAt(st.words, n1, i)) !! RowBlocks(st.words, TableAt(st.words, n1, k))
    {
      RowBound(st.words, n1, k);
      ChildPair(st0, st, l1, n1, i, k);
    }
    forall x | x in RowsUpTo(st.words, n1, 4095) ensures x !in st0.live {
      RowsIn(st.words, n1, 4095, x);
    }
  }

  lemma RowBound(m: Mem, l1: int, i: nat)
    requires RowAt(m, l1, i)
    ensures i < 4095
  {
  }

  lemma ForkLive(st0: State, st: State, l1: int, n1: int)
    requires TableForked(st0, st, l1, n1, 4095)
    ensures st.live == st0.live + {n1} + CopiesUpTo(st.words, n1, 4095)
  {
  }

  /** A device table is shared: the child is isolated exactly when the parent has none. */
  lemma ForkIsolation(st0: State, st: State, l1: int, n1: int)
    requires Space(st0, l1) && TableForked(st0, st, l1, n1, 4095)
    ensures SpaceBlocks(st.words, n1) !! st0.live <==> NoDeviceTables(st0.words, l1)
  {
    if NoDeviceTables(st0.words, l1) {
      ForkIsolates(st0, st, l1, n1);
    } else {
      var k: nat :| 512 <= k < 516 && Coarse(L1At(st0.words, l1, k));
      SharedRow(st0, st, l1, n1, k);
    }
  }

  lemma SharedRow(st0: State, st: State, l1: int, n1: int, k: nat)
    requires Space(st0, l1) && TableForked(st0, st, l1, n1, 4095) && 512 <= k < 516 && Coarse(L1At(st0.words, l1, k))
    ensures TableAt(st0.words, l1, k) in SpaceBlocks(st.words, n1) && TableAt(st0.words, l1, k) in st0.live
  {
    var l2 := TableAt(st0.words, l1, k);
    RowOfChild(st0, st, l1, n1, k);
    SpaceRow(st0, l1, k);
    TableOwned(st0, l2);
    hide Space, TableForked, L1At, Coarse, L2Base, RowOk, RowCopied;
    assert L1At(st.words, n1, k) == L1At(st0.words, l1, k);
    RowsIn(st.words, n1, 4095, l2);
    assert RowAt(st.words, n1, k) && l2 in RowBlocks(st.words, TableAt(st.words, n1, k));
  }

  lemma CopiedBelow(m: Mem, l1: int, i: nat)
    requires Copies(m, l1, i)
    ensures i < 4095
  {
  }

  /** Every small page of the child below the last megabyte is a private page with the same bytes
      as the parent's at the same address, readable and writable. */
  lemma ForkPage(st0: State, st: State, l1: int, n1: int, i: nat, j: nat)
    requires TableForked(st0, st, l1, n1, 4095) && Copies(st0.words, l1, i) && j < 256
    ensures Copies(st.words, n1, i)
    ensures var e, e' := L2At(st0.words, TableAt(st0.words, l1, i), j), L2At(st.words, TableAt(st.words, n1, i), j); !Small(e) ==> e' == e
    ensures var e, e' := L2At(st0.words, TableAt(st0.words, l1, i), j), L2At(st.words, TableAt(st.words, n1, i), j); Small(e) ==> Small(e') && Perms(e') == 255 && Pa(e') !in st0.live && Owned(st, PAGE_CLASS, Pa(e')) && SamePage(st0.words, st.words, Pa(e), Pa(e'))
  {
    hide TableForked, L1At, RowOk, RowBlocks, Owned, SamePage, PageEntry, Pa, Perms, Small, L2At, Coarse, L2Base, CopiedRow, TableAt, Extends;
    CopiedBelow(st0.words, l1, i);
    RowOfChild(st0, st, l1, n1, i);
    var l2, new_ := TableAt(st0.words, l1, i), TableAt(st.words, n1, i);
    assert CopiedEntry(st0, st, l2, new_, j);
    PageEntryFields(Pa(L2At(st.words, new_, j)), 255, 1, 1);
  }

  /** Freeing a forked child gives back exactly what the fork took: the live blocks are those of
      before, and the parent reads the same. */
  lemma ForkThenFree(st0: State, st1: State, st2: State, l1: int, n1: int)
    requires Space(st0, l1) && TableForked(st0, st1, l1, n1, 4095) && NoDeviceTables(st0.words, l1)
    requires Released(st1, st2, SpaceBlocks(st1.words, n1))
    ensures st2.live == st0.live && Extends(st0, st2)
    ensures Space(st2, l1) && SpaceBlocks(st2.words, l1) == SpaceBlocks(st0.words, l1)
  {
    ForkIsolates(st0, st1, l1, n1);
    ForkInv(st0, st1, l1, n1, 4095);
    hide TableForked, NoDeviceTables, Space, Owned, Spares, Inv, Extends, SpaceBlocks;
    SparesExtends(st0, st1, st2, SpaceBlocks(st1.words, n1));
    ExtendsSpares(st0, st2);
    SpaceSurvives(st0, st2, {}, l1);
  }
}
