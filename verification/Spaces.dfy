// Whole address spaces: a root table, its second-level tables and their pages
// (final/src/vm.c), as blocks of the allocator.
module Spaces {
  import opened Arenas
  import opened LinkedList
  import opened Blocks
  import opened Frames
  import opened PageTables

  const ROWS: nat := 4095

  /** Row `i` of the user part of a root table has a second-level table. */
  predicate RowAt(m: Mem, l1: int, i: nat) { i < 4095 && Coarse(L1At(m, l1, i)) }

  function TableAt(m: Mem, l1: int, i: nat): int { L2Base(L1At(m, l1, i)) }

  /** All tables are in order and share no block. */
  ghost predicate Space(st: State, l1: int) {
    && Owned(st, L1_CLASS, l1)
    && (forall i: nat :: RowAt(st.words, l1, i) ==> RowOk(st, TableAt(st.words, l1, i)))
    && (forall i: nat, k: nat :: i < k && RowAt(st.words, l1, i) && RowAt(st.words, l1, k) ==> RowBlocks(st.words, TableAt(st.words, l1, i)) !! RowBlocks(st.words, TableAt(st.words, l1, k)))
  }

  /** The blocks of the tables among the first `i` rows. */
  ghost function RowsUpTo(m: Mem, l1: int, i: nat): set<int> {
    if i == 0 then {} else RowsUpTo(m, l1, i - 1) + (if RowAt(m, l1, i - 1) then RowBlocks(m, TableAt(m, l1, i - 1)) else {})
  }

  ghost function SpaceBlocks(m: Mem, l1: int): set<int> {
    {l1} + RowsUpTo(m, l1, ROWS)
  }

  lemma {:induction false} RowsIn(m: Mem, l1: int, i: nat, x: int)
    ensures x in RowsUpTo(m, l1, i) <==> exists k: nat :: k < i && RowAt(m, l1, k) && x in RowBlocks(m, TableAt(m, l1, k))
  {
    hide RowAt, RowBlocks, TableAt;
    if i > 0 {
      RowsIn(m, l1, i - 1, x);
      if x in RowsUpTo(m, l1, i) && x !in RowsUpTo(m, l1, i - 1) {
        assert RowAt(m, l1, i - 1) && x in RowBlocks(m, TableAt(m, l1, i - 1));
      }
    }
  }

  /** Rows that read the same and have the same blocks. */
  ghost predicate SameRow(m: Mem, m': Mem, l1: int, k: nat) {
    && L1At(m', l1, k) == L1At(m, l1, k)
    && (RowAt(m, l1, k) ==> RowBlocks(m', TableAt(m, l1, k)) == RowBlocks(m, TableAt(m, l1, k)))
  }

  lemma {:induction false} RowsSame(m: Mem, m': Mem, l1: int, i: nat)
    requires forall k: nat :: k < i ==> SameRow(m, m', l1, k)
    ensures RowsUpTo(m', l1, i) == RowsUpTo(m, l1, i)
  {
    if i > 0 {
      RowsSame(m, m', l1, i - 1);
      assert SameRow(m, m', l1, i - 1);
      hide RowBlocks;
    }
  }

  lemma RowLive(st: State, l2: int, x: int)
    requires RowOk(st, l2) && x in RowBlocks(st.words, l2)
    ensures x in st.live && (Owned(st, L2_CLASS, x) || Owned(st, PAGE_CLASS, x))
  {
    FrameIn(st.words, l2, 256, x);
    hide Small, Pa, L2At;
  }

  lemma RootOwned(st: State, l1: int)
    requires Space(st, l1)
    ensures Owned(st, L1_CLASS, l1) && Owned(st, 10, l1)
  {
    hide RowOk, RowBlocks;
  }

  lemma SpaceRow(st: State, l1: int, i: nat)
    requires Space(st, l1) && RowAt(st.words, l1, i)
    ensures RowOk(st, TableAt(st.words, l1, i))
  {
    hide RowOk, RowBlocks, Owned;
  }

  /** A root table is not a block of a row. */
  lemma RootApart(st: State, l1: int, l2: int)
    requires Inv(st) && Owned(st, L1_CLASS, l1) && RowOk(st, l2)
    ensures l1 !in RowBlocks(st.words, l2)
  {
    if l1 in RowBlocks(st.words, l2) {
      RowLive(st, l2, l1);
      hide Owned, Inv, RowOk;
      if Owned(st, L2_CLASS, l1) { OneClass(st, L1_CLASS, L2_CLASS, l1); } else { OneClass(st, L1_CLASS, PAGE_CLASS, l1); }
    }
  }

  // ----- surviving changes elsewhere -----

  lemma EntrySurvives(st: State, st': State, gone: set<int>, l2: int, j: nat)
    requires RowOk(st, l2) && SparesBlocks(st, st', gone) && l2 !in gone && j < 256
    ensures Owned(st', L2_CLASS, l2) && L2At(st'.words, l2, j) == L2At(st.words, l2, j)
  {
    RequestClasses();
    hide BlockSize, Inv, Owned, Spares;
    TableOwned(st, l2);
    SparedWord(st, st', gone, L2_CLASS, l2, l2 + 4 * j);
  }

  lemma TableOwned(st: State, l2: int)
    requires RowOk(st, l2)
    ensures Owned(st, L2_CLASS, l2) && Owned(st, 6, l2) && l2 in RowBlocks(st.words, l2)
  {
    hide Owned;
  }

  lemma PageOwned(st: State, l2: int, j: nat)
    requires RowOk(st, l2) && j < 256 && Small(L2At(st.words, l2, j))
    ensures Owned(st, PAGE_CLASS, Pa(L2At(st.words, l2, j))) && Owned(st, 8, Pa(L2At(st.words, l2, j)))
    ensures Pa(L2At(st.words, l2, j)) in RowBlocks(st.words, l2)
  {
    FrameIn(st.words, l2, 256, Pa(L2At(st.words, l2, j)));
    hide Owned, Small, Pa, L2At;
  }

  lemma RowSurvives(st: State, st': State, gone: set<int>, l2: int)
    requires RowOk(st, l2) && SparesBlocks(st, st', gone) && RowBlocks(st.words, l2) !! gone
    ensures RowOk(st', l2) && RowBlocks(st'.words, l2) == RowBlocks(st.words, l2)
    ensures forall j: nat :: j < 256 ==> L2At(st'.words, l2, j) == L2At(st.words, l2, j)
  {
    TableOwned(st, l2);
    forall j: nat | j < 256 ensures L2At(st'.words, l2, j) == L2At(st.words, l2, j) {
      EntrySurvives(st, st', gone, l2, j);
    }
    EntrySurvives(st, st', gone, l2, 0);
    RowSame(st.words, st'.words, l2, 256);
    hide BlockSize, Inv, Small, Pa, Owned, L2At;
    forall j: nat | j < 256 && Small(L2At(st'.words, l2, j)) ensures Owned(st', PAGE_CLASS, Pa(L2At(st'.words, l2, j))) {
      PageOwned(st, l2, j);
    }
  }

  lemma PageSurvives(st: State, st': State, gone: set<int>, p: int)
    requires Owned(st, PAGE_CLASS, p) && SparesBlocks(st, st', gone) && p !in gone
    ensures Owned(st', PAGE_CLASS, p) && SamePage(st.words, st'.words, p, p)
  {
    RequestClasses();
    hide BlockSize, Inv, Owned;
    assert SameBlock(st.words, st'.words, p, BlockSize(PAGE_CLASS));
  }

  lemma RootSurvives(st: State, st': State, gone: set<int>, l1: int, i: nat)
    requires Owned(st, L1_CLASS, l1) && SparesBlocks(st, st', gone) && l1 !in gone && i < 4096
    ensures Owned(st', L1_CLASS, l1) && L1At(st'.words, l1, i) == L1At(st.words, l1, i)
  {
    RequestClasses();
    hide BlockSize, Inv, Owned, Spares;
    SparedWord(st, st', gone, L1_CLASS, l1, l1 + 4 * i);
  }

  /** An address space survives whatever spares its blocks. */
  lemma SpaceSurvives(st: State, st': State, gone: set<int>, l1: int)
    requires Space(st, l1) && SparesBlocks(st, st', gone) && SpaceBlocks(st.words, l1) !! gone
    ensures Space(st', l1) && SpaceBlocks(st'.words, l1) == SpaceBlocks(st.words, l1)
    ensures forall i: nat :: i < 4096 ==> L1At(st'.words, l1, i) == L1At(st.words, l1, i)
    ensures forall i: nat :: i < 4095 ==> SameRow(st.words, st'.words, l1, i)
  {
    forall i: nat | i < 4096 ensures L1At(st'.words, l1, i) == L1At(st.words, l1, i) {
      RootSurvives(st, st', gone, l1, i);
    }
    RootSurvives(st, st', gone, l1, 0);
    forall i: nat | RowAt(st.words, l1, i)
      ensures var l2 := TableAt(st.words, l1, i); RowOk(st', l2) && RowBlocks(st'.words, l2) == RowBlocks(st.words, l2)
    {
      RowOfSpace(st, l1, i, gone);
      RowSurvives(st, st', gone, TableAt(st.words, l1, i));
    }
    hide Coarse, L2Base, RowOk, RowBlocks, L1At, Spares, Owned;
    RowsSame(st.words, st'.words, l1, ROWS);
    SpaceSame(st, st', l1);
  }

  lemma SpaceSame(st: State, st': State, l1: int)
    requires Space(st, l1) && Owned(st', L1_CLASS, l1)
    requires forall i: nat :: i < 4095 ==> SameRow(st.words, st'.words, l1, i)
    requires forall i: nat :: RowAt(st.words, l1, i) ==> RowOk(st', TableAt(st.words, l1, i))
    ensures Space(st', l1)
  {
    hide Coarse, L2Base, RowOk, RowBlocks, L1At, Owned;
    assert forall i: nat :: i < 4095 ==> SameRow(st.words, st'.words, l1, i);
    forall i: nat | RowAt(st'.words, l1, i)
      ensures RowAt(st.words, l1, i) && TableAt(st'.words, l1, i) == TableAt(st.words, l1, i) && RowOk(st', TableAt(st'.words, l1, i))
      ensures RowBlocks(st'.words, TableAt(st'.words, l1, i)) == RowBlocks(st.words, TableAt(st.words, l1, i))
    {
      assert SameRow(st.words, st'.words, l1, i);
    }
  }

  lemma RowOfSpace(st: State, l1: int, i: nat, gone: set<int>)
    requires Space(st, l1) && RowAt(st.words, l1, i) && SpaceBlocks(st.words, l1) !! gone
    ensures var l2 := TableAt(st.words, l1, i); RowOk(st, l2) && RowBlocks(st.words, l2) !! gone && RowBlocks(st.words, l2) <= SpaceBlocks(st.words, l1)
  {
    hide RowOk, RowBlocks, TableAt;
    forall x | x in RowBlocks(st.words, TableAt(st.words, l1, i)) ensures x in RowsUpTo(st.words, l1, 4095) {
      RowsIn(st.words, l1, 4095, x);
    }
  }

  // ----- stores into tables -----

  lemma ExtendsLive(a: State, b: State)
    requires Extends(a, b)
    ensures a.live <= b.live && |a.cur| == |b.cur| == |b.free| == CLASSES && Inv(b)
  {
  }

  ghost function Stored(b: State, n1: int, i: nat, e: int): (c: State)
    ensures c.live == b.live
  {
    b.(words := b.words[n1 + 4 * i := e])
  }

  /** A root table after a store to its entry `i`. */
  lemma RootStored(st: State, b: State, n1: int, i: nat, e: int)
    requires Owned(st, 10, n1) && Extends(st, b) && i < 4096
    ensures var c := Stored(b, n1, i, e); Spares(b, c, {n1}) && Spares(st, c, {n1}) && Owned(c, L1_CLASS, n1) && L1At(c.words, n1, i) == e
    ensures var c := Stored(b, n1, i, e); forall k: nat :: k < 4096 && k != i ==> L1At(c.words, n1, k) == L1At(st.words, n1, k)
  {
    RequestClasses();
    var c := b.(words := b.words[n1 + 4 * i := e]);
    ExtendsSpares(st, b);
    ExtendsLive(st, b);
    RootSurvives(st, b, {}, n1, 0);
    hide Inv, Extends, BlockSize, Owned, Spares;
    StoreSpares(b, c.words, L1_CLASS, n1);
    SparesTrans(st, b, c, {}, {n1});
    assert {} + {n1} == {n1};
    OwnedWords(b, c.words, n1);
    forall k: nat | k < 4096 && k != i ensures L1At(c.words, n1, k) == L1At(st.words, n1, k) {
      RootSurvives(st, b, {}, n1, k);
    }
  }

  lemma OwnedWords(b: State, m: Mem, n1: int)
    requires Owned(b, L1_CLASS, n1)
    ensures Owned(b.(words := m), L1_CLASS, n1)
  {
  }

  /** A second-level table after a store to its entry `j`. */
  lemma EntryStored(st: State, b: State, l2: int, j: nat, e: int)
    requires Owned(st, 6, l2) && Extends(st, b) && j < 256
    ensures var c := Stored(b, l2, j, e); Spares(b, c, {l2}) && Spares(st, c, {l2}) && Owned(c, L2_CLASS, l2) && L2At(c.words, l2, j) == e
    ensures var c := Stored(b, l2, j, e); forall k: nat :: k < 256 && k != j ==> L2At(c.words, l2, k) == L2At(st.words, l2, k)
  {
    RequestClasses();
    var c := Stored(b, l2, j, e);
    ExtendsSpares(st, b);
    ExtendsLive(st, b);
    assert Owned(b, L2_CLASS, l2) && Owned(c, L2_CLASS, l2);
    hide Inv, Extends, BlockSize, Owned, Spares;
    StoreSpares(b, c.words, L2_CLASS, l2);
    SparesTrans(st, b, c, {}, {l2});
    assert {} + {l2} == {l2};
    forall k: nat | k < 256 && k != j ensures L2At(c.words, l2, k) == L2At(st.words, l2, k) {
      SparedWord(st, b, {}, L2_CLASS, l2, l2 + 4 * k);
    }
  }
}
