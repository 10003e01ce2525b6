// `fork_page_table` in place (final/src/vm.c, lines 166-211): a child address space whose
// pages are private copies of the parent's.
module Fork {
  import opened Arenas
  import opened LinkedList
  import opened Blocks
  import opened Frames
  import opened PageTables
  import opened Spaces
  import opened Vm
  import Heap

  /** Rows 512 to 515 map devices and are not copied. */
  predicate Copies(m: Mem, l1: int, i: nat) { RowAt(m, l1, i) && !(512 <= i < 516) }

  /** Table `new_` is a private copy of table `l2`. */
  ghost predicate RowCopied(st0: State, st: State, l2: int, new_: int) {
    && RowOk(st, new_) && RowBlocks(st.words, new_) !! st0.live
    && (forall j: nat :: j < 256 ==> CopiedEntry(st0, st, l2, new_, j))
  }

  /** Row `i` of the child: a private copy, keeping the attribute bits, or the parent's entry. */
  ghost predicate CopiedRow(st0: State, st: State, l1: int, n1: int, i: nat) {
    var e, e' := L1At(st0.words, l1, i), L1At(st.words, n1, i);
    if Copies(st0.words, l1, i) then e' == L2Base(e') + e % 1024 && RowCopied(st0, st, L2Base(e), L2Base(e')) else e' == e
  }

  /** The blocks of the copied tables among the first `i` rows. */
  ghost function CopiesUpTo(m: Mem, l1: int, i: nat): set<int> {
    if i == 0 then {} else CopiesUpTo(m, l1, i - 1) + (if Copies(m, l1, i - 1) then RowBlocks(m, TableAt(m, l1, i - 1)) else {})
  }

  /** The first `i` rows of `l1` copied into root `n1`. */
  ghost predicate TableForked(st0: State, st: State, l1: int, n1: int, i: nat) {
    && Extends(st0, st) && Owned(st, L1_CLASS, n1) && n1 !in st0.live
    && (forall k: nat :: k < i ==> CopiedRow(st0, st, l1, n1, k))
    && (forall k: nat :: i <= k < 4096 ==> L1At(st.words, n1, k) == L1At(st0.words, l1, k))
    && st.live == st0.live + {n1} + CopiesUpTo(st.words, n1, i)
    && (forall k: nat, n: nat :: k < n < i && Copies(st.words, n1, k) && Copies(st.words, n1, n) ==> RowBlocks(st.words, TableAt(st.words, n1, k)) !! RowBlocks(st.words, TableAt(st.words, n1, n)))
  }

  // ----- one row -----

  lemma CopiedSees(st0: State, st: State, st': State, l2: int, new_: int, j: nat)
    requires RowOk(st0, l2) && Extends(st0, st) && j < 256 && CopiedEntry(st, st', l2, new_, j)
    ensures CopiedEntry(st0, st', l2, new_, j)
  {
    ExtendsSpares(st0, st);
    EntrySurvives(st0, st, {}, l2, j);
    hide Owned, Inv, BlockSize, PageEntry, Pa, Small, L2At, Spares, RowOk;
    var e := L2At(st0.words, l2, j);
    if Small(e) {
      PageOwned(st0, l2, j);
      PageSurvives(st0, st, {}, Pa(e));
    }
  }

  /** A table just copied, as seen from the state the fork started in. */
  lemma RowDone(st0: State, st: State, b: State, l2: int, new_: int)
    requires RowOk(st0, l2) && Extends(st0, st) && RowForked(st, b, l2, new_, 256)
    ensures RowCopied(st0, b, l2, new_) && Extends(st0, b) && Extends(st, b)
    ensures b.live == st.live + RowBlocks(b.words, new_) && st.live !! RowBlocks(b.words, new_) && Owned(b, L2_CLASS, new_)
  {
    ForkedRowOk(st, b, l2, new_);
    ForkedExtends(st, b, l2, new_);
    ExtendsTrans(st0, st, b);
    ExtendsLive(st0, st);
    TableOwned(b, new_);
    hide Extends, RowOk, RowBlocks, CopiedEntry;
    forall j: nat | j < 256 ensures CopiedEntry(st0, b, l2, new_, j) {
      assert CopiedEntry(st, b, l2, new_, j);
      CopiedSees(st0, st, b, l2, new_, j);
    }
  }

  lemma ForkedExtends(st: State, b: State, l2: int, new_: int)
    requires RowForked(st, b, l2, new_, 256)
    ensures Extends(st, b)
  {
  }

  lemma RowCopiedKept(st0: State, st: State, st': State, gone: set<int>, l2: int, new_: int)
    requires RowCopied(st0, st, l2, new_) && Spares(st, st', gone) && RowBlocks(st.words, new_) !! gone
    ensures RowCopied(st0, st', l2, new_) && RowBlocks(st'.words, new_) == RowBlocks(st.words, new_)
  {
    RowSurvives(st, st', gone, new_);
    hide Spares, RowBlocks, CopiedEntry;
    forall j: nat | j < 256 ensures CopiedEntry(st0, st', l2, new_, j) {
      assert CopiedEntry(st0, st, l2, new_, j);
      CopiedSpared(st0, st, st', gone, l2, new_, j);
    }
  }

  lemma CopiedSpared(st0: State, st: State, st': State, gone: set<int>, l2: int, new_: int, j: nat)
    requires CopiedEntry(st0, st, l2, new_, j) && Spares(st, st', gone) && RowOk(st, new_) && RowBlocks(st.words, new_) !! gone && j < 256
    requires L2At(st'.words, new_, j) == L2At(st.words, new_, j)
    ensures CopiedEntry(st0, st', l2, new_, j)
  {
    CopiedSmall(st0, st, l2, new_, j);
    hide Owned, PageEntry, Small, Pa, L2At, RowBlocks, RowOk, Spares;
    if Small(L2At(st0.words, l2, j)) {
      PageOwned(st, new_, j);
      PageSurvives(st, st', gone, Pa(L2At(st.words, new_, j)));
      SamePageTrans(st0.words, st.words, st'.words, Pa(L2At(st0.words, l2, j)), Pa(L2At(st.words, new_, j)));
    }
  }

  lemma SamePageTrans(m0: Mem, m: Mem, m': Mem, p: int, q: int)
    requires SamePage(m0, m, p, q) && SamePage(m, m', q, q)
    ensures SamePage(m0, m', p, q)
  {
  }

  // ----- the rows of the child -----

  lemma {:induction false} CopiesSame(m: Mem, m': Mem, l1: int, i: nat)
    requires forall k: nat :: k < i ==> L1At(m', l1, k) == L1At(m, l1, k)
    requires forall k: nat :: k < i && Copies(m, l1, k) ==> RowBlocks(m', TableAt(m, l1, k)) == RowBlocks(m, TableAt(m, l1, k))
    ensures CopiesUpTo(m', l1, i) == CopiesUpTo(m, l1, i)
  {
    if i > 0 {
      CopiesSame(m, m', l1, i - 1);
      hide RowBlocks, L1At, Coarse, L2Base;
      assert L1At(m', l1, i - 1) == L1At(m, l1, i - 1);
    }
  }

  /** The child has a table exactly where the parent has. */
  lemma CopiedKind(st0: State, st: State, l1: int, n1: int, k: nat)
    requires CopiedRow(st0, st, l1, n1, k)
    ensures Copies(st.words, n1, k) <==> Copies(st0.words, l1, k)
    ensures Copies(st.words, n1, k) ==> RowCopied(st0, st, TableAt(st0.words, l1, k), TableAt(st.words, n1, k))
  {
    var e, e' := L1At(st0.words, l1, k), L1At(st.words, n1, k);
    hide L1At, RowCopied;
    if Copies(st0.words, l1, k) { LowKind(e, e'); }
  }

  lemma LowKind(e: int, e': int)
    requires e' == L2Base(e') + e % 1024
    ensures Kind(e') == Kind(e)
  {
    hide L2Base;
    LowBitsKind(e);
    LowBitsKind(e');
    assert e' % 1024 == e % 1024 by { assert e' - e' % 1024 == L2Base(e') by { BaseIs(e'); } }
  }

  lemma BaseIs(e: int)
    ensures e - e % 1024 == L2Base(e)
  {
  }

  lemma LowBitsKind(e: int)
    ensures e % 4 == e % 1024 % 4
  {
    var q := e / 1024;
    assert e == 4 * (256 * q) + e % 1024;
    LastBits(256 * q, e % 1024);
  }

  /** One earlier row after the row being copied. */
  lemma EarlierRow(st0: State, st: State, c: State, l1: int, n1: int, i: nat, k: nat)
    requires TableForked(st0, st, l1, n1, i) && k < i && Spares(st, c, {n1}) && L1At(c.words, n1, k) == L1At(st.words, n1, k)
    ensures CopiedRow(st0, c, l1, n1, k)
    ensures Copies(st.words, n1, k) ==> RowBlocks(c.words, TableAt(st.words, n1, k)) == RowBlocks(st.words, TableAt(st.words, n1, k))
    ensures Copies(st.words, n1, k) ==> RowBlocks(st.words, TableAt(st.words, n1, k)) <= st.live
  {
    assert CopiedRow(st0, st, l1, n1, k);
    CopiedKind(st0, st, l1, n1, k);
    ForkInv(st0, st, l1, n1, i);
    hide Extends, Spares, L1At, RowBlocks, Owned, RowForked, Inv, Coarse, L2Base, CopiedEntry;
    if Copies(st.words, n1, k) {
      var l2, new_ := TableAt(st0.words, l1, k), TableAt(st.words, n1, k);
      RootApart(st, n1, new_);
      RowCopiedKept(st0, st, c, {n1}, l2, new_);
      forall x | x in RowBlocks(st.words, new_) ensures x in st.live { RowLive(st, new_, x); }
    }
  }

  lemma ForkInv(st0: State, st: State, l1: int, n1: int, i: nat)
    requires TableForked(st0, st, l1, n1, i)
    ensures Inv(st) && Extends(st0, st) && Owned(st, L1_CLASS, n1) && Owned(st, 10, n1) && n1 in st.live && n1 !in st0.live
    ensures i < 4096 ==> L1At(st.words, n1, i) == L1At(st0.words, l1, i)
  {
  }

  /** A row that is not copied. */
  lemma TableStepOther(st0: State, st: State, l1: int, n1: int, i: nat)
    requires TableForked(st0, st, l1, n1, i) && i < 4096 && !Copies(st0.words, l1, i)
    ensures TableForked(st0, st, l1, n1, i + 1)
  {
    hide Extends, Owned, RowCopied, RowBlocks, Coarse, L2Base, CopiedRow;
    OtherRow(st0, st, l1, n1, i);
    assert CopiesUpTo(st.words, n1, i + 1) == CopiesUpTo(st.words, n1, i);
  }

  lemma OtherRow(st0: State, st: State, l1: int, n1: int, i: nat)
    requires !Copies(st0.words, l1, i) && L1At(st.words, n1, i) == L1At(st0.words, l1, i)
    ensures CopiedRow(st0, st, l1, n1, i) && !Copies(st.words, n1, i)
  {
  }

  /** The row just copied, after the store. */
  lemma NewRow(st0: State, b: State, c: State, l1: int, n1: int, i: nat, new_: int)
    requires Copies(st0.words, l1, i) && RowCopied(st0, b, L2Base(L1At(st0.words, l1, i)), new_) && n1 !in RowBlocks(b.words, new_)
    requires Spares(b, c, {n1}) && L1At(c.words, n1, i) == new_ + L1At(st0.words, l1, i) % 1024
    ensures CopiedRow(st0, c, l1, n1, i) && Copies(c.words, n1, i) && TableAt(c.words, n1, i) == new_
    ensures RowBlocks(c.words, new_) == RowBlocks(b.words, new_)
  {
    var e := L1At(st0.words, l1, i);
    RowCopiedKept(st0, b, c, {n1}, L2Base(e), new_);
    TableOwned(b, new_);
    TableBase(b, new_, e % 1024);
    hide RowCopied, Spares, RowBlocks, L1At, Owned, L2Base;
    LowKind(e, new_ + e % 1024);
  }

  /** The first `i` rows, after the row being copied. */
  ghost predicate EarlierRows(st0: State, st: State, c: State, l1: int, n1: int, i: nat) {
    && (forall k: nat :: k < i ==> L1At(c.words, n1, k) == L1At(st.words, n1, k))
    && (forall k: nat :: k < i ==> CopiedRow(st0, c, l1, n1, k))
    && (forall k: nat :: k < i && Copies(st.words, n1, k) ==> RowBlocks(c.words, TableAt(st.words, n1, k)) == RowBlocks(st.words, TableAt(st.words, n1, k)))
    && (forall k: nat :: k < i && Copies(st.words, n1, k) ==> RowBlocks(st.words, TableAt(st.words, n1, k)) <= st.live)
  }

  lemma EarlierMake(st0: State, st: State, c: State, l1: int, n1: int, i: nat)
    requires TableForked(st0, st, l1, n1, i) && i < 4096 && Spares(st, c, {n1})
    requires forall k: nat :: k < i ==> L1At(c.words, n1, k) == L1At(st.words, n1, k)
    ensures EarlierRows(st0, st, c, l1, n1, i)
  {
    forall k: nat | k < i
      ensures CopiedRow(st0, c, l1, n1, k)
      ensures Copies(st.words, n1, k) ==> RowBlocks(c.words, TableAt(st.words, n1, k)) == RowBlocks(st.words, TableAt(st.words, n1, k))
      ensures Copies(st.words, n1, k) ==> RowBlocks(st.words, TableAt(st.words, n1, k)) <= st.live
    {
      hide *;
      EarlierRow(st0, st, c, l1, n1, i, k);
    }
  }

  lemma EarlierBlocks(st0: State, st: State, c: State, l1: int, n1: int, i: nat)
    requires EarlierRows(st0, st, c, l1, n1, i)
    ensures CopiesUpTo(c.words, n1, i) == CopiesUpTo(st.words, n1, i)
  {
    hide CopiedRow, L1At, RowBlocks;
    CopiesSame(st.words, c.words, n1, i);
  }

  lemma EarlierPair(st0: State, st: State, c: State, l1: int, n1: int, i: nat, k: nat, n: nat)
    requires TableForked(st0, st, l1, n1, i) && EarlierRows(st0, st, c, l1, n1, i) && k < n <= i
    requires Copies(c.words, n1, k) && Copies(c.words, n1, n)
    requires n == i ==> RowBlocks(c.words, TableAt(c.words, n1, i)) !! st.live
    ensures RowBlocks(c.words, TableAt(c.words, n1, k)) !! RowBlocks(c.words, TableAt(c.words, n1, n))
  {
    hide CopiedRow, RowBlocks, Extends, Coarse, L2Base, Owned, L1At;
    assert L1At(c.words, n1, k) == L1At(st.words, n1, k) && Copies(st.words, n1, k);
    if n < i { assert L1At(c.words, n1, n) == L1At(st.words, n1, n) && Copies(st.words, n1, n); }
  }

  lemma TableNext(st0: State, st: State, c: State, l1: int, n1: int, i: nat)
    requires TableForked(st0, st, l1, n1, i) && EarlierRows(st0, st, c, l1, n1, i) && i < 4095
    requires Extends(st0, c) && Owned(c, L1_CLASS, n1)
    requires CopiedRow(st0, c, l1, n1, i) && Copies(c.words, n1, i)
    requires RowBlocks(c.words, TableAt(c.words, n1, i)) !! st.live
    requires c.live == st.live + RowBlocks(c.words, TableAt(c.words, n1, i))
    requires forall k: nat :: k < 4096 && k != i ==> L1At(c.words, n1, k) == L1At(st.words, n1, k)
    ensures TableForked(st0, c, l1, n1, i + 1)
  {
    hide Copies, RowBlocks, Extends, TableAt, Owned, L1At, CopiedRow;
    EarlierBlocks(st0, st, c, l1, n1, i);
    assert CopiesUpTo(c.words, n1, i + 1) == CopiesUpTo(st.words, n1, i) + RowBlocks(c.words, TableAt(c.words, n1, i));
    forall k: nat, n: nat | k < n < i + 1 && Copies(c.words, n1, k) && Copies(c.words, n1, n)
      ensures RowBlocks(c.words, TableAt(c.words, n1, k)) !! RowBlocks(c.words, TableAt(c.words, n1, n))
    {
      EarlierPair(st0, st, c, l1, n1, i, k, n);
    }
  }

  /** What the copy of row `i` and the store of its root entry amount to. */
  ghost predicate RowAdded(st0: State, st: State, c: State, l1: int, n1: int, i: nat) {
    && Extends(st0, c) && Owned(c, L1_CLASS, n1) && Spares(st, c, {n1})
    && CopiedRow(st0, c, l1, n1, i) && Copies(c.words, n1, i)
    && RowBlocks(c.words, TableAt(c.words, n1, i)) !! st.live
    && c.live == st.live + RowBlocks(c.words, TableAt(c.words, n1, i))
    && forall k: nat :: k < 4096 && k != i ==> L1At(c.words, n1, k) == L1At(st.words, n1, k)
  }

  lemma RowAdds(st0: State, st: State, b: State, l1: int, n1: int, i: nat, new_: int)
    requires TableForked(st0, st, l1, n1, i) && RowOk(st0, L2Base(L1At(st0.words, l1, i))) && Copies(st0.words, l1, i) && i < 4095
    requires RowForked(st, b, L2Base(L1At(st0.words, l1, i)), new_, 256)
    ensures RowAdded(st0, st, Stored(b, n1, i, new_ + L1At(st0.words, l1, i) % 1024), l1, n1, i)
  {
    hide *;
    var e := new_ + L1At(st0.words, l1, i) % 1024;
    var c := Stored(b, n1, i, e);
    ForkInv(st0, st, l1, n1, i);
    RowDone(st0, st, b, L2Base(L1At(st0.words, l1, i)), new_);
    RootStored(st, b, n1, i, e);
    StoredExtends(st0, st, b, n1, i, e);
    NewRow(st0, b, c, l1, n1, i, new_);
    AddedMake(st0, st, b, c, l1, n1, i, new_);
  }

  lemma AddedMake(st0: State, st: State, b: State, c: State, l1: int, n1: int, i: nat, new_: int)
    requires Extends(st0, c) && Owned(c, L1_CLASS, n1) && Spares(st, c, {n1}) && CopiedRow(st0, c, l1, n1, i) && Copies(c.words, n1, i)
    requires TableAt(c.words, n1, i) == new_ && RowBlocks(c.words, new_) == RowBlocks(b.words, new_) && c.live == b.live
    requires b.live == st.live + RowBlocks(b.words, new_) && st.live !! RowBlocks(b.words, new_)
    requires forall k: nat :: k < 4096 && k != i ==> L1At(c.words, n1, k) == L1At(st.words, n1, k)
    ensures RowAdded(st0, st, c, l1, n1, i)
  {
    hide Extends, Owned, Spares, CopiedRow, Copies, RowBlocks, TableAt, L1At;
  }

  /** One row copied: its table and pages, then the root entry. */
  lemma TableStepCopy(st0: State, st: State, b: State, l1: int, n1: int, i: nat, new_: int)
    requires TableForked(st0, st, l1, n1, i) && RowOk(st0, L2Base(L1At(st0.words, l1, i))) && Copies(st0.words, l1, i) && i < 4095
    requires RowForked(st, b, L2Base(L1At(st0.words, l1, i)), new_, 256)
    ensures TableForked(st0, Stored(b, n1, i, new_ + L1At(st0.words, l1, i) % 1024), l1, n1, i + 1)
  {
    var c := Stored(b, n1, i, new_ + L1At(st0.words, l1, i) % 1024);
    RowAdds(st0, st, b, l1, n1, i, new_);
    hide Extends, Owned, Spares, CopiedRow, Copies, RowBlocks, TableAt, L1At, TableForked, RowForked, Stored, EarlierRows;
    EarlierMake(st0, st, c, l1, n1, i);
    TableNext(st0, st, c, l1, n1, i);
  }

  lemma StoredExtends(st0: State, st: State, b: State, n1: int, i: nat, e: int)
    requires Extends(st0, b) && Extends(st, b) && Owned(st, 10, n1) && n1 !in st0.live && i < 4096
    ensures Extends(st0, Stored(b, n1, i, e))
  {
    RootStored(st, b, n1, i, e);
    ExtendsSpares(st, b);
    RootSurvives(st, b, {}, n1, 0);
    hide Inv, BlockSize, Owned, Extends;
    StoreExtends(st0, b, b.words[n1 + 4 * i := e], L1_CLASS, n1);
  }

  // ----- in place -----

  ghost function TablesFrom(m: Mem, l1: int, i: nat): nat
    decreases 4095 - i
  {
    if i >= 4095 then 0 else (if Copies(m, l1, i) then 1 else 0) + TablesFrom(m, l1, i + 1)
  }

  ghost function PagesFrom(m: Mem, l1: int, i: nat): nat
    decreases 4095 - i
  {
    if i >= 4095 then 0 else (if Copies(m, l1, i) then SmallFrom(m, TableAt(m, l1, i), 0) else 0) + PagesFrom(m, l1, i + 1)
  }

  /** The copy needs one root, a table for every row copied and a page for every small page in them. */
  ghost predicate Enough(st: State, l1: int) {
    && |st.cur| == |st.free| == CLASSES && RoomOf(st).roots > 0
    && RoomOf(st).tables >= TablesFrom(st.words, l1, 0) && RoomOf(st).pages >= PagesFrom(st.words, l1, 0)
  }

  /** The room left when row `i` is reached is the initial room less what the rows before took. */
  ghost predicate Left(st0: State, st: State, l1: int, i: nat) {
    && Enough(st0, l1) && |st.cur| == |st.free| == CLASSES
    && RoomOf(st).roots == RoomOf(st0).roots - 1
    && RoomOf(st).tables == RoomOf(st0).tables - TablesFrom(st0.words, l1, 0) + TablesFrom(st0.words, l1, i)
    && RoomOf(st).pages == RoomOf(st0).pages - PagesFrom(st0.words, l1, 0) + PagesFrom(st0.words, l1, i)
  }

  lemma {:induction false} SmallSame(m: Mem, m': Mem, l2: int, j: nat)
    requires forall k: nat :: k < 256 ==> L2At(m', l2, k) == L2At(m, l2, k)
    ensures SmallFrom(m', l2, j) == SmallFrom(m, l2, j)
    decreases 256 - j
  {
    if j < 256 { SmallSame(m, m', l2, j + 1); }
  }

  lemma LeftSkip(st0: State, st: State, l1: int, i: nat)
    requires Left(st0, st, l1, i) && i < 4095 && !Copies(st0.words, l1, i)
    ensures Left(st0, st, l1, i + 1)
  {
    hide Copies, RoomOf, Enough, SmallFrom;
  }

  /** Before row `i` is copied: its table is intact and there is room for its copy. */
  lemma LeftRow(st0: State, st: State, l1: int, i: nat)
    requires Left(st0, st, l1, i) && i < 4095 && Copies(st0.words, l1, i) && Space(st0, l1) && Extends(st0, st)
    ensures var l2 := L2Base(L1At(st0.words, l1, i)); RowOk(st0, l2) && RowOk(st, l2) && RoomOf(st).tables > 0 && RoomOf(st).pages >= SmallFrom(st.words, l2, 0) && SmallFrom(st.words, l2, 0) == SmallFrom(st0.words, l2, 0)
  {
    var l2 := TableAt(st0.words, l1, i);
    ExtendsSpares(st0, st);
    SpaceRow(st0, l1, i);
    assert RowBlocks(st0.words, l2) !! {};
    RowSurvives(st0, st, {}, l2);
    SmallSame(st0.words, st.words, l2, 0);
    hide RoomOf, RowOk, RowBlocks, Spares, Extends, SmallFrom, Space;
  }

  lemma LeftCopied(st0: State, st: State, st': State, l1: int, i: nat)
    requires Left(st0, st, l1, i) && i < 4095 && Copies(st0.words, l1, i) && |st'.cur| == |st'.free| == CLASSES
    requires var r := RoomOf(st); RoomOf(st') == Room(r.tables - 1, r.pages - SmallFrom(st0.words, TableAt(st0.words, l1, i), 0), r.roots)
    ensures Left(st0, st', l1, i + 1)
  {
    hide Copies, RoomOf, Enough, SmallFrom, TableAt;
  }

  /** Lines 180-206: one row of the root. */
  method ForkTurn(heap: Heap.Allocator, ghost st0: State, ghost l1: int, n1: int, i: nat)
    requires heap.Valid() && Space(st0, l1) && i < 4095
    requires TableForked(st0, heap.St(), l1, n1, i) && Left(st0, heap.St(), l1, i)
    modifies heap, heap.mem
    ensures heap.Valid() && TableForked(st0, heap.St(), l1, n1, i + 1) && Left(st0, heap.St(), l1, i + 1)
  {
    hide *;
    ghost var st := heap.St();
    ForkInv(st0, st, l1, n1, i);
    var e := L1At(heap.mem.words, n1, i);
    CopiesIs(st0.words, l1, i);
    if 512 <= i < 516 {
      TableStepOther(st0, st, l1, n1, i);
      LeftSkip(st0, st, l1, i);
    } else if Coarse(e) {
      LeftRow(st0, st, l1, i);
      var l2 := L2Base(e);
      var new_ := ForkRow(heap, l2);
      ghost var b := heap.St();
      HeapShape(heap);
      LeftCopied(st0, st, b, l1, i);
      TableStepCopy(st0, st, b, l1, n1, i, new_);
      heap.mem.Store(n1 + 4 * i, new_ + e % 1024);
      StoredIs(b, n1, i, new_ + e % 1024);
      RoomWords(b, heap.mem.words);
      LeftWords(st0, b, heap.mem.words, l1, i + 1);
      Rooted(heap, st0, b, n1, l1, i + 1);
    } else {
      TableStepOther(st0, st, l1, n1, i);
      LeftSkip(st0, st, l1, i);
    }
  }

  lemma CopiesIs(m: Mem, l1: int, i: nat)
    ensures Copies(m, l1, i) <==> i < 4095 && Coarse(L1At(m, l1, i)) && !(512 <= i < 516)
    ensures TableAt(m, l1, i) == L2Base(L1At(m, l1, i))
  {
  }

  lemma StoredIs(b: State, n1: int, i: nat, e: int)
    ensures Stored(b, n1, i, e) == b.(words := b.words[n1 + 4 * i := e])
  {
  }

  lemma LeftWords(st0: State, st: State, m: Mem, l1: int, i: nat)
    requires Left(st0, st, l1, i) && RoomOf(st.(words := m)) == RoomOf(st)
    ensures Left(st0, st.(words := m), l1, i)
  {
    hide RoomOf, Enough, TablesFrom, PagesFrom;
  }

  lemma Rooted(heap: Heap.Allocator, st0: State, b: State, n1: int, l1: int, i: nat)
    requires heap.Rows() && heap.St() == b.(words := heap.mem.words) && TableForked(st0, b.(words := heap.mem.words), l1, n1, i)
    ensures heap.Valid() && TableForked(st0, heap.St(), l1, n1, i)
  {
  }

  /** `fork_page_table`. */
  method ForkPageTable(heap: Heap.Allocator, l1: int) returns (n1: int)
    requires heap.Valid() && Space(heap.St(), l1) && Enough(heap.St(), l1)
    modifies heap, heap.mem
    ensures heap.Valid() && TableForked(old(heap.St()), heap.St(), l1, n1, 4095)
    ensures Left(old(heap.St()), heap.St(), l1, 4095)
  {
    hide *;
    ghost var st0 := heap.St();
    n1 := CopyRoot(heap, l1);
    for i := 0 to 4095
      invariant heap.Valid() && TableForked(st0, heap.St(), l1, n1, i) && Left(st0, heap.St(), l1, i)
    {
      ForkTurn(heap, st0, l1, n1, i);
    }
  }

  /** Lines 174-176. */
  method CopyRoot(heap: Heap.Allocator, l1: int) returns (n1: int)
    requires heap.Valid() && Space(heap.St(), l1) && Enough(heap.St(), l1)
    modifies heap, heap.mem
    ensures heap.Valid() && TableForked(old(heap.St()), heap.St(), l1, n1, 0)
    ensures Left(old(heap.St()), heap.St(), l1, 0)
  {
    hide Inv, BlockSize, Start, End, Avail, ClassFrom, Enough, Space, RoomOf, Left, TableForked, Extends, Owned;
    ghost var st0 := heap.St();
    RequestClasses();
    EnoughRoot(st0, l1);
    n1 := Take(heap, 16384, L1_CLASS);
    ghost var a := heap.St();
    HeapShape(heap);
    RoomAfter(st0, a, L1_CLASS);
    RootsApart(st0, a, l1, n1);
    hide *;
    CopyWords(heap.mem, n1, l1, 4096);
    RoomWords(a, heap.mem.words);
    TableStart(st0, a, heap.mem.words, l1, n1);
    Rooted(heap, st0, a, n1, l1, 0);
    LeftStart(st0, a.(words := heap.mem.words), l1);
  }

  lemma EnoughRoot(st: State, l1: int)
    requires Enough(st, l1)
    ensures Avail(st, 10) > 0 && |st.cur| == |st.free| == CLASSES
  {
    hide TablesFrom, PagesFrom, Start, End, BlockSize;
    assert RoomOf(st).roots == Avail(st, L1_CLASS);
  }

  lemma LeftStart(st0: State, st: State, l1: int)
    requires Enough(st0, l1) && |st.cur| == |st.free| == CLASSES && RoomOf(st) == RoomOf(st0).(roots := RoomOf(st0).roots - 1)
    ensures Left(st0, st, l1, 0)
  {
    hide RoomOf, Enough, TablesFrom, PagesFrom;
  }

  lemma RootsApart(st0: State, a: State, l1: int, n1: int)
    requires Space(st0, l1) && Extends(st0, a) && n1 !in st0.live && Owned(a, 10, n1)
    ensures n1 + 4 * 4096 <= l1 || l1 + 4 * 4096 <= n1
  {
    RequestClasses();
    hide Inv, BlockSize, RowOk, RowBlocks;
    assert Owned(st0, L1_CLASS, l1);
    assert Owned(a, L1_CLASS, l1);
    OwnedApart(a, L1_CLASS, n1, L1_CLASS, l1);
  }

  lemma TableStart(st0: State, a: State, m: Mem, l1: int, n1: int)
    requires Space(st0, l1) && Extends(st0, a) && Owned(a, 10, n1) && n1 !in st0.live && a.live == st0.live + {n1}
    requires OnlyRange(a.words, m, n1, n1 + 4 * 4096) && forall k: nat :: k < 4096 ==> Rd(m, n1 + 4 * k) == Rd(a.words, l1 + 4 * k)
    ensures TableForked(st0, a.(words := m), l1, n1, 0)
  {
    RequestClasses();
    StoreExtends(st0, a, m, L1_CLASS, n1);
    OwnedWords(a, m, n1);
    ExtendsSpares(st0, a);
    RootOwned(st0, l1);
    hide Inv, OnlyRange, Extends, Owned, Spares, Space;
    forall k: nat | k < 4096 ensures L1At(m, n1, k) == L1At(st0.words, l1, k) {
      RootSurvives(st0, a, {}, l1, k);
    }
  }
}
