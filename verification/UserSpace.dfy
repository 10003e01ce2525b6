// `make_sure_user_space` (final/src/vm.c, lines 118-164) on memory states as values: what
// mapping pages adds to an address space and what it leaves alone.
module UserSpace {
  import opened Arenas
  import opened LinkedList
  import opened Blocks
  import opened Frames
  import opened PageTables
  import opened Spaces

  /** The second-level entry of page number `v`; a fault where the row has no table. */
  function View(m: Mem, l1: int, v: nat): int {
    if RowAt(m, l1, v / 256) then L2At(m, TableAt(m, l1, v / 256), v % 256) else 0
  }

  ghost predicate ZeroPage(m: Mem, p: int) {
    forall k: nat :: k < 1024 ==> Rd(m, p + 4 * k) == 0
  }

  /** Page `v` made accessible: a fresh zeroed frame for a fault, otherwise the same frame opened. */
  ghost predicate PageMapped(st0: State, st: State, l1: int, v: nat) {
    var e, e' := View(st0.words, l1, v), View(st.words, l1, v);
    if Kind(e) == 0 then e' == PageEntry(Pa(e'), 255, 1, 1) && Pa(e') !in st0.live && Owned(st, PAGE_CLASS, Pa(e')) && ZeroPage(st.words, Pa(e'))
    else e' == OpenPerms(e)
  }

  /** Every page, and every block outside the address space, keeps its owner and words. */
  ghost predicate PagesSpared(st0: State, st: State, l1: int) {
    && |st0.cur| == |st.cur| == CLASSES && Inv(st) && MemoryKept(st0, st)
    && forall c: nat, q :: c < CLASSES && Owned(st0, c, q) && (c == PAGE_CLASS || q !in SpaceBlocks(st0.words, l1)) ==> Owned(st, c, q) && SameBlock(st0.words, st.words, q, BlockSize(c))
  }

  /** The address space grew by blocks that were not live. */
  ghost predicate Grown(st0: State, st: State, l1: int) {
    && Space(st, l1) && st.live == st0.live + SpaceBlocks(st.words, l1) && SpaceBlocks(st0.words, l1) <= SpaceBlocks(st.words, l1)
    && forall x :: x in SpaceBlocks(st.words, l1) && x in st0.live ==> x in SpaceBlocks(st0.words, l1)
  }

  /** Pages `lo` to `hi` mapped; all others read as before. */
  ghost predicate ViewsMapped(st0: State, st: State, l1: int, lo: nat, hi: nat) {
    && (forall v: nat :: lo <= v < hi ==> PageMapped(st0, st, l1, v))
    && (forall v: nat :: !(lo <= v < hi) ==> View(st.words, l1, v) == View(st0.words, l1, v))
  }

  ghost predicate RowsAdded(st0: State, st: State, l1: int, rows: set<nat>) {
    forall i: nat :: i < 4095 ==> (RowAt(st.words, l1, i) <==> RowAt(st0.words, l1, i) || i in rows)
  }

  /** The root keeps every word but those of the rows that get a table: the word of such a row is the
      table's address with bit 0 set and bits 1 to 9 clear. */
  ghost predicate RootKept(m0: Mem, m: Mem, l1: int, rows: set<nat>) {
    && (forall i: nat :: i < 4096 && (i !in rows || RowAt(m0, l1, i)) ==> L1At(m, l1, i) == L1At(m0, l1, i))
    && (forall i: nat :: i < 4096 && i in rows && !RowAt(m0, l1, i) ==> L1At(m, l1, i) % 1024 == 1)
  }

  /** Nothing is allocated when the tables and pages were there. */
  ghost predicate Frugal(st0: State, st: State, l1: int, lo: nat, hi: nat, rows: set<nat>) {
    NoFaults(st0.words, l1, lo, hi) && (forall i :: i in rows ==> RowAt(st0.words, l1, i)) ==> st.live == st0.live
  }

  /** Pages `lo` to `hi` have been mapped, and tables made for the rows in `rows`; nothing else changed. */
  ghost predicate Mapped(st0: State, st: State, l1: int, lo: nat, hi: nat, rows: set<nat>) {
    && PagesSpared(st0, st, l1) && Grown(st0, st, l1)
    && ViewsMapped(st0, st, l1, lo, hi) && RowsAdded(st0, st, l1, rows) && Frugal(st0, st, l1, lo, hi, rows)
    && RootKept(st0.words, st.words, l1, rows)
  }

  ghost predicate NoFaults(m: Mem, l1: int, lo: nat, hi: nat) {
    forall v: nat :: lo <= v < hi ==> Kind(View(m, l1, v)) != 0
  }

  // ----- composition -----

  lemma PagesSparedTrans(a: State, b: State, c: State, l1: int)
    requires PagesSpared(a, b, l1) && PagesSpared(b, c, l1) && Grown(a, b, l1)
    ensures PagesSpared(a, c, l1)
  {
    hide BlockSize, Owned, Inv, Space, SpaceBlocks;
    forall k: nat, q | k < CLASSES && Owned(a, k, q) && (k == PAGE_CLASS || q !in SpaceBlocks(a.words, l1))
      ensures Owned(c, k, q) && SameBlock(a.words, c.words, q, BlockSize(k))
    {
      OwnedLive(a, k, q);
      assert Owned(b, k, q) && SameBlock(a.words, b.words, q, BlockSize(k));
      assert SameBlock(b.words, c.words, q, BlockSize(k));
    }
  }

  lemma OwnedLive(a: State, k: nat, q: int)
    requires Owned(a, k, q)
    ensures q in a.live
  {
  }

  lemma GrownTrans(a: State, b: State, c: State, l1: int)
    requires Grown(a, b, l1) && Grown(b, c, l1)
    ensures Grown(a, c, l1)
  {
    hide Space, SpaceBlocks;
  }

  lemma ZeroKept(b: State, c: State, l1: int, p: int)
    requires PagesSpared(b, c, l1) && Owned(b, PAGE_CLASS, p) && ZeroPage(b.words, p)
    ensures Owned(c, PAGE_CLASS, p) && ZeroPage(c.words, p)
  {
    RequestClasses();
    hide Owned, Inv, SpaceBlocks, BlockSize;
    assert SameBlock(b.words, c.words, p, BlockSize(PAGE_CLASS));
  }

  lemma PageLater(a: State, b: State, c: State, l1: int, v: nat)
    requires PageMapped(a, b, l1, v) && PagesSpared(b, c, l1) && View(c.words, l1, v) == View(b.words, l1, v)
    ensures PageMapped(a, c, l1, v)
  {
    hide View, PagesSpared, Owned, ZeroPage, PageEntry, OpenPerms, Kind, Pa;
    if Kind(View(a.words, l1, v)) == 0 { ZeroKept(b, c, l1, Pa(View(b.words, l1, v))); }
  }

  lemma PageEarlier(a: State, b: State, c: State, l1: int, v: nat)
    requires PageMapped(b, c, l1, v) && View(b.words, l1, v) == View(a.words, l1, v) && a.live <= b.live
    ensures PageMapped(a, c, l1, v)
  {
    hide View, Owned, ZeroPage, PageEntry, OpenPerms, Kind, Pa;
  }

  lemma ViewsTrans(a: State, b: State, c: State, l1: int, lo: nat, mid: nat, hi: nat)
    requires ViewsMapped(a, b, l1, lo, mid) && ViewsMapped(b, c, l1, mid, hi) && lo <= mid <= hi
    requires PagesSpared(b, c, l1) && a.live <= b.live
    ensures ViewsMapped(a, c, l1, lo, hi)
  {
    hide PagesSpared, View, PageMapped;
    forall v: nat | lo <= v < hi ensures PageMapped(a, c, l1, v) {
      if v < mid { PageLater(a, b, c, l1, v); } else { PageEarlier(a, b, c, l1, v); }
    }
  }

  lemma FrugalTrans(a: State, b: State, c: State, l1: int, lo: nat, mid: nat, hi: nat, r: set<nat>, s: set<nat>)
    requires Frugal(a, b, l1, lo, mid, r) && Frugal(b, c, l1, mid, hi, s) && lo <= mid <= hi
    requires ViewsMapped(a, b, l1, lo, mid) && RowsAdded(a, b, l1, r)
    ensures Frugal(a, c, l1, lo, hi, r + s)
  {
    hide View, RowAt, PageMapped, Kind;
    if NoFaults(a.words, l1, lo, hi) && (forall i :: i in r + s ==> RowAt(a.words, l1, i)) {
      assert NoFaults(a.words, l1, lo, mid);
      assert NoFaults(b.words, l1, mid, hi);
      forall i | i in r ensures RowAt(a.words, l1, i) { assert i in r + s; }
      forall i | i in s ensures RowAt(b.words, l1, i) { assert i in r + s; RowBelow(a.words, l1, i); }
    }
  }

  lemma RootKeptTrans(a: Mem, b: Mem, c: Mem, l1: int, r: set<nat>, s: set<nat>)
    requires RootKept(a, b, l1, r) && RootKept(b, c, l1, s)
    ensures RootKept(a, c, l1, r + s)
  {
    hide L1At, Coarse;
    forall i: nat | i < 4096 && (i !in r + s || RowAt(a, l1, i)) ensures L1At(c, l1, i) == L1At(a, l1, i) {
      assert L1At(b, l1, i) == L1At(a, l1, i);
      assert i !in s || RowAt(b, l1, i);
    }
    forall i: nat | i < 4096 && i in r + s && !RowAt(a, l1, i) ensures L1At(c, l1, i) % 1024 == 1 {
      if i in r {
        CoarseWord(L1At(b, l1, i));
      } else {
        assert L1At(b, l1, i) == L1At(a, l1, i);
      }
    }
  }

  lemma CoarseWord(e: int)
    requires e % 1024 == 1
    ensures Coarse(e)
  {
    var q := e / 1024;
    assert e == 1024 * q + 1;
    LastBits(256 * q, 1);
  }

  /** Mapping one range after another. */
  lemma MappedTrans(a: State, b: State, c: State, l1: int, lo: nat, mid: nat, hi: nat, r: set<nat>, s: set<nat>)
    requires Mapped(a, b, l1, lo, mid, r) && Mapped(b, c, l1, mid, hi, s) && lo <= mid <= hi
    ensures Mapped(a, c, l1, lo, hi, r + s)
  {
    hide PagesSpared, Grown, ViewsMapped, Frugal, RowAt, RootKept;
    RootKeptTrans(a.words, b.words, c.words, l1, r, s);
    PagesSparedTrans(a, b, c, l1);
    GrownTrans(a, b, c, l1);
    GrownLive(a, b, l1);
    ViewsTrans(a, b, c, l1, lo, mid, hi);
    FrugalTrans(a, b, c, l1, lo, mid, hi, r, s);
  }

  lemma RowBelow(m: Mem, l1: int, i: nat)
    requires RowAt(m, l1, i)
    ensures i < 4095
  {
  }

  lemma GrownLive(a: State, b: State, l1: int)
    requires Grown(a, b, l1)
    ensures a.live <= b.live && Space(b, l1)
  {
  }

  lemma MappedNone(st: State, l1: int, lo: nat)
    requires Inv(st) && Space(st, l1)
    ensures Mapped(st, st, l1, lo, lo, {})
  {
    SpaceLive(st, l1);
    InvShape(st);
    hide Inv, Owned, Space, BlockSize, SpaceBlocks, View, RowAt;
  }

  lemma InvShape(st: State)
    requires Inv(st)
    ensures |st.cur| == |st.free| == CLASSES
  {
  }

  lemma SpaceLive(st: State, l1: int)
    requires Space(st, l1)
    ensures SpaceBlocks(st.words, l1) <= st.live
  {
    RootOwned(st, l1);
    OwnedLive(st, L1_CLASS, l1);
    hide Space, Owned, RowBlocks, RowOk, TableAt, RowAt;
    forall x | x in RowsUpTo(st.words, l1, 4095) ensures x in st.live {
      RowsIn(st.words, l1, 4095, x);
      var k: nat :| k < 4095 && RowAt(st.words, l1, k) && x in RowBlocks(st.words, TableAt(st.words, l1, k));
      SpaceRow(st, l1, k);
      RowLive(st, TableAt(st.words, l1, k), x);
    }
  }

  // ----- one row changed -----

  /** Row `k` and all its entries are the same. */
  ghost predicate RowStays(b: State, c: State, l1: int, k: nat) {
    && SameRow(b.words, c.words, l1, k)
    && (RowAt(b.words, l1, k) ==> RowOk(c, TableAt(b.words, l1, k)) && forall j: nat :: j < 256 ==> L2At(c.words, TableAt(b.words, l1, k), j) == L2At(b.words, TableAt(b.words, l1, k), j))
  }

  ghost predicate OthersStay(b: State, c: State, l1: int, i: nat) {
    Owned(c, L1_CLASS, l1) && forall k: nat :: k < 4095 && k != i ==> RowStays(b, c, l1, k)
  }

  /** Changing one table, or the root's entry for it, leaves the other rows alone. */
  lemma OthersKept(b: State, c: State, x: int, l1: int, i: nat)
    requires Inv(b) && Space(b, l1) && Spares(b, c, {x}) && Owned(c, L1_CLASS, l1)
    requires x == l1 || (RowAt(b.words, l1, i) && x == TableAt(b.words, l1, i))
    requires forall k: nat :: k < 4095 && k != i ==> L1At(c.words, l1, k) == L1At(b.words, l1, k)
    ensures OthersStay(b, c, l1, i)
  {
    forall k: nat | k < 4095 && k != i ensures RowStays(b, c, l1, k) {
      hide Spares, Owned, Inv, Space, Coarse, L2Base, RowBlocks;
      if RowAt(b.words, l1, k) {
        SpaceRow(b, l1, k);
        NotOfRow(b, l1, i, k, x);
        RowSurvives(b, c, {x}, TableAt(b.words, l1, k));
      }
    }
  }

  lemma NotOfRow(b: State, l1: int, i: nat, k: nat, x: int)
    requires Inv(b) && Space(b, l1) && RowAt(b.words, l1, k) && k != i
    requires x == l1 || (RowAt(b.words, l1, i) && x == TableAt(b.words, l1, i))
    ensures x !in RowBlocks(b.words, TableAt(b.words, l1, k))
  {
    SpaceRow(b, l1, k);
    RootOwned(b, l1);
    hide Owned, Inv, RowOk, RowBlocks, TableAt, RowAt;
    if x == l1 { RootApart(b, l1, TableAt(b.words, l1, k)); }
    else {
      SpaceRow(b, l1, i);
      TableOwned(b, x);
      if i < k { assert RowBlocks(b.words, x) !! RowBlocks(b.words, TableAt(b.words, l1, k)); }
      else { assert RowBlocks(b.words, TableAt(b.words, l1, k)) !! RowBlocks(b.words, x); }
    }
  }

  ghost function BlocksOfRow(m: Mem, l1: int, i: nat): set<int> {
    if RowAt(m, l1, i) then RowBlocks(m, TableAt(m, l1, i)) else {}
  }

  lemma {:induction false} RowsGrow(b: State, c: State, l1: int, i: nat, fresh_: set<int>, n: nat)
    requires OthersStay(b, c, l1, i) && n <= 4095 && i < 4095
    requires BlocksOfRow(c.words, l1, i) == BlocksOfRow(b.words, l1, i) + fresh_
    ensures RowsUpTo(c.words, l1, n) == RowsUpTo(b.words, l1, n) + (if i < n then fresh_ else {})
  {
    if n > 0 {
      RowsGrow(b, c, l1, i, fresh_, n - 1);
      if n - 1 != i { StaysBlocks(b, c, l1, n - 1); }
      hide OthersStay, RowBlocks, RowAt, TableAt;
    }
  }

  lemma StaysBlocks(b: State, c: State, l1: int, k: nat)
    requires RowStays(b, c, l1, k) && k < 4095
    ensures RowAt(c.words, l1, k) <==> RowAt(b.words, l1, k)
    ensures TableAt(c.words, l1, k) == TableAt(b.words, l1, k)
    ensures BlocksOfRow(c.words, l1, k) == BlocksOfRow(b.words, l1, k)
    ensures RowAt(b.words, l1, k) ==> RowOk(c, TableAt(c.words, l1, k)) && RowBlocks(c.words, TableAt(c.words, l1, k)) == RowBlocks(b.words, TableAt(b.words, l1, k))
  {
    hide Coarse, L2Base, RowBlocks, RowOk, L1At, L2At;
  }

  /** The address space after row `i` changed by blocks that were not live before. */
  lemma Rebuilt(b: State, c: State, l1: int, i: nat, fresh_: set<int>)
    requires Space(b, l1) && OthersStay(b, c, l1, i) && i < 4095 && RowAt(c.words, l1, i) && RowOk(c, TableAt(c.words, l1, i))
    requires RowBlocks(c.words, TableAt(c.words, l1, i)) == BlocksOfRow(b.words, l1, i) + fresh_
    requires fresh_ !! b.live && c.live == b.live + fresh_
    ensures Grown(b, c, l1) && SpaceBlocks(c.words, l1) == SpaceBlocks(b.words, l1) + fresh_
  {
    RowsGrow(b, c, l1, i, fresh_, 4095);
    SpaceLive(b, l1);
    hide RowBlocks, RowAt, TableAt, RowOk, Owned, RowStays;
    forall k: nat | RowAt(c.words, l1, k) ensures RowOk(c, TableAt(c.words, l1, k)) {
      RowBelow(c.words, l1, k);
      if k != i { StaysBlocks(b, c, l1, k); }
    }
    forall k: nat, n: nat | k < n && RowAt(c.words, l1, k) && RowAt(c.words, l1, n)
      ensures RowBlocks(c.words, TableAt(c.words, l1, k)) !! RowBlocks(c.words, TableAt(c.words, l1, n))
    {
      RowBelow(c.words, l1, n);
      RebuiltPair(b, c, l1, i, fresh_, k, n);
    }
  }

  lemma RebuiltPair(b: State, c: State, l1: int, i: nat, fresh_: set<int>, k: nat, n: nat)
    requires Space(b, l1) && OthersStay(b, c, l1, i) && k < n < 4095 && RowAt(c.words, l1, k) && RowAt(c.words, l1, n)
    requires RowAt(c.words, l1, i) && RowBlocks(c.words, TableAt(c.words, l1, i)) == BlocksOfRow(b.words, l1, i) + fresh_ && fresh_ !! b.live
    ensures RowBlocks(c.words, TableAt(c.words, l1, k)) !! RowBlocks(c.words, TableAt(c.words, l1, n))
  {
    if k != i { StaysBlocks(b, c, l1, k); RowIsLive(b, l1, k); }
    if n != i { StaysBlocks(b, c, l1, n); RowIsLive(b, l1, n); }
    hide RowBlocks, RowAt, TableAt, RowOk, Owned, RowStays;
    if RowAt(b.words, l1, k) && RowAt(b.words, l1, n) {
      assert RowBlocks(b.words, TableAt(b.words, l1, k)) !! RowBlocks(b.words, TableAt(b.words, l1, n));
    }
  }

  lemma RowIsLive(b: State, l1: int, k: nat)
    requires Space(b, l1) && RowAt(b.words, l1, k)
    ensures RowBlocks(b.words, TableAt(b.words, l1, k)) <= b.live
  {
    SpaceRow(b, l1, k);
    hide Space, RowBlocks, RowOk, Owned, RowAt, TableAt;
    forall x | x in RowBlocks(b.words, TableAt(b.words, l1, k)) ensures x in b.live {
      RowLive(b, TableAt(b.words, l1, k), x);
    }
  }

  // ----- the three stores of the loop -----

  lemma SparedPages(b: State, c: State, l1: int, x: int, k: nat)
    requires Inv(b) && Owned(b, k, x) && k < CLASSES && k != PAGE_CLASS && x in SpaceBlocks(b.words, l1) && Spares(b, c, {x})
    ensures PagesSpared(b, c, l1)
  {
    hide Inv, Owned, BlockSize, SpaceBlocks, SameBlock;
    forall d: nat, q | d < CLASSES && Owned(b, d, q) && (d == PAGE_CLASS || q !in SpaceBlocks(b.words, l1)) ensures q != x {
      if q == x { OneClass(b, k, d, x); }
    }
  }

  lemma RootInSpace(st: State, l1: int)
    requires Space(st, l1)
    ensures Owned(st, L1_CLASS, l1) && Owned(st, 10, l1) && l1 in SpaceBlocks(st.words, l1) && L1_CLASS < CLASSES && L1_CLASS != PAGE_CLASS
  {
    RootOwned(st, l1);
  }

  lemma TableInSpace(st: State, l1: int, i: nat)
    requires Inv(st) && Space(st, l1) && RowAt(st.words, l1, i)
    ensures var l2 := TableAt(st.words, l1, i); RowOk(st, l2) && Owned(st, L2_CLASS, l2) && Owned(st, 6, l2) && l2 in SpaceBlocks(st.words, l1) && l2 != l1
    ensures L2_CLASS < CLASSES && L2_CLASS != PAGE_CLASS
  {
    SpaceRow(st, l1, i);
    RootOwned(st, l1);
    TableOwned(st, TableAt(st.words, l1, i));
    RowsIn(st.words, l1, 4095, TableAt(st.words, l1, i));
    RowBelow(st.words, l1, i);
    RootApart(st, l1, TableAt(st.words, l1, i));
    hide Inv, Owned, RowAt, RowOk, RowBlocks, Space, TableAt;
  }

  lemma ViewElsewhere(b: State, c: State, l1: int, i: nat, v: nat)
    requires OthersStay(b, c, l1, i) && v / 256 != i
    ensures View(c.words, l1, v) == View(b.words, l1, v)
    ensures RowAt(c.words, l1, v / 256) <==> RowAt(b.words, l1, v / 256)
  {
    if v / 256 < 4095 {
      assert RowStays(b, c, l1, v / 256);
      StaysBlocks(b, c, l1, v / 256);
    }
    hide Coarse, L2Base, RowBlocks, RowOk, L1At, L2At, Owned, SameRow;
  }

  /** An empty table. */
  lemma EmptyRow(c: State, l2: int)
    requires Owned(c, L2_CLASS, l2) && forall j: nat :: j < 256 ==> L2At(c.words, l2, j) == 0
    ensures RowOk(c, l2) && RowBlocks(c.words, l2) == {l2}
  {
    EmptyFrames(c.words, l2, 256);
    hide Owned, L2At;
  }

  lemma {:induction false} EmptyFrames(m: Mem, l2: int, j: nat)
    requires j <= 256 && forall k: nat :: k < 256 ==> L2At(m, l2, k) == 0
    ensures RowFrames(m, l2, j) == {}
  {
    if j > 0 { EmptyFrames(m, l2, j - 1); }
  }

  /** The root entry of a new table (line 135). */
  lemma NewTableEntry(b: State, a: State, l1: int, i: nat, l2: int)
    requires Space(b, l1) && Extends(b, a) && Owned(a, 6, l2) && l2 !in b.live && i < 4095
    requires forall j: nat :: j < 256 ==> L2At(a.words, l2, j) == 0
    ensures var c := Stored(a, l1, i, l2 + 1); RowAt(c.words, l1, i) && TableAt(c.words, l1, i) == l2 && RowOk(c, l2) && RowBlocks(c.words, l2) == {l2} && L1At(c.words, l1, i) % 1024 == 1
    ensures var c := Stored(a, l1, i, l2 + 1); forall j: nat :: j < 256 ==> L2At(c.words, l2, j) == 0
  {
    var c := Stored(a, l1, i, l2 + 1);
    RequestClasses();
    RootInSpace(b, l1);
    OwnedLive(b, L1_CLASS, l1);
    RootStored(b, a, l1, i, l2 + 1);
    TableBase(a, l2, 1);
    hide Spares, Extends, Space, Owned, BlockSize;
    assert Coarse(l2 + 1);
    SparedWord(a, c, {l1}, L2_CLASS, l2, l2);
    forall j: nat | j < 256 ensures L2At(c.words, l2, j) == 0 {
      assert L2At(a.words, l2, j) == 0;
      SparedWord(a, c, {l1}, L2_CLASS, l2, l2 + 4 * j);
    }
    EmptyRow(c, l2);
  }

  lemma AddedViews(b: State, c: State, l1: int, v: nat, l2: int)
    requires OthersStay(b, c, l1, v / 256) && v / 256 < 4095 && !RowAt(b.words, l1, v / 256)
    requires RowAt(c.words, l1, v / 256) && TableAt(c.words, l1, v / 256) == l2 && forall j: nat :: j < 256 ==> L2At(c.words, l2, j) == 0
    ensures ViewsMapped(b, c, l1, v, v) && RowsAdded(b, c, l1, {v / 256}) && Frugal(b, c, l1, v, v, {v / 256})
  {
    hide RowAt, TableAt, OthersStay, L2At, L1At, PageMapped, Kind;
    var i := v / 256;
    forall w: nat ensures View(c.words, l1, w) == View(b.words, l1, w) {
      if w / 256 != i { ViewElsewhere(b, c, l1, i, w); }
    }
    forall k: nat | k < 4095 ensures RowAt(c.words, l1, k) <==> RowAt(b.words, l1, k) || k in {i} {
      if k != i { assert 256 * k / 256 == k; ViewElsewhere(b, c, l1, i, 256 * k); }
    }
    assert i in {i};
  }

  /** A new empty table for the row of page `v`. */
  lemma TableAdded(b: State, a: State, l1: int, v: nat, l2: int)
    requires Inv(b) && Space(b, l1) && Extends(b, a) && Owned(a, 6, l2) && l2 !in b.live && a.live == b.live + {l2}
    requires v / 256 < 4095 && !RowAt(b.words, l1, v / 256) && forall j: nat :: j < 256 ==> L2At(a.words, l2, j) == 0
    ensures Mapped(b, Stored(a, l1, v / 256, l2 + 1), l1, v, v, {v / 256})
  {
    hide Spares, Extends, Space, Owned, Inv, RowOk, RowBlocks, RowAt, TableAt, OthersStay, Stored, Grown, PagesSpared, L2At, L1At, ViewsMapped, RowsAdded, Frugal, BlockSize;
    var i := v / 256;
    var c := Stored(a, l1, i, l2 + 1);
    assert i in {i};
    NewTableEntry(b, a, l1, i, l2);
    RootInSpace(b, l1);
    RootStored(b, a, l1, i, l2 + 1);
    SparedPages(b, c, l1, l1, L1_CLASS);
    OthersKept(b, c, l1, l1, i);
    Rebuilt(b, c, l1, i, {l2});
    AddedViews(b, c, l1, v, l2);
  }

  // ----- entries -----

  /** The row of page `v` after a store to its entry: the root and the table's other entries stay. */
  lemma EntryOthers(b: State, a: State, l1: int, v: nat, e: int)
    requires Inv(b) && Space(b, l1) && Extends(b, a) && RowAt(b.words, l1, v / 256)
    ensures var l2 := TableAt(b.words, l1, v / 256); var c := Stored(a, l2, v % 256, e); OthersStay(b, c, l1, v / 256) && PagesSpared(b, c, l1)
    ensures var l2 := TableAt(b.words, l1, v / 256); var c := Stored(a, l2, v % 256, e); RowAt(c.words, l1, v / 256) && TableAt(c.words, l1, v / 256) == l2 && Owned(c, L2_CLASS, l2)
    ensures var l2 := TableAt(b.words, l1, v / 256); var c := Stored(a, l2, v % 256, e); L2At(c.words, l2, v % 256) == e && forall k: nat :: k < 256 && k != v % 256 ==> L2At(c.words, l2, k) == L2At(b.words, l2, k)
    ensures RootKept(b.words, Stored(a, TableAt(b.words, l1, v / 256), v % 256, e).words, l1, {})
  {
    hide SparesBlocks, MemoryKept, Extends, Space, Owned, Inv, RowOk, RowBlocks, Coarse, L2Base, OthersStay, Stored, PagesSpared, L2At, L1At, BlockSize;
    var i := v / 256;
    var l2 := TableAt(b.words, l1, i);
    var c := Stored(a, l2, v % 256, e);
    TableInSpace(b, l1, i);
    RootInSpace(b, l1);
    EntryStored(b, a, l2, v % 256, e);
    SparedPages(b, c, l1, l2, L2_CLASS);
    forall k: nat | k < 4096 ensures L1At(c.words, l1, k) == L1At(b.words, l1, k) {
      RootSurvives(b, c, {l2}, l1, k);
    }
    RootSurvives(b, c, {l2}, l1, 0);
    OthersKept(b, c, l2, l1, i);
  }

  lemma EntryViews(b: State, c: State, l1: int, v: nat)
    requires OthersStay(b, c, l1, v / 256) && RowAt(b.words, l1, v / 256) && RowAt(c.words, l1, v / 256)
    requires TableAt(c.words, l1, v / 256) == TableAt(b.words, l1, v / 256)
    requires forall k: nat :: k < 256 && k != v % 256 ==> L2At(c.words, TableAt(b.words, l1, v / 256), k) == L2At(b.words, TableAt(b.words, l1, v / 256), k)
    requires PageMapped(b, c, l1, v)
    ensures ViewsMapped(b, c, l1, v, v + 1) && RowsAdded(b, c, l1, {})
  {
    hide RowAt, TableAt, OthersStay, L2At, L1At, PageMapped;
    var i := v / 256;
    forall w: nat | !(v <= w < v + 1) ensures View(c.words, l1, w) == View(b.words, l1, w) {
      if w / 256 != i { ViewElsewhere(b, c, l1, i, w); } else { SameSlot(v, w); }
    }
    forall k: nat | k < 4095 ensures RowAt(c.words, l1, k) <==> RowAt(b.words, l1, k) {
      if k != i { assert 256 * k / 256 == k; ViewElsewhere(b, c, l1, i, 256 * k); }
    }
  }

  lemma SameSlot(v: nat, w: nat)
    requires v / 256 == w / 256 && v != w
    ensures v % 256 != w % 256
  {
  }

  lemma {:induction false} FieldsSame(m: Mem, m': Mem, l2: int, j: nat)
    requires forall k: nat :: k < j ==> (Small(L2At(m', l2, k)) <==> Small(L2At(m, l2, k))) && Pa(L2At(m', l2, k)) == Pa(L2At(m, l2, k))
    ensures RowFrames(m', l2, j) == RowFrames(m, l2, j)
  {
    hide Small, Pa, L2At;
    if j > 0 { FieldsSame(m, m', l2, j - 1); }
  }

  /** Opening the permissions of an entry changes no frame. */
  lemma OpenedRow(b: State, c: State, l1: int, l2: int, j: nat)
    requires RowOk(b, l2) && PagesSpared(b, c, l1) && Owned(c, L2_CLASS, l2) && j < 256
    requires L2At(c.words, l2, j) == OpenPerms(L2At(b.words, l2, j))
    requires forall k: nat :: k < 256 && k != j ==> L2At(c.words, l2, k) == L2At(b.words, l2, k)
    ensures RowOk(c, l2) && RowBlocks(c.words, l2) == RowBlocks(b.words, l2)
  {
    OpenPermsFields(L2At(b.words, l2, j));
    hide L2At, Pa, Kind, OpenPerms, Owned, Inv, BlockSize, SpaceBlocks;
    forall k: nat | k < 256
      ensures (Small(L2At(c.words, l2, k)) <==> Small(L2At(b.words, l2, k))) && Pa(L2At(c.words, l2, k)) == Pa(L2At(b.words, l2, k))
    {
      if k != j { assert L2At(c.words, l2, k) == L2At(b.words, l2, k); }
    }
    FieldsSame(b.words, c.words, l2, 256);
    OpenedOk(b, c, l1, l2);
  }

  lemma OpenedOk(b: State, c: State, l1: int, l2: int)
    requires RowOk(b, l2) && PagesSpared(b, c, l1) && Owned(c, L2_CLASS, l2)
    requires forall k: nat :: k < 256 ==> (Small(L2At(c.words, l2, k)) <==> Small(L2At(b.words, l2, k))) && Pa(L2At(c.words, l2, k)) == Pa(L2At(b.words, l2, k))
    ensures RowOk(c, l2)
  {
    hide L2At, Pa, Small, Owned, Inv, BlockSize, SpaceBlocks, SameBlock;
  }

  /** The page was there: same frame, full access (lines 155-159). */
  lemma EntryOpened(b: State, l1: int, v: nat)
    requires Inv(b) && Space(b, l1) && v / 256 < 4095 && RowAt(b.words, l1, v / 256) && Kind(View(b.words, l1, v)) != 0
    ensures Mapped(b, Stored(b, TableAt(b.words, l1, v / 256), v % 256, OpenPerms(View(b.words, l1, v))), l1, v, v + 1, {})
  {
    hide Spares, Extends, Space, Owned, Inv, RowOk, RowBlocks, RowAt, TableAt, OthersStay, Stored, Grown, PagesSpared, L2At, L1At, ViewsMapped, RowsAdded, NoFaults, BlockSize, Kind, OpenPerms, PageEntry, Pa, ZeroPage;
    var l2 := TableAt(b.words, l1, v / 256);
    var e := OpenPerms(View(b.words, l1, v));
    var c := Stored(b, l2, v % 256, e);
    ExtendsSelf(b);
    EntryOthers(b, b, l1, v, e);
    TableInSpace(b, l1, v / 256);
    OpenedRow(b, c, l1, l2, v % 256);
    Rebuilt(b, c, l1, v / 256, {});
    EntryViews(b, c, l1, v);
  }

  /** The frames of a table whose fault entry `j` now maps frame `f`. */
  lemma {:induction false} FramesPlus(m: Mem, m': Mem, l2: int, j: nat, f: int, n: nat)
    requires j < 256 && n <= 256 && !Small(L2At(m, l2, j)) && Small(L2At(m', l2, j)) && Pa(L2At(m', l2, j)) == f
    requires forall k: nat :: k < 256 && k != j ==> L2At(m', l2, k) == L2At(m, l2, k)
    ensures RowFrames(m', l2, n) == RowFrames(m, l2, n) + (if j < n then {f} else {})
  {
    hide Small, Pa, L2At;
    if n > 0 { FramesPlus(m, m', l2, j, f, n - 1); }
  }

  lemma FilledRow(b: State, c: State, l1: int, l2: int, j: nat, f: int)
    requires RowOk(b, l2) && PagesSpared(b, c, l1) && Owned(c, L2_CLASS, l2) && Owned(c, PAGE_CLASS, f) && f !in b.live && j < 256
    requires Kind(L2At(b.words, l2, j)) == 0 && Small(L2At(c.words, l2, j)) && Pa(L2At(c.words, l2, j)) == f
    requires forall k: nat :: k < 256 && k != j ==> L2At(c.words, l2, k) == L2At(b.words, l2, k)
    ensures RowOk(c, l2) && RowBlocks(c.words, l2) == RowBlocks(b.words, l2) + {f}
  {
    assert !Small(L2At(b.words, l2, j));
    FramesPlus(b.words, c.words, l2, j, f, 256);
    hide L2At, Pa, Kind, Owned, Inv, BlockSize, SpaceBlocks, Small, SameBlock;
    forall k: nat | k < 256 && Small(L2At(c.words, l2, k)) ensures Owned(c, PAGE_CLASS, Pa(L2At(c.words, l2, k))) {
      if k != j { assert L2At(c.words, l2, k) == L2At(b.words, l2, k); }
    }
    forall k: nat, n: nat | k < n < 256 && Small(L2At(c.words, l2, k)) && Small(L2At(c.words, l2, n))
      ensures Pa(L2At(c.words, l2, k)) != Pa(L2At(c.words, l2, n))
    {
      FilledPair(b, c, l2, j, f, k, n);
    }
  }

  lemma FilledPair(b: State, c: State, l2: int, j: nat, f: int, k: nat, n: nat)
    requires RowOk(b, l2) && f !in b.live && j < 256 && k < n < 256 && Small(L2At(c.words, l2, k)) && Small(L2At(c.words, l2, n))
    requires Pa(L2At(c.words, l2, j)) == f
    requires forall k: nat :: k < 256 && k != j ==> L2At(c.words, l2, k) == L2At(b.words, l2, k)
    ensures Pa(L2At(c.words, l2, k)) != Pa(L2At(c.words, l2, n))
  {
    hide L2At, Pa, Small, RowOk;
    var x := if k == j then n else k;
    assert L2At(c.words, l2, x) == L2At(b.words, l2, x);
    PageOwned(b, l2, x);
    OwnedLive(b, PAGE_CLASS, Pa(L2At(b.words, l2, x)));
    if k != j && n != j { PairOk(b, l2, k, n); }
  }

  lemma PairOk(b: State, l2: int, k: nat, n: nat)
    requires RowOk(b, l2) && k < n < 256 && Small(L2At(b.words, l2, k)) && Small(L2At(b.words, l2, n))
    ensures Pa(L2At(b.words, l2, k)) != Pa(L2At(b.words, l2, n))
  {
    hide L2At, Pa, Small, Owned;
  }

  /** The page behind the new entry, once the entry is stored. */
  lemma FilledPage(b: State, a: State, l1: int, v: nat, f: int)
    requires Inv(b) && Space(b, l1) && Extends(b, a) && RowAt(b.words, l1, v / 256)
    requires Owned(a, 8, f) && f !in b.live && ZeroPage(a.words, f)
    ensures var c := Stored(a, TableAt(b.words, l1, v / 256), v % 256, PageEntry(f, 255, 1, 1)); Owned(c, PAGE_CLASS, f) && ZeroPage(c.words, f)
    ensures Small(PageEntry(f, 255, 1, 1)) && Pa(PageEntry(f, 255, 1, 1)) == f
  {
    hide SparesBlocks, MemoryKept, Extends, Space, Owned, Inv, RowOk, RowAt, TableAt, Stored, BlockSize, ZeroPage, PageEntry;
    var l2 := TableAt(b.words, l1, v / 256);
    var c := Stored(a, l2, v % 256, PageEntry(f, 255, 1, 1));
    TableInSpace(b, l1, v / 256);
    OwnedLive(b, L2_CLASS, l2);
    EntryStored(b, a, l2, v % 256, PageEntry(f, 255, 1, 1));
    PageSurvives(a, c, {l2}, f);
    ZeroSame(a.words, c.words, f);
    PageEntryFields(f, 255, 1, 1);
    PageBase(a, f);
  }

  lemma ZeroSame(m: Mem, m': Mem, p: int)
    requires ZeroPage(m, p) && SamePage(m, m', p, p)
    ensures ZeroPage(m', p)
  {
  }

  /** The page faulted: a zeroed frame of its own (lines 145-150). */
  lemma EntryFilled(b: State, a: State, l1: int, v: nat, f: int)
    requires Inv(b) && Space(b, l1) && Extends(b, a) && v / 256 < 4095 && RowAt(b.words, l1, v / 256) && Kind(View(b.words, l1, v)) == 0
    requires Owned(a, 8, f) && f !in b.live && a.live == b.live + {f} && ZeroPage(a.words, f)
    ensures Mapped(b, Stored(a, TableAt(b.words, l1, v / 256), v % 256, PageEntry(f, 255, 1, 1)), l1, v, v + 1, {})
  {
    hide Spares, Extends, Space, Owned, Inv, RowOk, RowBlocks, RowAt, TableAt, OthersStay, Stored, Grown, PagesSpared, L2At, L1At, ViewsMapped, RowsAdded, BlockSize, Kind, OpenPerms, PageEntry, Pa, ZeroPage, Small;
    var l2 := TableAt(b.words, l1, v / 256);
    var e := PageEntry(f, 255, 1, 1);
    var c := Stored(a, l2, v % 256, e);
    EntryOthers(b, a, l1, v, e);
    FilledPage(b, a, l1, v, f);
    TableInSpace(b, l1, v / 256);
    FilledRow(b, c, l1, l2, v % 256, f);
    Rebuilt(b, c, l1, v / 256, {f});
    FilledMapped(b, c, l1, v, f);
    EntryViews(b, c, l1, v);
  }

  lemma FilledMapped(b: State, c: State, l1: int, v: nat, f: int)
    requires Kind(View(b.words, l1, v)) == 0 && View(c.words, l1, v) == PageEntry(f, 255, 1, 1) && Pa(PageEntry(f, 255, 1, 1)) == f
    requires f !in b.live && Owned(c, PAGE_CLASS, f) && ZeroPage(c.words, f)
    ensures PageMapped(b, c, l1, v) && Frugal(b, c, l1, v, v + 1, {})
  {
    PageEntryFields(f, 255, 1, 1);
    hide View, Kind, Owned, ZeroPage, Pa;
    assert !NoFaults(b.words, l1, v, v + 1);
  }
}
