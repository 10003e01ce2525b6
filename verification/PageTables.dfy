// Two-level page tables in allocator blocks (final/src/vm.c) on memory states as values:
// entry formats, the blocks of an address space, and what a copy of one looks like.
module PageTables {
  import opened Arenas
  import opened LinkedList
  import opened Blocks
  import opened Frames

  // The size classes of the three kinds of block: 1 KiB tables, 4 KiB pages, 16 KiB roots.
  const L2_CLASS: nat := 6
  const PAGE_CLASS: nat := 8
  const L1_CLASS: nat := 10

  lemma RequestClasses()
    ensures ClassFrom(1024, 0) == L2_CLASS && ClassFrom(4096, 0) == PAGE_CLASS && ClassFrom(16384, 0) == L1_CLASS
    ensures BlockSize(L2_CLASS) == 1024 && BlockSize(PAGE_CLASS) == 4096 && BlockSize(L1_CLASS) == 16384
  {
    SmallestFit(1024, 0);
    SmallestFit(4096, 0);
    SmallestFit(16384, 0);
    ClassIs(1024, 6);
    ClassIs(4096, 8);
    ClassIs(16384, 10);
  }

  lemma ClassIs(size: int, k: nat)
    requires k < CLASSES && BlockSize(k) == size && (k > 0 ==> BlockSize(k - 1) < size)
    requires k in {6, 8, 10}
    ensures ClassFrom(size, 0) == k
  {
    SmallestFit(size, 0);
    assert BlockSize(0) == 16 && BlockSize(1) == 32 && BlockSize(2) == 64 && BlockSize(3) == 128 && BlockSize(4) == 256;
    assert BlockSize(5) == 512 && BlockSize(6) == 1024 && BlockSize(7) == 2048 && BlockSize(8) == 4096 && BlockSize(9) == 8192 && BlockSize(10) == 16384;
  }

  // ----- entries -----

  function Kind(e: int): int { e % 4 }

  predicate Coarse(e: int) { Kind(e) == 1 }

  predicate Small(e: int) { Kind(e) == 2 }

  /** Table address in a coarse first-level entry: its top 22 bits. */
  function L2Base(e: int): int { e - e % 1024 }

  /** Frame address in a small-page entry: its top 20 bits. */
  function Pa(e: int): int { e - e % 4096 }

  /** Permission field, bits 4 to 11. */
  function Perms(e: int): int { e / 16 % 256 }

  /** `make_L2_page_entry`: the bit fields are disjoint, so "or" is a sum. */
  function PageEntry(pa: int, perms: int, cacheable: int, bufferable: int): int {
    pa - pa % 4096 + perms % 256 * 16 + cacheable % 2 * 8 + bufferable % 2 * 4 + 2
  }

  /** Lines 158-159: the permission field set to read/write for everyone. */
  function OpenPerms(e: int): int {
    e - e / 16 % 256 * 16 + 255 * 16
  }

  /** A word put together from frame number, permissions and low bits reads back as them. */
  lemma Fields(hi: int, mid: int, lo: int)
    requires 0 <= mid < 256 && 0 <= lo < 16
    ensures var e := 4096 * hi + 16 * mid + lo; Pa(e) == 4096 * hi && Perms(e) == mid && Kind(e) == lo % 4
  {
    var e := 4096 * hi + 16 * mid + lo;
    LowPart(hi, 16 * mid + lo);
    HighPart(256 * hi + mid, lo);
    assert 16 * (256 * hi + mid) + lo == e;
    assert (256 * hi + mid) % 256 == mid;
    LastBits(1024 * hi + 4 * mid, lo);
    assert 4 * (1024 * hi + 4 * mid) + lo == e;
  }

  lemma LowPart(hi: int, r: int)
    requires 0 <= r < 4096
    ensures (4096 * hi + r) % 4096 == r
  {
  }

  lemma HighPart(q: int, lo: int)
    requires 0 <= lo < 16
    ensures (16 * q + lo) / 16 == q
  {
  }

  lemma LastBits(x: int, lo: int)
    ensures (4 * x + lo) % 4 == lo % 4
  {
  }

  lemma PageEntryFields(pa: int, perms: int, cacheable: int, bufferable: int)
    ensures var e := PageEntry(pa, perms, cacheable, bufferable); Small(e) && Pa(e) == Pa(pa) && Perms(e) == perms % 256
  {
    var hi, lo := pa / 4096, cacheable % 2 * 8 + bufferable % 2 * 4 + 2;
    assert pa - pa % 4096 == 4096 * hi;
    Fields(hi, perms % 256, lo);
    assert lo % 4 == 2;
  }

  /** The two memory-type bits of an entry: bit 3 cacheable, bit 2 bufferable. */
  lemma PageEntryBits(pa: int, perms: int, cacheable: int, bufferable: int)
    ensures var e := PageEntry(pa, perms, cacheable, bufferable); e / 8 % 2 == cacheable % 2 && e / 4 % 2 == bufferable % 2
  {
    var q, r := pa / 4096, 2 * (perms % 256);
    assert pa - pa % 4096 == 4096 * q;
    var e, c, b := PageEntry(pa, perms, cacheable, bufferable), cacheable % 2, bufferable % 2;
    assert e == 8 * (512 * q + r + c) + (4 * b + 2);
    assert e / 8 == 512 * q + r + c;
    assert e == 4 * (1024 * q + 2 * r + 2 * c + b) + 2;
    assert e / 4 == 1024 * q + 2 * r + 2 * c + b;
    LowBit(256 * q + r / 2, c);
    LowBit(512 * q + r + c, b);
  }

  lemma LowBit(x: int, b: int)
    requires 0 <= b < 2
    ensures (2 * x + b) % 2 == b
  {
  }

  /** The entry of a user page: all permissions, cacheable, bufferable. */
  lemma UserEntry(pa: int)
    ensures PageEntry(pa, 255, 1, 1) == Pa(pa) + 0xFFE
  {
  }

  /** Opening permissions changes no other bit. */
  lemma OpenPermsBits(e: int)
    ensures OpenPerms(e) / 4096 == e / 4096 && OpenPerms(e) % 16 == e % 16
  {
    var hi, mid, lo := e / 4096, e / 16 % 256, e % 16;
    var q := e / 16;
    assert q == 256 * (q / 256) + mid && e == 16 * q + lo && q / 256 == hi;
    assert OpenPerms(e) == 4096 * hi + (16 * 255 + lo);
    LowPart(hi, 16 * 255 + lo);
    assert (4096 * hi + (16 * 255 + lo)) / 4096 == hi;
    assert 4096 * hi + (16 * 255 + lo) == 16 * (256 * hi + 255) + lo;
    HighPart(256 * hi + 255, lo);
  }

  lemma OpenPermsFields(e: int)
    ensures Pa(OpenPerms(e)) == Pa(e) && Kind(OpenPerms(e)) == Kind(e) && Perms(OpenPerms(e)) == 255
  {
    var hi, mid, lo := e / 4096, e / 16 % 256, e % 16;
    var q := e / 16;
    assert q == 256 * (q / 256) + mid && e == 16 * q + lo && q / 256 == hi;
    Fields(hi, mid, lo);
    Fields(hi, 255, lo);
  }

  function L1At(m: Mem, l1: int, i: nat): int { Rd(m, l1 + 4 * i) }

  function L2At(m: Mem, l2: int, j: nat): int { Rd(m, l2 + 4 * j) }

  /** The frames behind the small pages among the first `j` entries of a table. */
  ghost function RowFrames(m: Mem, l2: int, j: nat): set<int> {
    if j == 0 then {} else RowFrames(m, l2, j - 1) + (if Small(L2At(m, l2, j - 1)) then {Pa(L2At(m, l2, j - 1))} else {})
  }

  lemma {:induction false} FrameIn(m: Mem, l2: int, j: nat, x: int)
    ensures x in RowFrames(m, l2, j) <==> exists k: nat :: k < j && Small(L2At(m, l2, k)) && Pa(L2At(m, l2, k)) == x
  {
    if j > 0 {
      FrameIn(m, l2, j - 1, x);
      hide Small, Pa, L2At;
      if x in RowFrames(m, l2, j) && x !in RowFrames(m, l2, j - 1) {
        assert Small(L2At(m, l2, j - 1)) && Pa(L2At(m, l2, j - 1)) == x;
      }
    }
  }

  lemma {:induction false} RowSame(m: Mem, m': Mem, l2: int, j: nat)
    requires forall k: nat :: k < j ==> L2At(m', l2, k) == L2At(m, l2, k)
    ensures RowFrames(m', l2, j) == RowFrames(m, l2, j)
  {
    if j > 0 { RowSame(m, m', l2, j - 1); }
  }

  ghost function RowBlocks(m: Mem, l2: int): set<int> {
    {l2} + RowFrames(m, l2, 256)
  }

  /** A second-level table: a live 1 KiB block whose small pages are distinct live 4 KiB blocks. */
  ghost predicate RowOk(st: State, l2: int) {
    && Owned(st, L2_CLASS, l2)
    && (forall j: nat :: j < 256 && Small(L2At(st.words, l2, j)) ==> Owned(st, PAGE_CLASS, Pa(L2At(st.words, l2, j))))
    && (forall j: nat, k: nat :: j < k < 256 && Small(L2At(st.words, l2, j)) && Small(L2At(st.words, l2, k)) ==> Pa(L2At(st.words, l2, j)) != Pa(L2At(st.words, l2, k)))
  }

  // ----- the copy of one table -----

  /** Page `q` of the later memory reads as page `p` of the earlier. */
  ghost predicate SamePage(m: Mem, m': Mem, p: int, q: int) {
    forall k: nat :: k < 1024 ==> Rd(m', q + 4 * k) == Rd(m, p + 4 * k)
  }

  /** Entry `j` of the copy: a private page with equal contents and full access, or the same entry. */
  ghost predicate CopiedEntry(st0: State, st: State, l2: int, new_: int, j: nat) {
    var e, e' := L2At(st0.words, l2, j), L2At(st.words, new_, j);
    if Small(e) then
      && e' == PageEntry(Pa(e'), 255, 1, 1) && Owned(st, PAGE_CLASS, Pa(e')) && Pa(e') !in st0.live
      && SamePage(st0.words, st.words, Pa(e), Pa(e'))
    else e' == e
  }

  /** The first `j` entries of table `l2` copied into the new table `new_`, the others still as copied by memcpy. */
  ghost predicate RowForked(st0: State, st: State, l2: int, new_: int, j: nat) {
    && Extends(st0, st) && Owned(st, L2_CLASS, new_) && new_ !in st0.live
    && (forall k: nat :: k < j ==> CopiedEntry(st0, st, l2, new_, k))
    && (forall k: nat :: j <= k < 256 ==> L2At(st.words, new_, k) == L2At(st0.words, l2, k))
    && st.live == st0.live + {new_} + RowFrames(st.words, new_, j)
    && (forall k: nat, n: nat :: k < n < j && Small(L2At(st.words, new_, k)) && Small(L2At(st.words, new_, n)) ==> Pa(L2At(st.words, new_, k)) != Pa(L2At(st.words, new_, n)))
  }

  lemma CopiedSmall(st0: State, st: State, l2: int, new_: int, j: nat)
    requires CopiedEntry(st0, st, l2, new_, j)
    ensures Small(L2At(st.words, new_, j)) <==> Small(L2At(st0.words, l2, j))
  {
    PageEntryFields(Pa(L2At(st.words, new_, j)), 255, 1, 1);
    hide Small, Pa, L2At, PageEntry, Extends, Owned, SamePage;
  }

  /** A finished copy is a table of its own. */
  lemma ForkedRowOk(st0: State, st: State, l2: int, new_: int)
    requires RowForked(st0, st, l2, new_, 256)
    ensures RowOk(st, new_) && st.live == st0.live + RowBlocks(st.words, new_) && st0.live !! RowBlocks(st.words, new_)
  {
    hide Extends, Owned, SamePage, Pa, Small, L2At;
    forall j: nat | j < 256 && Small(L2At(st.words, new_, j))
      ensures Owned(st, PAGE_CLASS, Pa(L2At(st.words, new_, j))) && Pa(L2At(st.words, new_, j)) !in st0.live
    {
      assert CopiedEntry(st0, st, l2, new_, j);
    }
    forall x | x in RowFrames(st.words, new_, 256) ensures x !in st0.live {
      FrameIn(st.words, new_, 256, x);
    }
  }

  /** A copied entry survives later changes that leave live blocks alone. */
  lemma CopiedKept(st0: State, st: State, st': State, l2: int, new_: int, j: nat)
    requires CopiedEntry(st0, st, l2, new_, j) && L2At(st'.words, new_, j) == L2At(st.words, new_, j)
    requires Small(L2At(st0.words, l2, j)) ==> Owned(st', PAGE_CLASS, Pa(L2At(st.words, new_, j))) && SameBlock(st.words, st'.words, Pa(L2At(st.words, new_, j)), 4096)
    ensures CopiedEntry(st0, st', l2, new_, j)
  {
    hide Owned, Small, Pa, L2At;
  }

  lemma RowStart(st0: State, st: State, m: Mem, l2: int, new_: int)
    requires Extends(st0, st) && Owned(st0, L2_CLASS, l2) && Owned(st, L2_CLASS, new_) && new_ !in st0.live && st.live == st0.live + {new_}
    requires OnlyRange(st.words, m, new_, new_ + 1024) && forall k: nat :: k < 256 ==> L2At(m, new_, k) == L2At(st.words, l2, k)
    ensures RowForked(st0, st.(words := m), l2, new_, 0)
  {
    StoreExtends(st0, st, m, L2_CLASS, new_);
    StoreInv(st, m, L2_CLASS, new_);
    hide Inv, OnlyRange;
    forall k: nat | k < 256 ensures L2At(m, new_, k) == L2At(st0.words, l2, k) {
      SharedWord(st0, st, L2_CLASS, l2, l2 + 4 * k);
    }
  }

  lemma RowStepOther(st0: State, st: State, l2: int, new_: int, j: nat)
    requires RowForked(st0, st, l2, new_, j) && j < 256 && !Small(L2At(st.words, new_, j))
    ensures RowForked(st0, st, l2, new_, j + 1)
  {
    hide Extends, Owned, Small, Pa, SamePage;
    assert L2At(st.words, new_, j) == L2At(st0.words, l2, j);
    assert RowFrames(st.words, new_, j + 1) == RowFrames(st.words, new_, j);
  }

  /** Block addresses of at most 64 KiB blocks have no low bits. */
  lemma PageBase(st: State, p: int)
    requires Owned(st, PAGE_CLASS, p)
    ensures Pa(p) == p
  {
    BlockAligned(PAGE_CLASS, p);
  }

  lemma TableBase(st: State, p: int, low: int)
    requires Owned(st, L2_CLASS, p) && 0 <= low < 1024
    ensures L2Base(p + low) == p && (p + low) % 1024 == low && Kind(p + low) == Kind(low)
  {
    BlockAligned(L2_CLASS, p);
    assert p % 1024 == 0 by { assert BlockSize(6) == 1024; }
    LowBits(p, low);
  }

  lemma LowBits(p: int, low: int)
    requires p % 1024 == 0 && 0 <= low < 1024
    ensures (p + low) % 1024 == low && (p + low) % 4 == low % 4
  {
    var q := p / 1024;
    assert p == 1024 * q;
    assert p + low == 4 * (256 * q) + low;
    LastBits(256 * q, low);
  }

  /** The entry just made for page `f`. */
  lemma StepEntry(st0: State, b: State, l2: int, new_: int, j: nat, f: int)
    requires RowOk(st0, l2) && j < 256 && Small(L2At(st0.words, l2, j)) && Extends(st0, b)
    requires Owned(b, PAGE_CLASS, f) && f !in st0.live && f != new_ && Owned(b, L2_CLASS, new_)
    requires SamePage(st0.words, b.words, Pa(L2At(st0.words, l2, j)), f)
    ensures CopiedEntry(st0, b.(words := b.words[new_ + 4 * j := PageEntry(f, 255, 1, 1)]), l2, new_, j)
    ensures Pa(PageEntry(f, 255, 1, 1)) == f
  {
    var m := b.words[new_ + 4 * j := PageEntry(f, 255, 1, 1)];
    RequestClasses();
    StoreInv(b, m, L2_CLASS, new_);
    PageEntryFields(f, 255, 1, 1);
    PageBase(b, f);
    assert SameBlock(b.words, m, f, 4096);
    hide Inv, Extends, Owned, BlockSize, RowOk, PageEntry, Pa, Small;
    PageKept(st0.words, b.words, m, Pa(L2At(st0.words, l2, j)), f);
    PageEntryOf(f);
  }

  lemma PageEntryOf(f: int)
    requires Pa(f) == f
    ensures PageEntry(f, 255, 1, 1) == PageEntry(Pa(PageEntry(f, 255, 1, 1)), 255, 1, 1)
  {
    PageEntryFields(f, 255, 1, 1);
  }

  lemma PageKept(m0: Mem, m: Mem, m': Mem, p: int, q: int)
    requires SamePage(m0, m, p, q) && SameBlock(m, m', q, 4096)
    ensures SamePage(m0, m', p, q)
  {
  }

  /** Entries made earlier are not disturbed by the next one. */
  lemma StepEarlier(st0: State, st: State, b: State, l2: int, new_: int, j: nat, k: nat, e: int)
    requires RowForked(st0, st, l2, new_, j) && k < j < 256 && Extends(st, b)
    ensures CopiedEntry(st0, b.(words := b.words[new_ + 4 * j := e]), l2, new_, k)
    ensures L2At(b.words[new_ + 4 * j := e], new_, k) == L2At(st.words, new_, k)
  {
    var m := b.words[new_ + 4 * j := e];
    RequestClasses();
    SharedWord(st, b, L2_CLASS, new_, new_ + 4 * k);
    StoreInv(b, m, L2_CLASS, new_);
    assert CopiedEntry(st0, st, l2, new_, k);
    var p := Pa(L2At(st.words, new_, k));
    if Small(L2At(st0.words, l2, k)) {
      assert Owned(st, PAGE_CLASS, p) && Owned(b, PAGE_CLASS, p) && SameBlock(st.words, b.words, p, 4096);
      if p == new_ { OneClass(b, PAGE_CLASS, L2_CLASS, p); }
      assert SameBlock(b.words, m, p, 4096);
    }
    CopiedKept(st0, st, b.(words := m), l2, new_, k);
  }

  lemma StepLater(st0: State, st: State, b: State, l2: int, new_: int, j: nat, k: nat, e: int)
    requires RowForked(st0, st, l2, new_, j) && j < k < 256 && Extends(st, b)
    ensures L2At(b.words[new_ + 4 * j := e], new_, k) == L2At(st0.words, l2, k)
  {
    RequestClasses();
    SharedWord(st, b, L2_CLASS, new_, new_ + 4 * k);
    hide Inv, Extends, Owned, CopiedEntry;
    assert L2At(st.words, new_, k) == L2At(st0.words, l2, k);
  }

  /** One small page copied: allocation, page contents, entry. */
  lemma RowStepSmall(st0: State, st: State, b: State, l2: int, new_: int, j: nat, f: int)
    requires RowOk(st0, l2) && RowForked(st0, st, l2, new_, j) && j < 256 && Small(L2At(st0.words, l2, j))
    requires Extends(st, b) && Extends(st0, b) && Owned(b, PAGE_CLASS, f) && f !in st.live && b.live == st.live + {f}
    requires SamePage(st0.words, b.words, Pa(L2At(st0.words, l2, j)), f)
    ensures RowForked(st0, b.(words := b.words[new_ + 4 * j := PageEntry(f, 255, 1, 1)]), l2, new_, j + 1)
  {
    hide Inv, Extends, Owned, BlockSize, PageEntry, Pa, Small, L2At, CopiedEntry, SamePage, RowOk, OnlyRange;
    var e := PageEntry(f, 255, 1, 1);
    var m := b.words[new_ + 4 * j := e];
    NewEntry(st0, st, b, l2, new_, j, f);
    StepRest(st0, st, b, l2, new_, j, e);
    RowSame(st.words, m, new_, j);
    assert RowFrames(m, new_, j + 1) == RowFrames(st.words, new_, j) + {f};
    forall k: nat, n: nat | k < n < j + 1 && Small(L2At(m, new_, k)) && Small(L2At(m, new_, n))
      ensures Pa(L2At(m, new_, k)) != Pa(L2At(m, new_, n))
    {
      assert L2At(m, new_, k) == L2At(st.words, new_, k);
      if n == j { FrameIn(st.words, new_, j, Pa(L2At(m, new_, k))); } else { assert L2At(m, new_, n) == L2At(st.words, new_, n); }
    }
  }

  /** The store of the entry for the new page. */
  lemma NewEntry(st0: State, st: State, b: State, l2: int, new_: int, j: nat, f: int)
    requires RowOk(st0, l2) && RowForked(st0, st, l2, new_, j) && j < 256 && Small(L2At(st0.words, l2, j))
    requires Extends(st, b) && Extends(st0, b) && Owned(b, PAGE_CLASS, f) && f !in st.live
    requires SamePage(st0.words, b.words, Pa(L2At(st0.words, l2, j)), f)
    ensures var m := b.words[new_ + 4 * j := PageEntry(f, 255, 1, 1)]; Extends(st0, b.(words := m)) && Owned(b.(words := m), L2_CLASS, new_) && CopiedEntry(st0, b.(words := m), l2, new_, j)
    ensures L2At(b.words[new_ + 4 * j := PageEntry(f, 255, 1, 1)], new_, j) == PageEntry(f, 255, 1, 1)
    ensures Small(PageEntry(f, 255, 1, 1)) && Pa(PageEntry(f, 255, 1, 1)) == f && f !in RowFrames(st.words, new_, j) && new_ !in st0.live && new_ != f
  {
    hide Inv, PageEntry, Pa, Small, SamePage, RowOk, CopiedEntry;
    var m := b.words[new_ + 4 * j := PageEntry(f, 255, 1, 1)];
    RequestClasses();
    assert Owned(st, L2_CLASS, new_) && Owned(b, L2_CLASS, new_);
    StoreExtends(st0, b, m, L2_CLASS, new_);
    StoreInv(b, m, L2_CLASS, new_);
    StepEntry(st0, b, l2, new_, j, f);
    PageEntryFields(f, 255, 1, 1);
  }

  lemma StepRest(st0: State, st: State, b: State, l2: int, new_: int, j: nat, e: int)
    requires RowForked(st0, st, l2, new_, j) && j < 256 && Extends(st, b)
    ensures var m := b.words[new_ + 4 * j := e]; forall k: nat :: k < j ==> CopiedEntry(st0, b.(words := m), l2, new_, k) && L2At(m, new_, k) == L2At(st.words, new_, k)
    ensures var m := b.words[new_ + 4 * j := e]; forall k: nat :: j + 1 <= k < 256 ==> L2At(m, new_, k) == L2At(st0.words, l2, k)
  {
    hide *;
    var m := b.words[new_ + 4 * j := e];
    forall k: nat | k < j ensures CopiedEntry(st0, b.(words := m), l2, new_, k) && L2At(m, new_, k) == L2At(st.words, new_, k) {
      StepEarlier(st0, st, b, l2, new_, j, k, e);
    }
    forall k: nat | j + 1 <= k < 256 ensures L2At(m, new_, k) == L2At(st0.words, l2, k) {
      StepLater(st0, st, b, l2, new_, j, k, e);
    }
  }
}
