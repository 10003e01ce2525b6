// Blocks of the allocator used as memory: storing into a live block keeps the allocator
// consistent and every other live block unchanged.
module Frames {
  import opened Arenas
  import opened LinkedList
  import opened Blocks

  /** `p` is a live block of class `c`. */
  ghost predicate Owned(st: State, c: nat, p: int) {
    c < CLASSES && c < |st.cur| && p in st.live && st.Carved(c, p)
  }

  /** Only words inside [lo, hi) differ. */
  ghost predicate OnlyRange(m: Mem, m': Mem, lo: int, hi: int) {
    forall a :: !(lo <= a < hi) ==> Rd(m', a) == Rd(m, a)
  }

  /** Address `a` lies in the table of size classes or in an arena. */
  predicate Managed(table: int, a: int) {
    table <= a < table + 24 * 21 || 0xC101_0000 <= a < 0xCCBD_0000
  }

  /** Memory outside the allocator's keeping is the same. */
  ghost predicate MemoryKept(st: State, st': State) {
    st'.table == st.table && forall a :: !Managed(st.table, a) ==> Rd(st'.words, a) == Rd(st.words, a)
  }

  /** Every block live in `st` is live in `st'`, with the same words, and so is all other memory. */
  ghost predicate Extends(st: State, st': State) {
    && |st.cur| == |st'.cur| == CLASSES && Inv(st')
    && st.live <= st'.live && MemoryKept(st, st')
    && (forall c: nat, q :: c < CLASSES && Owned(st, c, q) ==> Owned(st', c, q) && SameBlock(st.words, st'.words, q, BlockSize(c)))
  }

  lemma ExtendsSelf(st: State)
    requires Inv(st)
    ensures Extends(st, st)
  {
  }

  lemma ExtendsTrans(a: State, b: State, c: State)
    requires Extends(a, b) && Extends(b, c)
    ensures Extends(a, c)
  {
    hide BlockSize, Owned, Inv, MemoryKept;
    KeptTrans(a, b, c);
    forall k: nat, q | k < CLASSES && Owned(a, k, q)
      ensures Owned(c, k, q) && SameBlock(a.words, c.words, q, BlockSize(k))
    {
      assert Owned(b, k, q);
      assert SameBlock(a.words, b.words, q, BlockSize(k)) && SameBlock(b.words, c.words, q, BlockSize(k));
    }
  }

  lemma KeptTrans(a: State, b: State, c: State)
    requires MemoryKept(a, b) && MemoryKept(b, c)
    ensures MemoryKept(a, c)
  {
    hide Managed;
  }

  lemma ArenaBelow(i: nat)
    requires i < CLASSES
    ensures End(i) <= 0xCCBD_0000
  {
    hide Start, End;
    StartAfter(i, CLASSES);
    ArenasEnd();
  }

  /** A live block lies in an arena. */
  lemma BlockManaged(st: State, c: nat, p: int, a: int)
    requires Inv(st) && Owned(st, c, p) && p <= a < p + BlockSize(c)
    ensures Managed(st.table, a)
  {
    ClassParts(st, c);
    hide ClassOk, BlockSize, OnGrid, Start, End, CurOk;
    CarvedBounds(st, c, p);
    ArenaBelow(c);
  }

  /** So does a node of a list, or it is a list head. */
  lemma NodeManaged(st: State, i: nat, x: int, a: int)
    requires Shaped(st) && i < CLASSES && CurOk(st, i) && NodeOf(st, i, x) && InNode(a, x)
    ensures Managed(st.table, a)
  {
    hide BlockSize, OnGrid, Start, End, CurOk;
    if x != st.Sentinel(i) {
      CarvedBounds(st, i, x);
      ArenaBelow(i);
    }
  }

  lemma StoreKept(st: State, m': Mem, c: nat, p: int)
    requires Inv(st) && Owned(st, c, p) && OnlyRange(st.words, m', p, p + BlockSize(c))
    ensures MemoryKept(st, st.(words := m'))
  {
    hide BlockSize, Inv, Managed, Owned;
    forall a | !Managed(st.table, a) ensures Rd(m', a) == Rd(st.words, a) {
      if p <= a < p + BlockSize(c) { BlockManaged(st, c, p, a); }
    }
  }

  lemma NodesKept(st: State, m': Mem, i: nat, nodes: seq<int>)
    requires Shaped(st) && i < CLASSES && CurOk(st, i) && OnlyNodes(st.words, m', nodes)
    requires forall k :: 0 <= k < |nodes| ==> NodeOf(st, i, nodes[k])
    ensures forall a :: !Managed(st.table, a) ==> Rd(m', a) == Rd(st.words, a)
  {
    hide Managed, NodeOf, CurOk, InNode;
    forall a | !Managed(st.table, a) ensures Rd(m', a) == Rd(st.words, a) {
      forall k | 0 <= k < |nodes| ensures !InNode(a, nodes[k]) {
        if InNode(a, nodes[k]) { NodeManaged(st, i, nodes[k], a); }
      }
      assert Outside(a, nodes);
    }
  }

  lemma AllocKept(st: State, size: int)
    requires Inv(st)
    ensures MemoryKept(st, Alloc(st, size).0)
  {
    AllocShape(st, size);
    var i := ClassFrom(size, 0);
    hide ClassFrom, Start, End, BlockSize, Alloc, Managed, Ring, OnGrid, Inv, Del;
    if i < CLASSES && st.free[i] != [] {
      InvClass(st, i);
      TakeRing(st, i);
      NodesKept(st, Taken(st, i).words, i, TakenNodes(st, i));
    }
  }

  lemma InvClass(st: State, i: nat)
    requires Inv(st) && i < CLASSES
    ensures Shaped(st) && ClassOk(st, i) && CurOk(st, i) && FreeOk(st, i)
  {
    ClassParts(st, i);
    hide CurOk, FreeOk;
  }

  lemma FreeKept(st: State, c: nat, p: int)
    requires Inv(st) && Owned(st, c, p)
    ensures MemoryKept(st, Free(st, p))
  {
    FreeCorrect(st, c, p);
    InvClass(st, c);
    ReturnRing(st, c, p);
    hide Start, End, BlockSize, Free, Managed, Ring, OnGrid, Inv, AddTail, ReturnedNodes, NodeOf, CurOk, FreeOk, ClassOk;
    NodesKept(st, Returned(st, c, p).words, c, ReturnedNodes(st, c, p));
  }

  /** A word of a block both states share. */
  lemma SharedWord(st: State, st': State, c: nat, q: int, a: int)
    requires Extends(st, st') && Owned(st, c, q) && q <= a < q + BlockSize(c)
    ensures Owned(st', c, q) && Rd(st'.words, a) == Rd(st.words, a)
  {
    hide BlockSize, Inv;
    assert SameBlock(st.words, st'.words, q, BlockSize(c));
  }

  lemma OwnedApart(st: State, c: nat, p: int, d: nat, q: int)
    requires Inv(st) && Owned(st, c, p) && Owned(st, d, q) && (p != q || c != d)
    ensures p + BlockSize(c) <= q || q + BlockSize(d) <= p
  {
    ClassParts(st, c);
    ClassParts(st, d);
    hide ClassOk, BlockSize, OnGrid;
    BlocksApart(st, c, p, d, q);
  }

  /** A live block belongs to one class. */
  lemma OneClass(st: State, c: nat, d: nat, p: int)
    requires Inv(st) && Owned(st, c, p) && Owned(st, d, p)
    ensures c == d
  {
    if c != d { OwnedApart(st, c, p, d, p); }
  }

  /** Storing into a live block disturbs no list. */
  lemma StoreClass(st: State, m': Mem, c: nat, p: int, i: nat)
    requires Shaped(st) && c < CLASSES && i < CLASSES && ClassOk(st, c) && ClassOk(st, i) && Owned(st, c, p)
    requires OnlyRange(st.words, m', p, p + BlockSize(c))
    ensures ClassOk(st.(words := m'), i)
  {
    ClassParts(st, c);
    ClassParts(st, i);
    CarvedBounds(st, c, p);
    var nodes := st.Nodes(i);
    forall k | 0 <= k < |nodes| ensures Rd(m', nodes[k]) == Rd(st.words, nodes[k]) && Rd(m', nodes[k] + 4) == Rd(st.words, nodes[k] + 4) {
      NodeOutside(st, c, p, i, k);
    }
    RingSame(st.words, m', nodes);
    hide Ring, OnGrid, Start, End, BlockSize;
    ClassKept(st, st.(words := m'), i);
  }

  lemma NodeOutside(st: State, c: nat, p: int, i: nat, k: nat)
    requires Shaped(st) && c < CLASSES && i < CLASSES && ClassOk(st, c) && ClassOk(st, i) && Owned(st, c, p)
    requires k < |st.Nodes(i)|
    ensures var x := st.Nodes(i)[k]; x + 8 <= p || p + BlockSize(c) <= x
  {
    ClassParts(st, c);
    ClassParts(st, i);
    CarvedBounds(st, c, p);
    var x := st.Nodes(i)[k];
    hide Ring, OnGrid, Start, End, BlockSize, ClassOk;
    if k > 0 {
      assert x in st.free[i];
      BlocksApart(st, i, x, c, p);
    }
  }

  lemma RingSame(m: Mem, m': Mem, c: seq<int>)
    requires Ring(m, c)
    requires forall k :: 0 <= k < |c| ==> Rd(m', c[k]) == Rd(m, c[k]) && Rd(m', c[k] + 4) == Rd(m, c[k] + 4)
    ensures Ring(m', c)
  {
    hide Ring, Spaced, Succ;
    RingNonempty(m, c);
    forall i | 0 <= i < |c| ensures Next(m', c[i]) == Succ(c, i) && Prev(m', Succ(c, i)) == c[i] {
      RingAt(m, c, i);
      assert Succ(c, i) == c[if i + 1 < |c| then i + 1 else 0];
    }
    RingMade(m', c);
  }

  lemma RingNonempty(m: Mem, c: seq<int>)
    requires Ring(m, c)
    ensures c != [] && Spaced(c)
  {
  }

  lemma RingMade(m: Mem, c: seq<int>)
    requires c != [] && Spaced(c) && forall i :: 0 <= i < |c| ==> Next(m, c[i]) == Succ(c, i) && Prev(m, Succ(c, i)) == c[i]
    ensures Ring(m, c)
  {
  }

  /** Storing into a live block keeps the allocator's invariant and all other live blocks. */
  lemma StoreInv(st: State, m': Mem, c: nat, p: int)
    requires Inv(st) && Owned(st, c, p) && OnlyRange(st.words, m', p, p + BlockSize(c))
    ensures Inv(st.(words := m'))
    ensures forall d: nat, q :: Owned(st, d, q) ==> Owned(st.(words := m'), d, q)
    ensures forall d: nat, q :: Owned(st, d, q) && q != p ==> SameBlock(st.words, m', q, BlockSize(d))
  {
    hide ClassOk, BlockSize, OnGrid;
    var st' := st.(words := m');
    forall i: nat | i < CLASSES ensures ClassOk(st', i) { StoreClass(st, m', c, p, i); }
    forall d: nat, q | Owned(st, d, q) ensures Owned(st', d, q) {}
    LiveKeeps(st, st');
    forall d: nat, q | Owned(st, d, q) && q != p ensures SameBlock(st.words, m', q, BlockSize(d)) {
      OwnedApart(st, c, p, d, q);
    }
  }

  /** Storing into a block that was not live before extends the earlier state still. */
  lemma StoreExtends(st0: State, st: State, m': Mem, c: nat, p: int)
    requires Extends(st0, st) && Owned(st, c, p) && p !in st0.live && OnlyRange(st.words, m', p, p + BlockSize(c))
    ensures Extends(st0, st.(words := m'))
  {
    StoreInv(st, m', c, p);
    StoreKept(st, m', c, p);
    KeptTrans(st0, st, st.(words := m'));
    hide BlockSize, Inv, MemoryKept;
    forall d: nat, q | d < CLASSES && Owned(st0, d, q)
      ensures Owned(st.(words := m'), d, q) && SameBlock(st0.words, m', q, BlockSize(d))
    {
      assert Owned(st, d, q) && q in st0.live && q != p;
      assert SameBlock(st0.words, st.words, q, BlockSize(d)) && SameBlock(st.words, m', q, BlockSize(d));
    }
  }

  /** What a successful allocation gives its caller. */
  lemma AllocExtends(st: State, size: int, c: nat)
    requires Inv(st) && ClassFrom(size, 0) == c < CLASSES && Avail(st, c) > 0
    ensures var r := Alloc(st, size); r.1.Block? && r.1.addr !in st.live && Owned(r.0, c, r.1.addr) && r.0.live == st.live + {r.1.addr}
    ensures Extends(st, Alloc(st, size).0)
    ensures forall d: nat :: d < CLASSES ==> Avail(Alloc(st, size).0, d) == if d == c then Avail(st, d) - 1 else Avail(st, d)
  {
    AllocCorrect(st, size);
    forall d: nat | d < CLASSES ensures Avail(Alloc(st, size).0, d) == if d == c then Avail(st, d) - 1 else Avail(st, d) {
      AvailAlloc(st, size, d);
    }
    AvailAlloc(st, size, c);
    AllocShape(st, size);
    AllocKept(st, size);
    var st' := Alloc(st, size).0;
    hide Alloc, Avail, ClassFrom, BlockSize, Inv, Start, End, Del;
    forall d: nat, q | d < CLASSES && Owned(st, d, q) ensures Owned(st', d, q) && SameBlock(st.words, st'.words, q, BlockSize(d)) {
      AllocKeepsLive(st, size, d, q);
      CarvedMono(st, size, d, q);
    }
  }

  lemma CarvedMono(st: State, size: int, d: nat, q: int)
    requires |st.cur| == |st.free| == CLASSES && d < CLASSES && st.Carved(d, q)
    ensures Alloc(st, size).0.Carved(d, q)
  {
    hide OnGrid, ClassFrom, Start, End, Del;
  }

  /** What a free leaves to everybody else. */
  lemma FreeLeaves(st: State, c: nat, p: int)
    requires Inv(st) && Owned(st, c, p)
    ensures Inv(Free(st, p)) && Free(st, p).live == st.live - {p}
    ensures forall d: nat, q :: Owned(st, d, q) && q != p ==> Owned(Free(st, p), d, q) && SameBlock(st.words, Free(st, p).words, q, BlockSize(d))
    ensures forall d: nat :: d < CLASSES ==> Avail(Free(st, p), d) == if d == c then Avail(st, d) + 1 else Avail(st, d)
  {
    hide Free, Avail, BlockSize, Inv, Start, End, OnGrid;
    InvClass(st, c);
    FreeCorrect(st, c, p);
    forall d: nat | d < CLASSES ensures Avail(Free(st, p), d) == if d == c then Avail(st, d) + 1 else Avail(st, d) {
      AvailFree(st, c, p, d);
    }
    forall d: nat, q | Owned(st, d, q) && q != p
      ensures Owned(Free(st, p), d, q) && SameBlock(st.words, Free(st, p).words, q, BlockSize(d))
    {
      FreeKeepsLive(st, c, p, d, q);
    }
  }

  // ----- changes that spare all but some blocks -----

  /** Every live block outside `gone` stays live, with the same words. */
  ghost predicate SparesBlocks(st: State, st': State, gone: set<int>) {
    && |st.cur| == |st'.cur| == CLASSES && Inv(st')
    && (forall c: nat, q :: c < CLASSES && Owned(st, c, q) && q !in gone ==> Owned(st', c, q) && SameBlock(st.words, st'.words, q, BlockSize(c)))
  }

  /** ... and memory outside the allocator's keeping stays the same. */
  ghost predicate Spares(st: State, st': State, gone: set<int>) {
    SparesBlocks(st, st', gone) && MemoryKept(st, st')
  }

  lemma SparesTrans(a: State, b: State, c: State, g: set<int>, h: set<int>)
    requires Spares(a, b, g) && Spares(b, c, h)
    ensures Spares(a, c, g + h)
  {
    hide BlockSize, Owned, Inv, MemoryKept;
    KeptTrans(a, b, c);
    forall k: nat, q | k < CLASSES && Owned(a, k, q) && q !in g + h
      ensures Owned(c, k, q) && SameBlock(a.words, c.words, q, BlockSize(k))
    {
      assert Owned(b, k, q);
      assert SameBlock(a.words, b.words, q, BlockSize(k)) && SameBlock(b.words, c.words, q, BlockSize(k));
    }
  }

  lemma ExtendsSpares(a: State, b: State)
    requires Extends(a, b)
    ensures Spares(a, b, {})
  {
    hide BlockSize, Owned, Inv, MemoryKept;
  }

  /** Sparing what an earlier state held is extending it. */
  lemma SparesExtends(a: State, b: State, c: State, g: set<int>)
    requires Extends(a, b) && Spares(b, c, g) && a.live !! g && a.live <= c.live
    ensures Extends(a, c)
  {
    hide BlockSize, Inv, MemoryKept;
    KeptTrans(a, b, c);
    forall k: nat, q | k < CLASSES && Owned(a, k, q)
      ensures Owned(c, k, q) && SameBlock(a.words, c.words, q, BlockSize(k))
    {
      assert Owned(b, k, q) && q !in g;
      assert SameBlock(a.words, b.words, q, BlockSize(k)) && SameBlock(b.words, c.words, q, BlockSize(k));
    }
  }

  lemma StoreSpares(st: State, m': Mem, c: nat, p: int)
    requires Inv(st) && Owned(st, c, p) && OnlyRange(st.words, m', p, p + BlockSize(c))
    ensures Spares(st, st.(words := m'), {p})
  {
    StoreInv(st, m', c, p);
    StoreKept(st, m', c, p);
    hide BlockSize, Inv, Owned, MemoryKept;
  }

  lemma FreeSpares(st: State, c: nat, p: int)
    requires Inv(st) && Owned(st, c, p)
    ensures Spares(st, Free(st, p), {p}) && Free(st, p).live == st.live - {p}
  {
    FreeLeaves(st, c, p);
    FreeKept(st, c, p);
    hide BlockSize, Inv, Owned, Free, MemoryKept;
  }

  /** A word of a spared block. */
  lemma SparedWord(st: State, st': State, gone: set<int>, c: nat, q: int, a: int)
    requires SparesBlocks(st, st', gone) && Owned(st, c, q) && q !in gone && q <= a < q + BlockSize(c)
    ensures Owned(st', c, q) && Rd(st'.words, a) == Rd(st.words, a)
  {
    hide BlockSize, Inv;
    assert SameBlock(st.words, st'.words, q, BlockSize(c));
  }
}
