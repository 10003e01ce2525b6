// The allocator in place, over the word memory that holds its lists (lib/src/mem.c,
// lines 206-298), and its invariant over arbitrary runs.
module Heap {
  import opened Arenas
  import opened LinkedList
  import opened Blocks

  datatype SizeClass = SizeClass(blockSize: int, arenaStart: int, arenaEnd: int, current: int)

  // ----- initialisation -----

  function InitWords(m: Mem, table: int, k: nat): Mem {
    if k == 0 then m else Init(InitWords(m, table, k - 1), table + 24 * (k - 1) + 16)
  }

  function InitState(m: Mem, table: int): State {
    State(table, InitWords(m, table, CLASSES), seq(CLASSES, i requires 0 <= i => Start(i)), seq(CLASSES, _ => []), {})
  }

  lemma InitNone(m: Mem, table: int)
    ensures InitWords(m, table, 0) == m && Start(0) == 0xC101_0000
  {
  }

  lemma InitMore(m: Mem, table: int, i: nat)
    ensures InitWords(m, table, i + 1) == Init(InitWords(m, table, i), table + 24 * i + 16)
  {
    hide Init;
  }

  lemma {:induction false} InitRings(m: Mem, table: int, k: nat, i: nat)
    requires i < k
    ensures Ring(InitWords(m, table, k), [table + 24 * i + 16])
  {
    var w := InitWords(m, table, k - 1);
    InitRing(w, table + 24 * (k - 1) + 16);
    if i < k - 1 {
      InitRings(m, table, k - 1, i);
      RingFrame(w, InitWords(m, table, k), [table + 24 * i + 16], [table + 24 * (k - 1) + 16]);
    }
  }

  lemma InitClass(m: Mem, table: int, i: nat)
    requires i < CLASSES
    ensures ClassOk(InitState(m, table), i)
  {
    var st := InitState(m, table);
    InitRings(m, table, CLASSES, i);
    assert st.Nodes(i) == [table + 24 * i + 16];
    StartGrid(i);
    assert Start(i) <= End(i) by { EndIs(i); }
    hide Start, End, BlockSize, InitWords, Ring;
    forall a ensures !st.Carved(i, a) {}
  }

  lemma StartGrid(i: nat)
    ensures OnGrid(i, Start(i))
  {
    hide Start, BlockSize;
    MultipleMod(0, BlockSize(i));
  }

  /** The state `kalloc_init` leaves satisfies the invariant. */
  lemma InitInv(m: Mem, table: int)
    requires table + 24 * CLASSES <= BASE
    ensures Inv(InitState(m, table))
  {
    forall i: nat | i < CLASSES ensures ClassOk(InitState(m, table), i) {
      InitClass(m, table, i);
    }
  }

  /** First in, first out: a block freed to a drained class is the next one of its class handed out. */
  lemma FreeThenAlloc(st: State, i: nat, p: int, size: int)
    requires Inv(st) && p in st.live && i < CLASSES && st.Carved(i, p) && st.free[i] == [] && ClassFrom(size, 0) == i
    ensures Alloc(Free(st, p), size).1 == Block(p)
    ensures Alloc(Free(st, p), size).0.live == st.live
  {
    FreeCorrect(st, i, p);
    AllocShape(Free(st, p), size);
  }

  /** `n` allocations of `size` bytes one after the other. */
  function AllocMany(st: State, size: int, n: nat): (r: State)
    requires |st.cur| == |st.free| == CLASSES
    ensures |r.cur| == |r.free| == CLASSES
  {
    if n == 0 then st else Alloc(AllocMany(st, size, n - 1), size).0
  }

  lemma {:induction false} TakeMany(st: State, i: nat, size: int, n: nat)
    requires |st.cur| == |st.free| == CLASSES && i < CLASSES && ClassFrom(size, 0) == i && n <= |st.free[i]|
    ensures AllocMany(st, size, n).free[i] == st.free[i][n..]
    ensures n < |st.free[i]| ==> Alloc(AllocMany(st, size, n), size).1 == Block(st.free[i][n])
  {
    hide ClassFrom, Alloc, Start, End, BlockSize;
    if n > 0 { TakeMany(st, i, size, n - 1); }
    AllocShape(AllocMany(st, size, n), size);
    if n > 0 { AllocShape(AllocMany(st, size, n - 1), size); }
  }

  /** First in, first out: after a free the class hands out the blocks freed before in their order,
      then this one. */
  lemma FreedInOrder(st: State, i: nat, p: int, size: int, n: nat)
    requires Inv(st) && p in st.live && i < CLASSES && st.Carved(i, p) && ClassFrom(size, 0) == i && n <= |st.free[i]|
    ensures Alloc(AllocMany(Free(st, p), size, n), size).1 == Block(if n < |st.free[i]| then st.free[i][n] else p)
  {
    FreeCorrect(st, i, p);
    hide ClassFrom, Alloc, AllocMany, Free, Inv, AddTail;
    TakeMany(Free(st, p), i, size, n);
  }

  /** What each class can hand out after initialisation: blocks of 16 bytes doubled `i` times. */
  lemma BootCapacity(m: Mem, table: int, i: nat)
    requires i < CLASSES
    ensures BlockSize(i) == 16 * Doubled(i)
    ensures Avail(InitState(m, table), i) == if i < 8 then 8192 else if i == 8 then 16384 else if i < 11 then 1024 else if i < 17 then 4 else 2
  {
    RowBlocks(i);
    EndIs(i);
    hide Start, End, BlockSize, ArenaSize, InitWords;
  }

  function Doubled(i: nat): nat {
    if i == 0 then 1 else 2 * Doubled(i - 1)
  }

  lemma {:induction false} Powers(i: nat)
    requires i < 21
    ensures BlockSize(i) == 16 * Doubled(i)
  {
    hide BlockSize, ArenaSize;
    if i > 0 {
      Powers(i - 1);
      Row(i - 1);
    } else {
      FirstBlock();
    }
  }

  lemma FirstBlock()
    ensures BlockSize(0) == 16
  {
  }

  lemma RowBlocks(i: nat)
    requires i < 21
    ensures BlockSize(i) == 16 * Doubled(i)
    ensures ArenaSize(i) / BlockSize(i) == if i < 8 then 8192 else if i == 8 then 16384 else if i < 11 then 1024 else if i < 17 then 4 else 2
  {
    Powers(i);
  }

  // ----- in place -----

  class Allocator {
    const mem: Memory
    const table: int
    var classes: seq<SizeClass>
    ghost var free: seq<seq<int>>
    ghost var live: set<int>

    ghost predicate Rows()
      reads this
    {
      |classes| == |free| == CLASSES && table + 24 * CLASSES <= BASE
      && forall i :: 0 <= i < CLASSES ==> classes[i] == SizeClass(BlockSize(i), Start(i), End(i), classes[i].current)
    }

    ghost function St(): (st: State)
      reads this, mem
      ensures st.words == mem.words && st.table == table && st.free == free && st.live == live && |st.cur| == |classes|
      ensures forall i :: 0 <= i < |classes| ==> st.cur[i] == classes[i].current
    {
      var cs := classes;
      State(table, mem.words, seq(|cs|, i requires 0 <= i < |cs| => cs[i].current), free, live)
    }

    ghost predicate Valid()
      reads this, mem
      ensures Valid() ==> Rows() && Inv(St())
    {
      Rows() && Inv(St())
    }

    /** `kalloc_init`. */
    constructor (mem: Memory, table: int)
      requires table + 24 * CLASSES <= BASE
      modifies mem
      ensures Valid() && this.mem == mem
      ensures St() == InitState(old(mem.words), table)
    {
      this.mem := mem;
      this.table := table;
      this.classes := [];
      this.free := seq(21, _ => []);
      this.live := {};
      new;
      ghost var words := mem.words;
      hide *;
      InitArenas();
      InitDone(words);
    }

    /** Lines 211-223: the arenas one behind the other, each with an empty list. */
    method InitArenas()
      requires classes == [] && table + 24 * CLASSES <= BASE
      modifies `classes, mem
      ensures |classes| == 21 && forall k :: 0 <= k < 21 ==> classes[k] == SizeClass(BlockSize(k), Start(k), End(k), Start(k))
      ensures mem.words == InitWords(old(mem.words), table, 21)
    {
      hide *;
      ghost var words := mem.words;
      InitNone(words, table);
      var base: int := 0xC101_0000;
      for i := 0 to 21
        invariant |classes| == i && base == Start(i)
        invariant forall k :: 0 <= k < i ==> classes[k] == SizeClass(BlockSize(k), Start(k), End(k), Start(k))
        invariant mem.words == InitWords(words, table, i)
      {
        EndIs(i);
        InitMore(words, table, i);
        classes := classes + [SizeClass(BlockSize(i), base, base + ArenaSize(i), base)];
        mem.InitListHead(table + 24 * i + 16);
        base := classes[i].arenaEnd;
      }
    }

    lemma InitDone(words: Mem)
      requires table + 24 * CLASSES <= BASE
      requires |classes| == |free| == 21 && live == {}
      requires forall k :: 0 <= k < 21 ==> free[k] == []
      requires forall k :: 0 <= k < 21 ==> classes[k] == SizeClass(BlockSize(k), Start(k), End(k), Start(k))
      requires mem.words == InitWords(words, table, 21)
      ensures Valid() && St() == InitState(words, table)
    {
      hide BlockSize, Start, End, InitWords;
      InitInv(words, table);
      assert St().cur == InitState(words, table).cur;
      assert St().free == InitState(words, table).free;
    }

    lemma HeadOfList(i: nat)
      requires Valid() && i < CLASSES
      ensures St().Sentinel(i) == table + 24 * i + 16
      ensures Next(mem.words, table + 24 * i + 16) != table + 24 * i + 16 <==> free[i] != []
      ensures free[i] != [] ==> Next(mem.words, table + 24 * i + 16) == free[i][0]
    {
      var st := St();
      ClassParts(st, i);
      var c := st.Nodes(i);
      RingAt(st.words, c, 0);
      if free[i] != [] { NodesApart(c, 0, 1); }
    }

    /** Lines 231-240: the first class that fits. */
    method FindClass(size: int) returns (k: nat)
      requires Rows()
      ensures k == ClassFrom(size, 0)
    {
      hide BlockSize, Start, End;
      k := 0;
      while k < CLASSES
        invariant k <= CLASSES && ClassFrom(size, k) == ClassFrom(size, 0)
      {
        if size <= classes[k].blockSize { return; }
        k := k + 1;
      }
    }

    /** `kalloc`: reboot for oversized requests, null when the class is used up. */
    method Kalloc(size: int) returns (reply: Reply)
      requires Valid()
      modifies this, mem
      ensures Valid()
      ensures (St(), reply) == Alloc(old(St()), size)
    {
      hide BlockSize, Start, End, ClassFrom, Del, Inv;
      ghost var st := St();
      AllocCorrect(st, size);
      AllocShape(st, size);
      var i := FindClass(size);
      if i == CLASSES {
        return Reboot;
      }
      HeadOfList(i);
      var head := table + 24 * i + 16;
      if Next(mem.words, head) != head {
        var entry := Next(mem.words, head);
        mem.ListDel(entry);
        free, live := free[i := free[i][1..]], live + {entry};
        assert St() == Taken(st, i);
        return Block(entry);
      }
      var sc := classes[i];
      if sc.current + sc.blockSize <= sc.arenaEnd {
        classes := classes[i := sc.(current := sc.current + sc.blockSize)];
        live := live + {sc.current};
        assert St() == Bumped(st, i);
        return Block(sc.current);
      }
      reply := Null;
    }

    /** Lines 281-284: the arena an address falls into. */
    method FindArena(p: int) returns (k: nat)
      requires Rows()
      ensures k == ArenaFrom(p, 0)
    {
      hide BlockSize, Start, End;
      k := 0;
      while k < CLASSES
        invariant k <= CLASSES && ArenaFrom(p, k) == ArenaFrom(p, 0)
      {
        if p >= classes[k].arenaStart && p < classes[k].arenaEnd { return; }
        k := k + 1;
      }
    }

    /** `kfree`: foreign and misaligned pointers are ignored; the block goes to the list's tail. */
    method Kfree(p: int)
      requires Rows()
      modifies this, mem
      ensures Rows()
      ensures St() == Free(old(St()), p)
      ensures old(Valid()) && p in old(live) ==> Valid()
    {
      hide BlockSize, Start, End, ArenaFrom, AddTail, Inv;
      ghost var st := St();
      if Valid() && p in live { FreeInv(st, p); }
      var i := FindArena(p);
      if i == CLASSES || (p - classes[i].arenaStart) % classes[i].blockSize != 0 {
        return;
      }
      mem.ListAddTail(p, table + 24 * i + 16);
      free, live := free[i := free[i] + [p]], live - {p};
      assert St() == Returned(st, i, p);
    }

    lemma FreeInv(st: State, p: int)
      requires Inv(st) && p in st.live
      ensures Inv(Free(st, p))
    {
      var i: nat :| i < CLASSES && st.Carved(i, p);
      FreeCorrect(st, i, p);
    }
  }
}
