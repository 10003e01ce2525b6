// The size-class allocator (lib/src/mem.c, lines 206-298): bump pointers per arena and FIFO
// free lists whose nodes live inside the freed blocks.
module Blocks {
  import opened Arenas
  import opened LinkedList

  /** `table` is the address of the static array `size_classes` (24 bytes an element, the list
      head at offset 16); `free` and `live` list what the memory words encode. */
  datatype State = State(table: int, words: Mem, cur: seq<int>, free: seq<seq<int>>, live: set<int>)
  {
    function Sentinel(i: nat): int {
      table + 24 * i + 16
    }

    function Nodes(i: nat): seq<int>
      requires i < |free|
    {
      [Sentinel(i)] + free[i]
    }

    /** `a` starts a block handed out at some time from arena `i`. */
    predicate Carved(i: nat, a: int)
      requires i < |cur|
    {
      OnGrid(i, a) && a < cur[i]
    }
  }

  ghost predicate CurOk(st: State, i: nat)
    requires i < |st.cur|
  {
    Start(i) <= st.cur[i] <= End(i) && OnGrid(i, st.cur[i])
  }

  /** The list is a ring of blocks of the arena that are not live. */
  ghost predicate FreeOk(st: State, i: nat)
    requires i < |st.cur| == |st.free|
  {
    Ring(st.words, st.Nodes(i)) && forall a :: a in st.free[i] ==> st.Carved(i, a) && a !in st.live
  }

  /** Nothing carved from the arena is lost. */
  ghost predicate Covered(st: State, i: nat)
    requires i < |st.cur| == |st.free|
  {
    forall a :: st.Carved(i, a) ==> a in st.live || a in st.free[i]
  }

  ghost predicate ClassOk(st: State, i: nat)
    requires i < |st.cur| == |st.free|
  {
    CurOk(st, i) && FreeOk(st, i) && Covered(st, i)
  }

  ghost predicate Shaped(st: State) {
    |st.cur| == |st.free| == CLASSES && st.table + 24 * CLASSES <= BASE
  }

  ghost predicate LiveOk(st: State)
    requires |st.cur| == CLASSES
  {
    forall a :: a in st.live ==> exists i: nat :: i < CLASSES && st.Carved(i, a)
  }

  /** Each arena is exactly its live blocks, its free-list blocks and the untouched tail. */
  ghost predicate Inv(st: State) {
    && Shaped(st)
    && (forall i: nat :: i < CLASSES ==> ClassOk(st, i))
    && LiveOk(st)
  }

  // ----- size classes -----

  function ClassFrom(size: int, i: nat): (k: nat)
    requires i <= CLASSES
    ensures i <= k <= CLASSES
    decreases CLASSES - i
  {
    if i == CLASSES || size <= BlockSize(i) then i else ClassFrom(size, i + 1)
  }

  /** The class chosen is the smallest that fits; there is none exactly above 16 MB. */
  lemma {:induction false} SmallestFit(size: int, i: nat)
    requires i <= CLASSES
    ensures ClassFrom(size, i) < CLASSES ==> size <= BlockSize(ClassFrom(size, i))
    ensures forall j :: i <= j < ClassFrom(size, i) ==> BlockSize(j) < size
    decreases CLASSES - i
  {
    hide BlockSize;
    if i < CLASSES { SmallestFit(size, i + 1); }
  }

  /** The arena an address falls into, as the loop of lines 281-296 finds it. */
  function ArenaFrom(a: int, i: nat): (k: nat)
    requires i <= CLASSES
    ensures i <= k <= CLASSES
    ensures k < CLASSES ==> Start(k) <= a < End(k)
    decreases CLASSES - i
  {
    if i == CLASSES || Start(i) <= a < End(i) then i else ArenaFrom(a, i + 1)
  }

  lemma {:induction false} ArenaFound(a: int, i: nat, k: nat)
    requires i <= k < CLASSES && Start(k) <= a < End(k)
    ensures ArenaFrom(a, i) == k
    decreases k - i
  {
    hide Start, End;
    if i < k {
      StartAfter(i, k);
      ArenaFound(a, i + 1, k);
    }
  }

  // ----- allocation and free as functions of the state -----

  datatype Reply = Reboot | Null | Block(addr: int)

  /** `kalloc`. */
  function Alloc(st: State, size: int): (r: (State, Reply))
    requires |st.cur| == |st.free| == CLASSES
  {
    var i := ClassFrom(size, 0);
    if i == CLASSES then (st, Reboot)
    else if st.free[i] != [] then
      var p := st.free[i][0];
      (st.(words := Del(st.words, p), free := st.free[i := st.free[i][1..]], live := st.live + {p}), Block(p))
    else if st.cur[i] + BlockSize(i) <= End(i) then
      var p := st.cur[i];
      (st.(cur := st.cur[i := p + BlockSize(i)], live := st.live + {p}), Block(p))
    else (st, Null)
  }

  /** `kfree`: pointers outside every arena or off its grid are ignored. */
  function Free(st: State, p: int): State
    requires |st.cur| == |st.free| == CLASSES
  {
    var i := ArenaFrom(p, 0);
    if i == CLASSES || (p - Start(i)) % BlockSize(i) != 0 then st
    else st.(words := AddTail(st.words, p, st.Sentinel(i)), free := st.free[i := st.free[i] + [p]], live := st.live - {p})
  }

  // ----- blocks and list heads never overlap -----

  lemma CarvedBounds(st: State, i: nat, a: int)
    requires Shaped(st) && i < CLASSES && CurOk(st, i) && st.Carved(i, a)
    ensures BASE <= Start(i) <= a && a + BlockSize(i) <= st.cur[i] <= End(i)
  {
    hide BlockSize, Start, End;
    StartAbove(i);
    CarvedIs(st, i, a);
    GridGap(i, a, st.cur[i]);
    GridFrom(i, a);
  }

  lemma GridFrom(i: nat, a: int)
    requires OnGrid(i, a)
    ensures a >= Start(i)
  {
  }

  lemma CarvedIs(st: State, i: nat, a: int)
    requires i < |st.cur|
    ensures st.Carved(i, a) <==> OnGrid(i, a) && a < st.cur[i]
  {
  }

  /** Two carved blocks are the same block or disjoint. */
  lemma BlocksApart(st: State, i: nat, a: int, j: nat, b: int)
    requires Shaped(st) && i < CLASSES && j < CLASSES && CurOk(st, i) && CurOk(st, j)
    requires st.Carved(i, a) && st.Carved(j, b) && (a != b || i != j)
    ensures a + BlockSize(i) <= b || b + BlockSize(j) <= a
  {
    CarvedIs(st, i, a);
    CarvedIs(st, j, b);
    CarvedBounds(st, i, a);
    CarvedBounds(st, j, b);
    hide *;
    if i < j { StartAfter(i, j); }
    else if j < i { StartAfter(j, i); }
    else if a < b { GridGap(i, a, b); }
    else { GridGap(i, b, a); }
  }

  /** Live blocks never overlap. */
  lemma LiveApart(st: State, a: int, b: int)
    requires Inv(st) && a in st.live && b in st.live && a != b
    ensures exists i: nat, j: nat :: i < CLASSES && j < CLASSES && st.Carved(i, a) && st.Carved(j, b)
              && (a + BlockSize(i) <= b || b + BlockSize(j) <= a)
  {
    var i: nat :| i < CLASSES && st.Carved(i, a);
    var j: nat :| j < CLASSES && st.Carved(j, b);
    ClassParts(st, i);
    ClassParts(st, j);
    hide OnGrid, Start, End, BlockSize, ClassOk;
    BlocksApart(st, i, a, j, b);
  }

  /** Every word a list of class `i` may touch. */
  ghost predicate NodeOf(st: State, i: nat, x: int)
    requires i < |st.cur|
  {
    x == st.Sentinel(i) || st.Carved(i, x)
  }

  lemma NodesDisjoint(st: State, i: nat, x: int, j: nat, y: int)
    requires Shaped(st) && i < CLASSES && j < CLASSES && CurOk(st, i) && CurOk(st, j)
    requires NodeOf(st, i, x) && NodeOf(st, j, y) && (x != y || i != j)
    ensures Clear(x, y)
  {
    hide BlockSize, Start, End, OnGrid;
    if st.Carved(i, x) { CarvedBounds(st, i, x); }
    if st.Carved(j, y) { CarvedBounds(st, j, y); }
    if st.Carved(i, x) && st.Carved(j, y) { BlocksApart(st, i, x, j, y); }
  }

  lemma RingFrame(m: Mem, m': Mem, c: seq<int>, nodes: seq<int>)
    requires Ring(m, c) && OnlyNodes(m, m', nodes)
    requires forall i, k :: 0 <= i < |c| && 0 <= k < |nodes| ==> Clear(c[i], nodes[k])
    ensures Ring(m', c)
  {
    forall i | 0 <= i < |c| ensures Rd(m', c[i]) == Rd(m, c[i]) && Rd(m', c[i] + 4) == Rd(m, c[i] + 4) {
      assert forall k :: 0 <= k < |nodes| ==> Clear(c[i], nodes[k]);
      assert Outside(c[i], nodes) && Outside(c[i] + 4, nodes);
    }
    forall i | 0 <= i < |c| ensures Next(m', c[i]) == Succ(c, i) && Prev(m', Succ(c, i)) == c[i] {
      RingAt(m, c, i);
    }
  }

  // ----- the invariant over allocations and frees -----

  lemma ListNode(st: State, i: nat, x: int)
    requires i < |st.cur| == |st.free| && FreeOk(st, i) && x in st.Nodes(i)
    ensures NodeOf(st, i, x)
  {
    if x != st.Sentinel(i) { assert x in st.free[i]; }
  }

  /** A list operation of class `i` leaves the ring of every other class alone. */
  lemma OtherRing(st: State, m': Mem, i: nat, j: nat, nodes: seq<int>)
    requires Shaped(st) && i < CLASSES && j < CLASSES && i != j && CurOk(st, i) && CurOk(st, j) && FreeOk(st, j)
    requires OnlyNodes(st.words, m', nodes) && forall k :: 0 <= k < |nodes| ==> NodeOf(st, i, nodes[k])
    ensures Ring(m', st.Nodes(j))
  {
    var c := st.Nodes(j);
    forall x, k | 0 <= x < |c| && 0 <= k < |nodes| ensures Clear(c[x], nodes[k]) {
      assert c[x] in c;
      ListNode(st, j, c[x]);
      NodesDisjoint(st, j, c[x], i, nodes[k]);
    }
    RingFrame(st.words, m', c, nodes);
  }

  lemma OtherBlock(st: State, i: nat, p: int, j: nat, a: int)
    requires Shaped(st) && i < CLASSES && j < CLASSES && i != j && CurOk(st, i) && CurOk(st, j)
    requires st.Carved(i, p) && st.Carved(j, a)
    ensures a != p
  {
    BlocksApart(st, i, p, j, a);
  }

  /** The three stores of a list removal hit the list head, the block handed out and its successor. */
  ghost function TakenNodes(st: State, i: nat): seq<int>
    requires i < |st.free| && st.free[i] != []
  {
    [st.Sentinel(i), st.free[i][0], Succ(st.Nodes(i), 1)]
  }

  lemma TakeRing(st: State, i: nat)
    requires i < |st.cur| == |st.free| && FreeOk(st, i) && st.free[i] != []
    ensures Ring(Del(st.words, st.free[i][0]), [st.Sentinel(i)] + st.free[i][1..])
    ensures OnlyNodes(st.words, Del(st.words, st.free[i][0]), TakenNodes(st, i))
    ensures forall k :: 0 <= k < 3 ==> NodeOf(st, i, TakenNodes(st, i)[k])
    ensures st.free[i][0] !in st.free[i][1..]
  {
    var c := st.Nodes(i);
    DelRing(st.words, c, 1);
    assert c[1] == st.free[i][0] && c[..1] + c[2..] == [st.Sentinel(i)] + st.free[i][1..];
    assert TakenNodes(st, i) == [c[0], c[1], Succ(c, 1)];
    forall k | 0 <= k < 3 ensures NodeOf(st, i, TakenNodes(st, i)[k]) {
      assert TakenNodes(st, i)[k] in c;
      ListNode(st, i, TakenNodes(st, i)[k]);
    }
    forall k | 1 <= k < |st.free[i]| ensures st.free[i][k] != st.free[i][0] {
      NodesApart(c, 1, k + 1);
    }
  }

  function Taken(st: State, i: nat): State
    requires i < |st.free| && st.free[i] != []
  {
    st.(words := Del(st.words, st.free[i][0]), free := st.free[i := st.free[i][1..]], live := st.live + {st.free[i][0]})
  }

  /** A class whose list, bump pointer and live blocks stay is still in order. */
  lemma ClassKept(st: State, st': State, j: nat)
    requires j < |st.cur| == |st'.cur| == |st.free| == |st'.free| && ClassOk(st, j)
    requires st'.table == st.table && st'.cur[j] == st.cur[j] && st'.free[j] == st.free[j] && Ring(st'.words, st.Nodes(j))
    requires forall a :: st.Carved(j, a) ==> (a in st'.live <==> a in st.live)
    ensures ClassOk(st', j)
  {
    hide Ring, OnGrid, Start, End;
    assert st'.Nodes(j) == st.Nodes(j);
    forall a ensures st'.Carved(j, a) <==> st.Carved(j, a) {}
  }

  lemma TakeOther(st: State, i: nat, j: nat)
    requires Shaped(st) && i < CLASSES && st.free[i] != [] && j < CLASSES && j != i && ClassOk(st, i) && ClassOk(st, j)
    ensures ClassOk(Taken(st, i), j)
  {
    ClassParts(st, i);
    ClassParts(st, j);
    TakeRing(st, i);
    FirstCarved(st, i);
    var p, m, nodes := st.free[i][0], Del(st.words, st.free[i][0]), TakenNodes(st, i);
    hide Ring, Del, OnlyNodes, OnGrid, Start, End, TakenNodes, ClassOk, CurOk, FreeOk;
    OtherRing(st, m, i, j, nodes);
    forall a | st.Carved(j, a) ensures a != p { OtherBlock(st, i, p, j, a); }
    ClassKept(st, Taken(st, i), j);
  }

  lemma FirstCarved(st: State, i: nat)
    requires i < |st.cur| == |st.free| && FreeOk(st, i) && st.free[i] != []
    ensures st.Carved(i, st.free[i][0]) && st.free[i][0] !in st.live
  {
    assert st.free[i][0] in st.free[i];
  }

  lemma TakeSelf(st: State, i: nat)
    requires Shaped(st) && i < CLASSES && st.free[i] != [] && ClassOk(st, i)
    ensures ClassOk(Taken(st, i), i)
    ensures st.free[i][0] !in st.live && st.Carved(i, st.free[i][0])
  {
    ClassParts(st, i);
    TakeRing(st, i);
    FirstCarved(st, i);
    var p, rest := st.free[i][0], st.free[i][1..];
    assert st.free[i] == [p] + rest;
    hide Ring, Del, OnlyNodes, OnGrid, Start, End, ClassOk, FreeOk, CurOk, TakenNodes;
    ClassShrunk(st, Taken(st, i), i, p, rest);
  }

  lemma ClassShrunk(st: State, st': State, i: nat, p: int, rest: seq<int>)
    requires i < |st.cur| == |st'.cur| == |st.free| == |st'.free| && ClassOk(st, i)
    requires st'.table == st.table && st'.cur == st.cur && st.free[i] == [p] + rest && st'.free[i] == rest && p !in rest
    requires st'.live == st.live + {p} && Ring(st'.words, [st.Sentinel(i)] + rest)
    ensures ClassOk(st', i)
  {
    hide Ring, OnGrid, Start, End;
    assert st'.Nodes(i) == [st.Sentinel(i)] + rest;
    forall a | a in rest ensures st'.Carved(i, a) && a !in st'.live {
      assert a in st.free[i];
    }
    forall a | st'.Carved(i, a) ensures a in st'.live || a in rest {
      assert st.Carved(i, a);
    }
  }

  lemma TakeFree(st: State, i: nat)
    requires Inv(st) && i < CLASSES && st.free[i] != []
    ensures Inv(Taken(st, i))
    ensures st.free[i][0] !in st.live && st.Carved(i, st.free[i][0])
  {
    hide ClassOk, Start, OnGrid, Del;
    TakeSelf(st, i);
    forall j: nat | j < CLASSES ensures ClassOk(Taken(st, i), j) {
      if j != i { TakeOther(st, i, j); }
    }
    LiveKeeps(st, Taken(st, i));
  }

  lemma LiveKeeps(st: State, st': State)
    requires |st.cur| == |st'.cur| == CLASSES && LiveOk(st)
    requires forall i: nat, a :: i < CLASSES && st.Carved(i, a) ==> st'.Carved(i, a)
    requires forall a :: a in st'.live && a !in st.live ==> exists i: nat :: i < CLASSES && st'.Carved(i, a)
    ensures LiveOk(st')
  {
    forall a | a in st'.live ensures exists i: nat :: i < CLASSES && st'.Carved(i, a) {
      if a in st.live {
        var i: nat :| i < CLASSES && st.Carved(i, a);
        assert st'.Carved(i, a);
      }
    }
  }

  lemma BumpGrid(st: State, i: nat)
    requires Shaped(st) && i < CLASSES && CurOk(st, i) && st.cur[i] + BlockSize(i) <= End(i)
    ensures OnGrid(i, st.cur[i] + BlockSize(i)) && Start(i) <= st.cur[i]
    ensures forall a :: OnGrid(i, a) && a < st.cur[i] + BlockSize(i) && a != st.cur[i] ==> a < st.cur[i]
  {
    hide BlockSize, Start, End;
    MultipleSum(st.cur[i] - Start(i), BlockSize(i));
    assert st.cur[i] + BlockSize(i) - Start(i) == st.cur[i] - Start(i) + BlockSize(i);
    forall a | OnGrid(i, a) && a < st.cur[i] + BlockSize(i) && a != st.cur[i] ensures a < st.cur[i] {
      if a > st.cur[i] { GridGap(i, st.cur[i], a); }
    }
  }

  function Bumped(st: State, i: nat): State
    requires i < |st.cur|
  {
    st.(cur := st.cur[i := st.cur[i] + BlockSize(i)], live := st.live + {st.cur[i]})
  }

  lemma BumpOther(st: State, i: nat, j: nat)
    requires Shaped(st) && i < CLASSES && j < CLASSES && j != i && ClassOk(st, j)
    requires CurOk(Bumped(st, i), i) && Bumped(st, i).Carved(i, st.cur[i])
    ensures ClassOk(Bumped(st, i), j)
  {
    ClassParts(st, j);
    hide Ring, OnGrid, Start, End, BlockSize, ClassOk;
    var st' := Bumped(st, i);
    forall a | st.Carved(j, a) ensures a != st.cur[i] { OtherBlock(st', i, st.cur[i], j, a); }
    ClassKept(st, st', j);
  }

  lemma BumpSelf(st: State, i: nat)
    requires Shaped(st) && i < CLASSES && ClassOk(st, i) && st.cur[i] + BlockSize(i) <= End(i)
    ensures ClassOk(Bumped(st, i), i) && Bumped(st, i).Carved(i, st.cur[i])
  {
    BumpGrid(st, i);
    BumpCur(st, i);
    hide Ring, OnGrid, Start, End;
  }

  lemma Bump(st: State, i: nat)
    requires Inv(st) && i < CLASSES && st.cur[i] + BlockSize(i) <= End(i)
    ensures Inv(Bumped(st, i))
    ensures st.cur[i] !in st.live && Bumped(st, i).Carved(i, st.cur[i])
  {
    BumpSelf(st, i);
    ClassParts(Bumped(st, i), i);
    BumpFresh(st, Bumped(st, i), i);
    hide ClassOk, Start, OnGrid, CurOk;
    forall j: nat | j < CLASSES ensures ClassOk(Bumped(st, i), j) {
      if j != i { BumpOther(st, i, j); }
    }
    LiveKeeps(st, Bumped(st, i));
  }

  lemma ClassParts(st: State, i: nat)
    requires i < |st.cur| == |st.free| && ClassOk(st, i)
    ensures CurOk(st, i) && FreeOk(st, i) && Covered(st, i)
  {
  }

  lemma BumpCur(st: State, i: nat)
    requires Shaped(st) && i < CLASSES && CurOk(st, i) && st.cur[i] + BlockSize(i) <= End(i)
    requires OnGrid(i, st.cur[i] + BlockSize(i))
    ensures CurOk(Bumped(st, i), i) && Bumped(st, i).Carved(i, st.cur[i])
  {
    hide Start, End, OnGrid;
  }

  lemma BumpFresh(st: State, st': State, i: nat)
    requires Inv(st) && Shaped(st') && i < CLASSES && CurOk(st', i)
    requires st' == st.(cur := st.cur[i := st'.cur[i]], live := st'.live) && st'.Carved(i, st.cur[i]) && st.cur[i] < st'.cur[i]
    ensures st.cur[i] !in st.live
  {
    hide Ring, OnGrid, Start, End, BlockSize, Covered, FreeOk;
    if st.cur[i] in st.live {
      var j: nat :| j < CLASSES && st.Carved(j, st.cur[i]);
      ClassParts(st, j);
      if j != i { OtherBlock(st', i, st.cur[i], j, st.cur[i]); }
    }
  }

  /** What an allocation promises: reboot exactly above 16 MB, null exactly when the smallest
      fitting class is used up, otherwise a block of that class that was not live. */
  ghost predicate AllocMeans(st: State, size: int, st': State, reply: Reply)
    requires |st.cur| == |st.free| == |st'.cur| == CLASSES
  {
    var i := ClassFrom(size, 0);
    && (reply == Reboot <==> i == CLASSES)
    && (reply == Null <==> i < CLASSES && st.free[i] == [] && st.cur[i] == End(i))
    && (reply.Block? ==> i < CLASSES && reply.addr !in st.live && st'.Carved(i, reply.addr) && st'.live == st.live + {reply.addr})
    && (!reply.Block? ==> st' == st)
  }

  lemma AllocCorrect(st: State, size: int)
    requires Inv(st)
    ensures Inv(Alloc(st, size).0)
    ensures AllocMeans(st, size, Alloc(st, size).0, Alloc(st, size).1)
  {
    var i := ClassFrom(size, 0);
    hide ClassFrom, Start, End, OnGrid, Del, Ring, ClassOk, BlockSize;
    if i < CLASSES {
      ClassParts(st, i);
      FullArena(st, i);
      if st.free[i] != [] {
        AllocTakes(st, size, i);
      } else if st.cur[i] + BlockSize(i) <= End(i) {
        AllocBumps(st, size, i);
      }
    }
  }

  lemma AllocTakes(st: State, size: int, i: nat)
    requires Inv(st) && i == ClassFrom(size, 0) < CLASSES && st.free[i] != []
    ensures Alloc(st, size) == (Taken(st, i), Block(st.free[i][0]))
    ensures Inv(Alloc(st, size).0)
    ensures st.free[i][0] !in st.live && Taken(st, i).Carved(i, st.free[i][0])
  {
    hide ClassFrom, Start, End, OnGrid, Del, Ring, ClassOk, BlockSize;
    TakeFree(st, i);
  }

  lemma AllocBumps(st: State, size: int, i: nat)
    requires Inv(st) && i == ClassFrom(size, 0) < CLASSES && st.free[i] == [] && st.cur[i] + BlockSize(i) <= End(i)
    ensures Alloc(st, size) == (Bumped(st, i), Block(st.cur[i]))
    ensures Inv(Alloc(st, size).0)
    ensures st.cur[i] !in st.live && Bumped(st, i).Carved(i, st.cur[i])
  {
    hide ClassFrom, Start, End, OnGrid, Del, Ring, ClassOk, BlockSize;
    Bump(st, i);
  }

  lemma FullArena(st: State, i: nat)
    requires Shaped(st) && i < CLASSES && CurOk(st, i)
    ensures st.cur[i] + BlockSize(i) > End(i) <==> st.cur[i] == End(i)
  {
    EndGrid(i);
    hide Start, End, BlockSize, OnGrid;
    if st.cur[i] < End(i) { GridGap(i, st.cur[i], End(i)); }
  }

  lemma EndGrid(i: nat)
    requires i < CLASSES
    ensures OnGrid(i, End(i))
  {
    Row(i);
    EndIs(i);
    hide Start, BlockSize, ArenaSize;
    assert End(i) - Start(i) == ArenaSize(i);
  }

  // ----- freeing -----

  lemma LiveInArena(st: State, i: nat, p: int)
    requires Shaped(st) && i < CLASSES && ClassOk(st, i) && st.Carved(i, p)
    ensures ArenaFrom(p, 0) == i && (p - Start(i)) % BlockSize(i) == 0
  {
    hide Start, End, BlockSize, ArenaFrom, ClassOk, CurOk, FreeOk, Covered;
    ClassParts(st, i);
    CarvedBounds(st, i, p);
    ArenaFound(p, 0, i);
    CarvedIs(st, i, p);
    assert OnGrid(i, p);
  }

  function Returned(st: State, i: nat, p: int): State
    requires i < |st.free|
  {
    st.(words := AddTail(st.words, p, st.Sentinel(i)), free := st.free[i := st.free[i] + [p]], live := st.live - {p})
  }

  /** The three nodes a list insertion writes. */
  ghost function ReturnedNodes(st: State, i: nat, p: int): seq<int>
    requires i < |st.free|
  {
    [st.Sentinel(i), st.Nodes(i)[|st.free[i]|], p]
  }

  lemma ReturnRing(st: State, i: nat, p: int)
    requires Shaped(st) && i < CLASSES && ClassOk(st, i) && st.Carved(i, p) && p in st.live
    ensures Ring(AddTail(st.words, p, st.Sentinel(i)), [st.Sentinel(i)] + (st.free[i] + [p]))
    ensures OnlyNodes(st.words, AddTail(st.words, p, st.Sentinel(i)), ReturnedNodes(st, i, p))
    ensures forall k :: 0 <= k < 3 ==> NodeOf(st, i, ReturnedNodes(st, i, p)[k])
    ensures p !in st.free[i]
  {
    ClassParts(st, i);
    var c := st.Nodes(i);
    hide Ring, Start, End, OnGrid, BlockSize;
    forall k | 0 <= k < |c| ensures Clear(c[k], p) && NodeOf(st, i, c[k]) {
      assert c[k] in c;
      ListNode(st, i, c[k]);
      if k > 0 { assert c[k] in st.free[i]; }
      if c[k] == p { CarvedBounds(st, i, p); }
      NodesDisjoint(st, i, c[k], i, p);
    }
    AddTailRing(st.words, c, p);
    assert c + [p] == [st.Sentinel(i)] + (st.free[i] + [p]);
    assert c[|c| - 1] == c[|st.free[i]|];
  }

  lemma ClassGrown(st: State, st': State, i: nat, p: int)
    requires i < |st.cur| == |st'.cur| == |st.free| == |st'.free| && ClassOk(st, i) && st.Carved(i, p)
    requires st'.table == st.table && st'.cur == st.cur && st'.free[i] == st.free[i] + [p]
    requires st'.live == st.live - {p} && Ring(st'.words, [st.Sentinel(i)] + (st.free[i] + [p]))
    ensures ClassOk(st', i)
  {
    hide Ring, OnGrid, Start, End;
    assert st'.Nodes(i) == [st.Sentinel(i)] + (st.free[i] + [p]);
    forall a | a in st'.free[i] ensures st'.Carved(i, a) && a !in st'.live {
      if a != p { assert a in st.free[i]; }
    }
    forall a | st'.Carved(i, a) ensures a in st'.live || a in st'.free[i] {
      assert st.Carved(i, a);
    }
  }

  lemma ReturnOther(st: State, i: nat, p: int, j: nat)
    requires Shaped(st) && i < CLASSES && j < CLASSES && j != i && ClassOk(st, i) && ClassOk(st, j)
    requires st.Carved(i, p) && p in st.live
    ensures ClassOk(Returned(st, i, p), j)
  {
    ClassParts(st, i);
    ClassParts(st, j);
    ReturnRing(st, i, p);
    var m, nodes := AddTail(st.words, p, st.Sentinel(i)), ReturnedNodes(st, i, p);
    hide Ring, AddTail, OnlyNodes, OnGrid, Start, End, ReturnedNodes, ClassOk, CurOk, FreeOk;
    OtherRing(st, m, i, j, nodes);
    forall a | st.Carved(j, a) ensures a != p { OtherBlock(st, i, p, j, a); }
    ClassKept(st, Returned(st, i, p), j);
  }

  lemma FreeReturned(st: State, i: nat, p: int)
    requires Shaped(st) && i < CLASSES && ClassOk(st, i) && st.Carved(i, p)
    ensures Free(st, p) == Returned(st, i, p)
  {
    hide ClassOk, Start, End, OnGrid, AddTail, BlockSize, ArenaFrom;
    LiveInArena(st, i, p);
  }

  /** Freeing a live block puts it at the end of its class's list and nothing else. */
  lemma FreeCorrect(st: State, i: nat, p: int)
    requires Inv(st) && p in st.live && i < CLASSES && st.Carved(i, p)
    ensures Free(st, p) == Returned(st, i, p)
    ensures Inv(Free(st, p))
  {
    hide ClassOk, Start, End, OnGrid, AddTail, Ring, OnlyNodes, ReturnedNodes, BlockSize, ArenaFrom, Free, LiveOk;
    FreeReturned(st, i, p);
    ReturnRing(st, i, p);
    forall j: nat | j < CLASSES ensures ClassOk(Returned(st, i, p), j) {
      if j != i { ReturnOther(st, i, p, j); } else { ClassGrown(st, Returned(st, i, p), i, p); }
    }
    LiveKeeps(st, Returned(st, i, p));
  }

  // ----- list writes never touch a live block -----

  /** The words of live block `q` are the same in both memories. */
  ghost predicate SameBlock(m: Mem, m': Mem, q: int, size: int) {
    forall a :: q <= a < q + size ==> Rd(m', a) == Rd(m, a)
  }

  lemma BlockUntouched(st: State, m': Mem, i: nat, nodes: seq<int>, j: nat, q: int)
    requires Shaped(st) && i < CLASSES && j < CLASSES && CurOk(st, i) && CurOk(st, j) && st.Carved(j, q)
    requires OnlyNodes(st.words, m', nodes)
    requires forall k :: 0 <= k < |nodes| ==> NodeOf(st, i, nodes[k]) && nodes[k] != q
    ensures SameBlock(st.words, m', q, BlockSize(j))
  {
    CarvedBounds(st, j, q);
    hide Start, End, OnGrid, BlockSize;
    forall a | q <= a < q + BlockSize(j) ensures Rd(m', a) == Rd(st.words, a) {
      forall k | 0 <= k < |nodes| ensures !InNode(a, nodes[k]) {
        if st.Carved(i, nodes[k]) { BlocksApart(st, i, nodes[k], j, q); }
      }
      assert Outside(a, nodes);
    }
  }

  lemma AllocShape(st: State, size: int)
    requires |st.cur| == |st.free| == CLASSES
    ensures var i := ClassFrom(size, 0); i == CLASSES ==> Alloc(st, size) == (st, Reboot)
    ensures var i := ClassFrom(size, 0); i < CLASSES && st.free[i] != [] ==> Alloc(st, size) == (Taken(st, i), Block(st.free[i][0]))
    ensures var i := ClassFrom(size, 0); i < CLASSES && st.free[i] == [] && st.cur[i] + BlockSize(i) <= End(i) ==> Alloc(st, size) == (Bumped(st, i), Block(st.cur[i]))
    ensures var i := ClassFrom(size, 0); i < CLASSES && st.free[i] == [] && st.cur[i] + BlockSize(i) > End(i) ==> Alloc(st, size) == (st, Null)
  {
    hide ClassFrom, Start, End, BlockSize, Del;
  }

  lemma AllocKeepsLive(st: State, size: int, j: nat, q: int)
    requires Inv(st) && q in st.live && j < CLASSES && st.Carved(j, q)
    ensures SameBlock(st.words, Alloc(st, size).0.words, q, BlockSize(j))
  {
    AllocShape(st, size);
    var i := ClassFrom(size, 0);
    hide ClassFrom, Start, End, OnGrid, Ring, ClassOk, BlockSize, Del, Alloc, Inv;
    if i < CLASSES && st.free[i] != [] { TakeKeepsLive(st, i, j, q); }
  }

  lemma TakeKeepsLive(st: State, i: nat, j: nat, q: int)
    requires Inv(st) && q in st.live && j < CLASSES && st.Carved(j, q) && i < CLASSES && st.free[i] != []
    ensures SameBlock(st.words, Taken(st, i).words, q, BlockSize(j))
  {
    ClassParts(st, i);
    ClassParts(st, j);
    TakeRing(st, i);
    CarvedBounds(st, j, q);
    TakenNotLive(st, i, q);
    hide Start, End, OnGrid, Ring, ClassOk, BlockSize, Del, TakenNodes, SameBlock, OnlyNodes;
    BlockUntouched(st, Del(st.words, st.free[i][0]), i, TakenNodes(st, i), j, q);
  }

  lemma TakenNotLive(st: State, i: nat, q: int)
    requires Shaped(st) && i < CLASSES && ClassOk(st, i) && st.free[i] != [] && q in st.live && q >= BASE
    ensures forall k :: 0 <= k < 3 ==> TakenNodes(st, i)[k] != q
  {
    var c := st.Nodes(i);
    hide Ring;
    assert forall x :: x in st.free[i] ==> x != q;
    assert Succ(c, 1) in c;
    assert st.free[i][0] in st.free[i];
  }

  lemma FreeKeepsLive(st: State, i: nat, p: int, j: nat, q: int)
    requires Inv(st) && p in st.live && i < CLASSES && st.Carved(i, p)
    requires q in st.live && q != p && j < CLASSES && st.Carved(j, q)
    ensures SameBlock(st.words, Free(st, p).words, q, BlockSize(j))
  {
    FreeCorrect(st, i, p);
    ClassParts(st, i);
    ClassParts(st, j);
    ReturnRing(st, i, p);
    ReturnedNotLive(st, i, p, q, j);
    hide Start, End, OnGrid, Ring, ClassOk, BlockSize, AddTail, Free;
    BlockUntouched(st, AddTail(st.words, p, st.Sentinel(i)), i, ReturnedNodes(st, i, p), j, q);
  }

  lemma ReturnedNotLive(st: State, i: nat, p: int, q: int, j: nat)
    requires Shaped(st) && i < CLASSES && j < CLASSES && ClassOk(st, i) && ClassOk(st, j) && q in st.live && q != p && st.Carved(j, q)
    ensures forall k :: 0 <= k < 3 ==> ReturnedNodes(st, i, p)[k] != q
  {
    ClassParts(st, j);
    CarvedBounds(st, j, q);
    hide Ring, Start, End, OnGrid, BlockSize;
    if st.free[i] != [] { assert st.free[i][|st.free[i]| - 1] in st.free[i]; }
  }

  // ----- how much is left -----

  /** The blocks of class `i` that can still be handed out. */
  ghost function Avail(st: State, i: nat): int
    requires i < |st.cur| == |st.free|
  {
    |st.free[i]| + (End(i) - st.cur[i]) / BlockSize(i)
  }

  lemma AvailTaken(st: State, i: nat, j: nat)
    requires i < |st.cur| == |st.free| && st.free[i] != [] && j < |st.cur|
    ensures Avail(Taken(st, i), j) == if i == j then Avail(st, j) - 1 else Avail(st, j)
  {
    hide Start, End, BlockSize, Del;
  }

  lemma AvailBumped(st: State, i: nat, j: nat)
    requires Shaped(st) && i < CLASSES && CurOk(st, i) && j < CLASSES
    ensures Avail(Bumped(st, i), j) == if i == j then Avail(st, j) - 1 else Avail(st, j)
  {
    hide Start, End, BlockSize, OnGrid, CurOk;
    TailBlocks(st, i);
    if i != j { assert Bumped(st, i).cur[j] == st.cur[j]; }
  }

  /** A request succeeds exactly when its class has a block left, and uses up one. */
  lemma AvailAlloc(st: State, size: int, j: nat)
    requires Inv(st) && j < CLASSES
    ensures var i, r := ClassFrom(size, 0), Alloc(st, size); i < CLASSES ==> (r.1.Block? <==> Avail(st, i) > 0)
    ensures var i, r := ClassFrom(size, 0), Alloc(st, size); Avail(r.0, j) == if r.1.Block? && i == j then Avail(st, j) - 1 else Avail(st, j)
  {
    hide ClassFrom, Start, End, OnGrid, Del, Ring, ClassOk, BlockSize, Alloc, Taken, Bumped;
    AllocShape(st, size);
    var i := ClassFrom(size, 0);
    if i < CLASSES {
      ClassParts(st, i);
      FullArena(st, i);
      TailBlocks(st, i);
      if st.free[i] != [] { AvailTaken(st, i, j); } else { AvailBumped(st, i, j); }
    }
  }

  lemma TailBlocks(st: State, i: nat)
    requires Shaped(st) && i < CLASSES && CurOk(st, i)
    ensures (End(i) - st.cur[i]) / BlockSize(i) >= 0
    ensures (End(i) - st.cur[i]) / BlockSize(i) > 0 <==> st.cur[i] < End(i)
    ensures (End(i) - (st.cur[i] + BlockSize(i))) / BlockSize(i) == (End(i) - st.cur[i]) / BlockSize(i) - 1
  {
    hide Start, OnGrid, BlockSize, End;
    FullArena(st, i);
    OneLess(End(i) - st.cur[i], BlockSize(i));
  }

  lemma OneLess(x: int, k: int)
    requires k > 0 && x >= 0 && (x < k ==> x == 0)
    ensures x / k >= 0 && (x / k > 0 <==> x > 0) && (x - k) / k == x / k - 1
  {
    assert x == x / k * k + x % k;
    var q := (x - k) / k;
    assert x - k == q * k + (x - k) % k;
    assert x == (q + 1) * k + (x - k) % k;
    SameQuotient(x, k, q + 1, (x - k) % k);
  }

  lemma SameQuotient(x: int, k: int, q: int, r: int)
    requires k > 0 && x == q * k + r && 0 <= r < k
    ensures x / k == q
  {
    var d := x / k;
    assert x == d * k + x % k;
    assert (d + 1) * k == d * k + k && (q + 1) * k == q * k + k;
    if d < q { QuotientMono(d + 1, q, k); }
    if q < d { QuotientMono(q + 1, d, k); }
  }

  lemma AvailFree(st: State, i: nat, p: int, j: nat)
    requires Inv(st) && p in st.live && i < CLASSES && st.Carved(i, p) && j < CLASSES
    ensures Inv(Free(st, p)) && Avail(Free(st, p), j) == if i == j then Avail(st, j) + 1 else Avail(st, j)
  {
    FreeCorrect(st, i, p);
    hide Inv, Free;
    AvailReturned(st, i, p, j);
  }

  lemma AvailReturned(st: State, i: nat, p: int, j: nat)
    requires i < |st.cur| == |st.free| && j < |st.cur|
    ensures Avail(Returned(st, i, p), j) == if i == j then Avail(st, j) + 1 else Avail(st, j)
  {
    hide Start, End, BlockSize, AddTail;
  }
}
