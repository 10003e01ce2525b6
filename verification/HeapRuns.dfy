// Runs of the allocator together with its clients (lib/src/mem.c, lines 208-298): allocations,
// frees and stores into blocks that are held, in any order.
module HeapRuns {
  import opened Arenas
  import opened LinkedList
  import opened Blocks
  import opened Frames

  datatype Call = KAlloc(size: int) | KFree(p: int) | Store(p: int, at: nat, value: int)

  /** A caller may free only what it holds, and store whole words inside it. */
  ghost predicate Legal(st: State, c: Call) {
    match c
    case KAlloc(_) => true
    case KFree(p) => p in st.live
    case Store(p, at, _) => at % 4 == 0 && exists i: nat :: Owned(st, i, p) && at + 4 <= BlockSize(i)
  }

  function Apply(st: State, c: Call): State
    requires |st.cur| == |st.free| == CLASSES
  {
    match c
    case KAlloc(size) => Alloc(st, size).0
    case KFree(p) => Free(st, p)
    case Store(p, at, value) => st.(words := st.words[p + at := value])
  }

  ghost predicate IsRun(trace: seq<State>, calls: seq<Call>) {
    && |trace| == |calls| + 1
    && forall i :: 0 <= i < |calls| ==> |trace[i].cur| == |trace[i].free| == CLASSES && Legal(trace[i], calls[i]) && trace[i + 1] == Apply(trace[i], calls[i])
  }

  lemma RunStep(trace: seq<State>, calls: seq<Call>, i: nat, j: nat)
    requires IsRun(trace, calls) && i < |calls| && j == i + 1
    ensures |trace[i].cur| == |trace[i].free| == CLASSES && Legal(trace[i], calls[i]) && trace[j] == Apply(trace[i], calls[i])
  {
    hide Legal, Apply;
  }

  lemma StoreCall(st: State, p: int, at: nat, value: int) returns (i: nat)
    requires Inv(st) && Legal(st, Store(p, at, value))
    ensures i < CLASSES && Owned(st, i, p) && at < BlockSize(i)
    ensures OnlyRange(st.words, st.words[p + at := value], p, p + BlockSize(i)) && Inv(st.(words := st.words[p + at := value]))
  {
    i :| Owned(st, i, p) && at + 4 <= BlockSize(i);
    hide Inv, BlockSize;
    StoreInv(st, st.words[p + at := value], i, p);
  }

  lemma CallInv(st: State, c: Call)
    requires Inv(st) && |st.cur| == |st.free| == CLASSES && Legal(st, c)
    ensures Inv(Apply(st, c))
  {
    match c
    case KAlloc(size) => AllocCorrect(st, size);
    case KFree(p) =>
      var i: nat :| i < CLASSES && st.Carved(i, p);
      FreeCorrect(st, i, p);
    case Store(p, at, value) => var i := StoreCall(st, p, at, value);
  }

  /** Over every run of allocations, legal frees and stores into held blocks each arena stays
      exactly its live blocks, its free list and its untouched tail. */
  lemma {:induction false} RunInv(trace: seq<State>, calls: seq<Call>, i: nat)
    requires IsRun(trace, calls) && i <= |calls| && Inv(trace[0])
    ensures Inv(trace[i])
  {
    hide *;
    if i > 0 {
      RunBound(trace, calls);
      RunInv(trace, calls, i - 1);
      RunStep(trace, calls, i - 1, i);
      CallInv(trace[i - 1], calls[i - 1]);
    } else {
      RunBound(trace, calls);
    }
  }

  lemma RunBound(trace: seq<State>, calls: seq<Call>)
    requires IsRun(trace, calls)
    ensures |trace| == |calls| + 1
  {
    hide Legal, Apply;
  }

  /** A live block stays live, and keeps every word but the one stored to, through every call that
      does not free it. */
  lemma CallKeepsBlock(st: State, c: Call, j: nat, q: int, a: int)
    requires Inv(st) && |st.cur| == |st.free| == CLASSES && Legal(st, c) && Owned(st, j, q) && c != KFree(q) && q <= a < q + BlockSize(j)
    ensures Owned(Apply(st, c), j, q)
    ensures Rd(Apply(st, c).words, a) == if c.Store? && c.p + c.at == a then c.value else Rd(st.words, a)
  {
    hide BlockSize, Alloc, Free, Inv;
    match c
    case KAlloc(size) => AllocKeepsLive(st, size, j, q); AllocKeepsOwned(st, size, j, q);
    case KFree(p) => FreeKeepsOwned(st, p, j, q);
    case Store(p, at, value) =>
  }

  lemma FreeKeepsOwned(st: State, p: int, j: nat, q: int)
    requires Inv(st) && p in st.live && Owned(st, j, q) && p != q
    ensures Owned(Free(st, p), j, q) && SameBlock(st.words, Free(st, p).words, q, BlockSize(j))
  {
    hide Inv, BlockSize, OnGrid, Free;
    LiveClass(st, p);
    var i: nat :| i < CLASSES && st.Carved(i, p);

    FreeCorrect(st, i, p);
    FreeKeepsLive(st, i, p, j, q);
  }

  lemma LiveClass(st: State, p: int)
    requires Inv(st) && p in st.live
    ensures |st.cur| == CLASSES && exists i: nat :: i < CLASSES && st.Carved(i, p)
  {
    hide ClassOk, BlockSize, OnGrid;
  }

  lemma AllocKeepsOwned(st: State, size: int, j: nat, q: int)
    requires Inv(st) && Owned(st, j, q)
    ensures Owned(Alloc(st, size).0, j, q)
  {
    AllocShape(st, size);
    hide Inv, ClassFrom, Start, End, Del, BlockSize, OnGrid;
  }

  /** The value last stored at address `a` since call `m`. */
  function LastStored(calls: seq<Call>, m: nat, i: nat, a: int, init: int): int
    requires m <= i <= |calls|
    decreases i
  {
    if i == m then init
    else
      var c := calls[i - 1];
      if c.Store? && c.p + c.at == a then c.value else LastStored(calls, m, i - 1, a, init)
  }

  ghost predicate NotFreed(calls: seq<Call>, m: nat, i: nat, q: int)
    requires i <= |calls|
  {
    forall k :: m <= k < i ==> calls[k] != KFree(q)
  }

  /** A block that is not freed is private memory: whatever is allocated, freed and stored around
      it, every word of it reads as what was last stored there. */
  lemma {:induction false} PrivateMemory(trace: seq<State>, calls: seq<Call>, m: nat, i: nat, j: nat, q: int, a: int)
    requires IsRun(trace, calls) && m <= i <= |calls| && Inv(trace[0]) && NotFreed(calls, m, i, q)
    requires Owned(trace[m], j, q) && q <= a < q + BlockSize(j)
    ensures Owned(trace[i], j, q) && Rd(trace[i].words, a) == LastStored(calls, m, i, a, Rd(trace[m].words, a))
  {
    hide IsRun, Owned, BlockSize, Inv, Legal, Apply;
    RunBound(trace, calls);
    if i > m {
      PrivateMemory(trace, calls, m, i - 1, j, q, a);
      RunInv(trace, calls, i - 1);
      RunStep(trace, calls, i - 1, i);
      CallKeepsBlock(trace[i - 1], calls[i - 1], j, q, a);
    }
  }

  /** A block handed out is none of the blocks held, and shares no address with them. */
  lemma FreshBlock(trace: seq<State>, calls: seq<Call>, i: nat, size: int, p: int, j: nat, q: int)
    requires IsRun(trace, calls) && i < |calls| && Inv(trace[0]) && calls[i] == KAlloc(size)
    requires |trace[i].cur| == |trace[i].free| == CLASSES && Alloc(trace[i], size).1 == Block(p) && Owned(trace[i], j, q)
    ensures p != q && p in trace[i + 1].live && p !in trace[i].live
    ensures var c := ClassFrom(size, 0); c < CLASSES && (p + BlockSize(c) <= q || q + BlockSize(j) <= p)
  {
    RunInv(trace, calls, i);
    RunStep(trace, calls, i, i + 1);
    var st, st' := trace[i], trace[i + 1];
    AllocCorrect(st, size);
    AllocKeepsOwned(st, size, j, q);
    hide Inv, BlockSize, Alloc, ClassFrom;
    OwnedApart(st', ClassFrom(size, 0), p, j, q);
  }
}
