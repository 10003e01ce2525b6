// Many address spaces over time: any interleaving of fork, mapping and teardown (final/src/vm.c)
// keeps the live spaces apart and conserves blocks.
module SpaceRuns {
  import opened Arenas
  import opened LinkedList
  import opened Blocks
  import opened Frames
  import opened PageTables
  import opened Spaces
  import opened UserSpace
  import opened Fork
  import opened Teardown

  /** Memory and the roots of the live address spaces. */
  datatype World = World(st: State, spaces: set<int>)

  datatype Op =
    | ForkOp(l1: int, n1: int)
    | MapOp(l1: int, lo: nat, hi: nat, rows: set<nat>)
    | FreeOp(l1: int)
    | OtherOp(gone: set<int>) // the kernel at work on blocks of its own

  /** The live address spaces are in order and share no block. */
  ghost predicate Good(w: World) {
    && Inv(w.st)
    && (forall a :: a in w.spaces ==> Space(w.st, a))
    && (forall a, b :: a in w.spaces && b in w.spaces && a != b ==> SpaceBlocks(w.st.words, a) !! SpaceBlocks(w.st.words, b))
  }

  /** Live blocks that belong to no address space. */
  ghost function Kernel(w: World): set<int> {
    set x | x in w.st.live && forall a :: a in w.spaces ==> x !in SpaceBlocks(w.st.words, a)
  }

  ghost predicate Step(w: World, op: Op, w': World) {
    match op
    case ForkOp(l1, n1) =>
      && l1 in w.spaces && NoDeviceTables(w.st.words, l1)
      && TableForked(w.st, w'.st, l1, n1, 4095) && w'.spaces == w.spaces + {n1}
    case MapOp(l1, lo, hi, rows) => l1 in w.spaces && Mapped(w.st, w'.st, l1, lo, hi, rows) && w'.spaces == w.spaces
    case FreeOp(l1) => l1 in w.spaces && Released(w.st, w'.st, SpaceBlocks(w.st.words, l1)) && w'.spaces == w.spaces - {l1}
    case OtherOp(gone) => gone <= Kernel(w) && SparesBlocks(w.st, w'.st, gone) && w.st.live - gone <= w'.st.live && w'.spaces == w.spaces
  }

  /** Space `a` has the same blocks with the same words. */
  ghost predicate Untouched(st: State, st': State, a: int) {
    && Space(st', a) && SpaceBlocks(st'.words, a) == SpaceBlocks(st.words, a)
    && forall c: nat, q :: c < CLASSES && Owned(st, c, q) && q in SpaceBlocks(st.words, a) ==> Owned(st', c, q) && SameBlock(st.words, st'.words, q, BlockSize(c))
  }

  lemma SparedSpace(st: State, st': State, gone: set<int>, a: int)
    requires Space(st, a) && SparesBlocks(st, st', gone) && SpaceBlocks(st.words, a) !! gone
    ensures Untouched(st, st', a)
  {
    SpaceSurvives(st, st', gone, a);
    hide Inv, Owned, BlockSize, SpaceBlocks, Space, SameBlock;
  }

  lemma MapSpares(st: State, st': State, l1: int)
    requires PagesSpared(st, st', l1)
    ensures SparesBlocks(st, st', SpaceBlocks(st.words, l1))
  {
    hide Inv, Owned, BlockSize, SpaceBlocks, SameBlock;
  }

  /** A space the operation does not work on keeps its blocks and every word in them. */
  lemma Bystander(w: World, op: Op, w': World, a: int)
    requires Good(w) && Step(w, op, w') && a in w.spaces
    requires op.FreeOp? || op.MapOp? ==> a != op.l1
    ensures a in w'.spaces && Untouched(w.st, w'.st, a)
  {
    hide Inv, Owned, BlockSize, SpaceBlocks, Space, SameBlock, SparesBlocks, MemoryKept, PagesSpared, TableForked, NoDeviceTables, Untouched, Grown, ViewsMapped, RowsAdded, Frugal, RootKept;
    match op
    case ForkOp(l1, n1) =>
      ForkInv(w.st, w'.st, l1, n1, 4095);
      ExtendsSpares(w.st, w'.st);
      SparedSpace(w.st, w'.st, {}, a);
    case MapOp(l1, lo, hi, rows) =>
      MapSpares(w.st, w'.st, l1);
      SparedSpace(w.st, w'.st, SpaceBlocks(w.st.words, l1), a);
    case FreeOp(l1) => SparedSpace(w.st, w'.st, SpaceBlocks(w.st.words, l1), a);
    case OtherOp(gone) =>
      KernelApart(w, gone, a);
      SparedSpace(w.st, w'.st, gone, a);
  }

  lemma KernelApart(w: World, gone: set<int>, a: int)
    requires gone <= Kernel(w) && a in w.spaces
    ensures SpaceBlocks(w.st.words, a) !! gone
  {
    hide SpaceBlocks;
  }

  lemma Same(st: State, st': State, a: int)
    requires Untouched(st, st', a)
    ensures Space(st', a) && SpaceBlocks(st'.words, a) == SpaceBlocks(st.words, a)
  {
    hide Space, SpaceBlocks;
  }

  lemma BlocksLive(w: World, a: int)
    requires Good(w) && a in w.spaces
    ensures SpaceBlocks(w.st.words, a) <= w.st.live
  {
    SpaceLive(w.st, a);
  }

  /** The space an operation builds or changes. */
  predicate Works(op: Op, a: int) {
    match op
    case ForkOp(_, n1) => a == n1
    case MapOp(l1, _, _, _) => a == l1
    case FreeOp(l1) => a == l1
    case OtherOp(_) => false
  }

  /** A fork or a mapping makes its space out of blocks it had and blocks that were not live. */
  ghost predicate Built(w: World, w': World, a: int) {
    && Space(w'.st, a) && w'.st.live == w.st.live + SpaceBlocks(w'.st.words, a)
    && (forall x :: x in SpaceBlocks(w'.st.words, a) && x in w.st.live ==> a in w.spaces && x in SpaceBlocks(w.st.words, a))
    && (a in w.spaces ==> SpaceBlocks(w.st.words, a) <= SpaceBlocks(w'.st.words, a))
  }

  lemma ForkBuilds(w: World, l1: int, n1: int, w': World)
    requires Good(w) && Step(w, ForkOp(l1, n1), w')
    ensures Inv(w'.st) && Built(w, w', n1) && n1 !in w.spaces
  {
    ForkInv(w.st, w'.st, l1, n1, 4095);
    ForkIsolates(w.st, w'.st, l1, n1);
    hide Inv, TableForked, Owned, Space, NoDeviceTables;
    RootIn(w'.st.words, n1);
    RootIn(w.st.words, n1);
    if n1 in w.spaces { BlocksLive(w, n1); }
  }

  lemma RootIn(m: Mem, l1: int)
    ensures l1 in SpaceBlocks(m, l1)
  {
  }

  lemma MapBuilds(w: World, l1: int, lo: nat, hi: nat, rows: set<nat>, w': World)
    requires Step(w, MapOp(l1, lo, hi, rows), w')
    ensures Inv(w'.st) && Built(w, w', l1)
  {
    hide Inv, Owned, Space, SpaceBlocks, BlockSize, ViewsMapped, RowsAdded, Frugal, RootKept;
  }

  lemma FreeGone(w: World, l1: int, w': World)
    requires Step(w, FreeOp(l1), w')
    ensures Inv(w'.st) && w'.st.live == w.st.live - SpaceBlocks(w.st.words, l1)
  {
    hide Inv, Owned, Space, SpaceBlocks, BlockSize;
  }

  lemma OtherInv(w: World, gone: set<int>, w': World)
    requires Step(w, OtherOp(gone), w')
    ensures Inv(w'.st)
  {
    hide Inv, Owned, Space, SpaceBlocks, BlockSize;
  }

  /** What every step does to the spaces, in one place. */
  lemma StepSpaces(w: World, op: Op, w': World, a: int)
    requires Good(w) && Step(w, op, w') && a in w'.spaces
    ensures Inv(w'.st) && Space(w'.st, a)
    ensures Works(op, a) ==> (op.ForkOp? || op.MapOp?) && Built(w, w', a)
    ensures !Works(op, a) ==> a in w.spaces && SpaceBlocks(w'.st.words, a) == SpaceBlocks(w.st.words, a) && SpaceBlocks(w.st.words, a) <= w.st.live
  {
    hide Step, Good, Built, Untouched, Space, SpaceBlocks, Inv, Works;
    StepSplit(w, op, w', a);
    StepInvariant(w, op, w');
    if Works(op, a) {
      TargetBuilt(w, op, w', a);
      BuiltSpace(w, w', a);
    } else {
      Bystander(w, op, w', a);
      Same(w.st, w'.st, a);
      BlocksLive(w, a);
    }
  }

  lemma TargetBuilt(w: World, op: Op, w': World, a: int)
    requires Good(w) && Step(w, op, w') && Works(op, a) && (op.ForkOp? || op.MapOp?)
    ensures Built(w, w', a)
  {
    hide Step, Good, Built, Inv;
    match op
    case ForkOp(l1, n1) => ForkBuilds(w, l1, n1, w');
    case MapOp(l1, lo, hi, rows) => MapBuilds(w, l1, lo, hi, rows, w');
  }

  lemma BuiltSpace(w: World, w': World, a: int)
    requires Built(w, w', a)
    ensures Space(w'.st, a)
  {
  }

  lemma StepSplit(w: World, op: Op, w': World, a: int)
    requires Step(w, op, w') && a in w'.spaces
    ensures Works(op, a) ==> op.ForkOp? || op.MapOp?
    ensures !Works(op, a) ==> a in w.spaces && (op.FreeOp? || op.MapOp? ==> a != op.l1)
  {
    hide TableForked, Mapped, Released, Spares, SpaceBlocks, NoDeviceTables;
  }

  lemma Pair(w: World, op: Op, w': World, a: int, b: int)
    requires Good(w) && Step(w, op, w') && a in w'.spaces && b in w'.spaces && a != b && !Works(op, b)
    ensures SpaceBlocks(w'.st.words, a) !! SpaceBlocks(w'.st.words, b)
  {
    hide Step, Space, SpaceBlocks, Inv, Works;
    StepSpaces(w, op, w', a);
    StepSpaces(w, op, w', b);
    if a in w.spaces { assert SpaceBlocks(w.st.words, a) !! SpaceBlocks(w.st.words, b); }
    if Works(op, a) {
      forall x | x in SpaceBlocks(w'.st.words, a) ensures x !in SpaceBlocks(w.st.words, b) {
        if x in w.st.live { assert a in w.spaces && x in SpaceBlocks(w.st.words, a); }
      }
    }
  }

  /** Each operation keeps the live spaces in order and apart. */
  lemma StepGood(w: World, op: Op, w': World)
    requires Good(w) && Step(w, op, w')
    ensures Good(w')
  {
    StepInvariant(w, op, w');
    forall a | a in w'.spaces ensures Space(w'.st, a) { StepSpaces(w, op, w', a); }
    forall a, b | a in w'.spaces && b in w'.spaces && a != b ensures SpaceBlocks(w'.st.words, a) !! SpaceBlocks(w'.st.words, b) {
      if Works(op, b) { Pair(w, op, w', b, a); } else { Pair(w, op, w', a, b); }
    }
    hide Step, Space, SpaceBlocks, Inv;
  }

  lemma StepInvariant(w: World, op: Op, w': World)
    requires Good(w) && Step(w, op, w')
    ensures Inv(w'.st)
  {
    hide Step, Good, Built, Space, SpaceBlocks, Inv;
    match op
    case ForkOp(l1, n1) => ForkBuilds(w, l1, n1, w');
    case MapOp(l1, lo, hi, rows) => MapBuilds(w, l1, lo, hi, rows, w');
    case FreeOp(l1) => FreeGone(w, l1, w');
    case OtherOp(gone) => OtherInv(w, gone, w');
  }

  /** The other spaces have the blocks they had. */
  ghost predicate OthersSame(w: World, w': World, t: int) {
    forall a :: a in w.spaces && a != t ==> a in w'.spaces && SpaceBlocks(w'.st.words, a) == SpaceBlocks(w.st.words, a)
  }

  lemma OthersStay(w: World, op: Op, w': World, t: int)
    requires Good(w) && Step(w, op, w') && Works(op, t)
    ensures OthersSame(w, w', t)
  {
    hide Good, Step, SpaceBlocks, Untouched;
    forall a | a in w.spaces && a != t ensures a in w'.spaces && SpaceBlocks(w'.st.words, a) == SpaceBlocks(w.st.words, a) {
      Bystander(w, op, w', a);
      Same(w.st, w'.st, a);
    }
  }

  lemma BuiltConserves(w: World, w': World, t: int)
    requires Built(w, w', t) && OthersSame(w, w', t) && w'.spaces == w.spaces + {t}
    ensures Kernel(w') == Kernel(w)
  {
    hide SpaceBlocks, Space;
    forall x | x in Kernel(w') ensures x in Kernel(w) {
      forall a | a in w.spaces ensures x !in SpaceBlocks(w.st.words, a) { assert a in w'.spaces; }
    }
    forall x | x in Kernel(w) ensures x in Kernel(w') {
      forall a | a in w'.spaces ensures x !in SpaceBlocks(w'.st.words, a) {}
    }
  }

  lemma FreeConserves(w: World, w': World, t: int)
    requires Good(w) && t in w.spaces && w'.st.live == w.st.live - SpaceBlocks(w.st.words, t) && OthersSame(w, w', t) && w'.spaces == w.spaces - {t}
    ensures Kernel(w') == Kernel(w)
  {
    hide SpaceBlocks, Space, Inv;
    forall x | x in Kernel(w') ensures x in Kernel(w) {
      forall a | a in w.spaces ensures x !in SpaceBlocks(w.st.words, a) {
        if a != t { assert a in w'.spaces; }
      }
    }
  }

  /** Fork, mapping and teardown move blocks between the allocator and the spaces only: the live
      blocks that belong to no space are the same before and after. */
  lemma StepConserves(w: World, op: Op, w': World)
    requires Good(w) && Step(w, op, w') && !op.OtherOp?
    ensures Kernel(w') == Kernel(w)
  {
    StepSets(w, op, w');
    hide Good, Step, SpaceBlocks, Built, OthersSame, Kernel;
    match op
    case ForkOp(l1, n1) => ForkBuilds(w, l1, n1, w'); OthersStay(w, op, w', n1); BuiltConserves(w, w', n1);
    case MapOp(l1, lo, hi, rows) => MapBuilds(w, l1, lo, hi, rows, w'); OthersStay(w, op, w', l1); BuiltConserves(w, w', l1);
    case FreeOp(l1) => FreeGone(w, l1, w'); OthersStay(w, op, w', l1); FreeConserves(w, w', l1);
  }

  lemma StepSets(w: World, op: Op, w': World)
    requires Step(w, op, w')
    ensures op.ForkOp? ==> w'.spaces == w.spaces + {op.n1}
    ensures op.MapOp? ==> w'.spaces == w.spaces + {op.l1}
    ensures op.FreeOp? ==> op.l1 in w.spaces && w'.spaces == w.spaces - {op.l1}
  {
    hide TableForked, Mapped, Released, Spares, SpaceBlocks, NoDeviceTables;
  }

  // ----- runs -----

  ghost predicate IsRun(trace: seq<World>, ops: seq<Op>) {
    |trace| == |ops| + 1 && forall i :: 0 <= i < |ops| ==> Step(trace[i], ops[i], trace[i + 1])
  }

  /** Fork, mapping and teardown write no memory outside the arenas and the allocator's table. */
  lemma StepMemory(w: World, op: Op, w': World)
    requires Step(w, op, w') && !op.OtherOp?
    ensures MemoryKept(w.st, w'.st)
  {
    hide SparesBlocks, MemoryKept, Inv, Grown, ViewsMapped, RowsAdded, Frugal, RootKept, NoDeviceTables, SpaceBlocks, Owned, CopiedRow;
  }

  lemma RunStep(trace: seq<World>, ops: seq<Op>, i: nat, j: nat)
    requires IsRun(trace, ops) && j == i + 1 && j <= |ops|
    ensures |trace| == |ops| + 1 && Step(trace[i], ops[i], trace[j])
  {
    hide Step;
  }

  lemma RunLength(trace: seq<World>, ops: seq<Op>)
    requires IsRun(trace, ops)
    ensures |trace| == |ops| + 1
  {
    hide Step;
  }

  /** In every reachable state the live address spaces are in order and pairwise disjoint. */
  lemma {:induction false} RunGood(trace: seq<World>, ops: seq<Op>, i: nat)
    requires IsRun(trace, ops) && i <= |ops| && Good(trace[0])
    ensures Good(trace[i])
  {
    hide *;
    RunLength(trace, ops);
    if i > 0 {
      RunGood(trace, ops, i - 1);
      RunStep(trace, ops, i - 1, i);
      StepGood(trace[i - 1], ops[i - 1], trace[i]);
    }
  }

  ghost predicate OnlySpaces(ops: seq<Op>, i: nat) {
    forall k :: 0 <= k < i && k < |ops| ==> !ops[k].OtherOp?
  }

  /** No run of forks, mappings and teardowns leaks or loses a block of anyone else's. */
  lemma {:induction false} RunConserves(trace: seq<World>, ops: seq<Op>, i: nat)
    requires IsRun(trace, ops) && i <= |ops| && Good(trace[0]) && OnlySpaces(ops, i)
    ensures Kernel(trace[i]) == Kernel(trace[0])
  {
    hide IsRun, Good, Kernel, Step;
    RunLength(trace, ops);
    if i > 0 {
      RunConserves(trace, ops, i - 1);
      RunGood(trace, ops, i - 1);
      RunStep(trace, ops, i - 1, i);
      StepConserves(trace[i - 1], ops[i - 1], trace[i]);
    }
  }

  /** When the last address space is gone, the live blocks are exactly those of before the first. */
  lemma AllGivenBack(trace: seq<World>, ops: seq<Op>, i: nat)
    requires IsRun(trace, ops) && i <= |ops| && Good(trace[0]) && OnlySpaces(ops, i)
    requires trace[0].spaces == trace[i].spaces == {}
    ensures trace[i].st.live == trace[0].st.live
  {
    RunConserves(trace, ops, i);
    RunLength(trace, ops);
    hide IsRun, Good, OnlySpaces;
    assert Kernel(trace[i]) == trace[i].st.live && Kernel(trace[0]) == trace[0].st.live;
  }

  ghost predicate Spared(ops: seq<Op>, i: nat, a: int) {
    forall k :: 0 <= k < i && k < |ops| ==> !(ops[k].FreeOp? || ops[k].MapOp?) || ops[k].l1 != a
  }

  /** A space that is neither mapped into nor freed keeps every block and every word of them,
      whatever happens to the others. */
  lemma {:induction false} RunIsolated(trace: seq<World>, ops: seq<Op>, i: nat, a: int)
    requires IsRun(trace, ops) && i <= |ops| && Good(trace[0]) && a in trace[0].spaces && Spared(ops, i, a)
    ensures a in trace[i].spaces && Untouched(trace[0].st, trace[i].st, a)
  {
    hide IsRun, Good, Untouched, Step;
    RunLength(trace, ops);
    if i > 0 {
      RunIsolated(trace, ops, i - 1, a);
      RunGood(trace, ops, i - 1);
      RunStep(trace, ops, i - 1, i);
      Bystander(trace[i - 1], ops[i - 1], trace[i], a);
      UntouchedTrans(trace[0].st, trace[i - 1].st, trace[i].st, a);
    } else {
      UntouchedSelf(trace[0], a);
    }
  }

  lemma UntouchedSelf(w: World, a: int)
    requires Good(w) && a in w.spaces
    ensures Untouched(w.st, w.st, a)
  {
    hide Inv, Owned, SpaceBlocks, Space, BlockSize;
  }

  lemma UntouchedTrans(x: State, y: State, z: State, a: int)
    requires Untouched(x, y, a) && Untouched(y, z, a)
    ensures Untouched(x, z, a)
  {
    hide Owned, SpaceBlocks, Space, BlockSize;
  }

  /** Over every run of these operations memory outside the allocator's keeping is never written. */
  lemma {:induction false} RunKeepsMemory(trace: seq<World>, ops: seq<Op>, i: nat, a: int)
    requires IsRun(trace, ops) && i <= |ops| && OnlySpaces(ops, i)
    requires !(trace[0].st.table <= a < trace[0].st.table + 24 * 21) && !(0xC101_0000 <= a < 0xCCBD_0000)
    ensures trace[i].st.table == trace[0].st.table && Rd(trace[i].st.words, a) == Rd(trace[0].st.words, a)
  {
    hide *;
    RunLength(trace, ops);
    if i > 0 {
      SpacesPrefix(ops, i);
      RunKeepsMemory(trace, ops, i - 1, a);
      RunStep(trace, ops, i - 1, i);
      StepMemory(trace[i - 1], ops[i - 1], trace[i]);
      KeptWord(trace[i - 1].st, trace[i].st, a);
    }
  }

  lemma SpacesPrefix(ops: seq<Op>, i: nat)
    requires OnlySpaces(ops, i) && 0 < i <= |ops|
    ensures OnlySpaces(ops, i - 1) && !ops[i - 1].OtherOp?
  {
  }

  lemma KeptWord(st: State, st': State, a: int)
    requires MemoryKept(st, st') && !(st.table <= a < st.table + 24 * 21) && !(0xC101_0000 <= a < 0xCCBD_0000)
    ensures st'.table == st.table && Rd(st'.words, a) == Rd(st.words, a)
  {
  }
}
