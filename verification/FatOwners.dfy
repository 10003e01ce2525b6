// Which directory slot owns which chain: over runs on a whole tree of directories every slot of a
// file keeps a chain of its own, and a file nobody writes or unlinks keeps its slot and its bytes.
module FatOwners {
  import opened Bytes
  import opened FatVolume
  import opened FatChains
  import opened FatFamily
  import opened FatContent
  import opened FatDir
  import opened FatDirLaws
  import opened FatCreate
  import opened FatRoundTrip
  import opened FatRuns
  import opened FatSearch
  import FatUnlink

  predicate IsDirectory(e: Slot) { Attr(e) / 16 % 2 == 1 }

  /** A slot that names a file with clusters: in use, no long-name part, no directory. */
  predicate Owner(e: Slot) {
    e[0] != 0 && e[0] != FREE && Attr(e) != ATTR_LFN && !IsDirectory(e) && StartCluster(e) != 0
  }

  /** Slot `p` of the directory holds `e`. */
  ghost predicate At(v: Volume, dch: seq<nat>, p: Place, e: Slot) {
    p.Place? && p.cluster in dch && p.cluster < |v.data| && 32 * p.slot + 32 <= |v.data[p.cluster]| && EntryAt(v, p) == e
  }

  /** Slot `p` of one of the directories holds `e`. */
  ghost predicate InTree(v: Volume, tree: set<seq<nat>>, p: Place, e: Slot) {
    exists dch :: dch in tree && At(v, dch, p, e)
  }

  /** `s` starts a chain that is no directory's. */
  ghost predicate Heads(fam: set<seq<nat>>, tree: set<seq<nat>>, s: nat) {
    exists ch :: ch in fam && ch !in tree && ch != [] && ch[0] == s
  }

  /** Every owning slot starts a chain of the family, and no two slots the same one. */
  ghost predicate Owned(v: Volume, fam: set<seq<nat>>, tree: set<seq<nat>>) {
    && (forall p, e :: InTree(v, tree, p, e) && Owner(e) ==> Heads(fam, tree, StartCluster(e)))
    && (forall p, e, q, f :: InTree(v, tree, p, e) && Owner(e) && InTree(v, tree, q, f) && Owner(f) && StartCluster(e) == StartCluster(f) ==> p == q)
  }

  /** Nothing in use behind a never-used slot, in a cluster or in a later one. */
  ghost predicate Neat(v: Volume, dch: seq<nat>) {
    TidyDir(v, dch) && Dense(v, dch)
  }

  /** Directories nothing is wrong with; their own chains may be linked to as the tree likes. */
  ghost predicate GoodTree(st: State, tree: set<seq<nat>>) {
    tree <= st.fam && (forall dch :: dch in tree ==> Neat(st.vol, dch)) && Owned(st.vol, st.fam, tree)
  }

  // ----- changing one slot -----

  /** From `v` to `w` slot `q` becomes `x`; what the directory gains besides is never-used slots. */
  ghost predicate OneSlot(v: Volume, w: Volume, dch: seq<nat>, dir: seq<nat>, q: Place, x: Slot) {
    && At(w, dir, q, x)
    && (forall p, e :: At(w, dir, p, e) && p != q ==> At(v, dch, p, e) || e[0] == 0)
    && (forall p, e :: At(v, dch, p, e) && p != q ==> At(w, dir, p, e))
  }

  lemma SpliceSlot(bytes: seq<byte>, i: nat, x: Slot, j: nat)
    requires 32 * i + 32 <= |bytes| && 32 * j + 32 <= |bytes|
    ensures SlotAt(Splice(bytes, 32 * i, x), j) == if j == i then x else SlotAt(bytes, j)
  {
  }

  lemma PutSlot(v: Volume, dch: seq<nat>, q: Place, was: Slot, x: Slot)
    requires At(v, dch, q, was)
    ensures OneSlot(v, PutBytes(v, q.cluster, 32 * q.slot, x), dch, dch, q, x)
  {
    var w := PutBytes(v, q.cluster, 32 * q.slot, x);
    forall p: Place | p.Place? && p.cluster in dch && p.cluster < |v.data| && 32 * p.slot + 32 <= |v.data[p.cluster]|
      ensures EntryAt(w, p) == if p == q then x else EntryAt(v, p)
    {
      if p.cluster == q.cluster {
        SpliceSlot(v.data[q.cluster], q.slot, x, p.slot);
      }
    }
  }

  /** The same slots in both volumes. */
  ghost predicate SameDir(v: Volume, w: Volume, dch: seq<nat>) {
    |v.data| == |w.data| && forall c :: c in dch && c < |v.data| ==> v.data[c] == w.data[c]
  }

  lemma SameAt(v: Volume, w: Volume, dch: seq<nat>)
    requires SameDir(v, w, dch)
    ensures forall p, e :: At(v, dch, p, e) <==> At(w, dch, p, e)
  {
  }

  lemma AtBefore(v: Volume, dch: seq<nat>, c: nat, i: nat, j: nat, e: Slot)
    requires At(v, dch, Place(c, j), e) && i < j
    ensures c < |v.data| && 32 * i + 32 <= |v.data[c]| && At(v, dch, Place(c, i), EntryAt(v, Place(c, i)))
  {
  }

  /** In front of the changed slot its cluster has no never-used one. */
  ghost predicate Front(v: Volume, dch: seq<nat>, q: Place) {
    q.Place? && (q.slot > 0 ==> exists e :: At(v, dch, q, e)) && forall i: nat, e :: i < q.slot && At(v, dch, Place(q.cluster, i), e) ==> e[0] != 0
  }

  lemma FrontSlot(v: Volume, dch: seq<nat>, q: Place, i: nat)
    requires Front(v, dch, q) && i < q.slot
    ensures q.cluster < |v.data| && 32 * i + 32 <= |v.data[q.cluster]|
    ensures At(v, dch, Place(q.cluster, i), EntryAt(v, Place(q.cluster, i))) && EntryAt(v, Place(q.cluster, i))[0] != 0
  {
    var e :| At(v, dch, q, e);
    AtBefore(v, dch, q.cluster, i, q.slot, e);
  }

  lemma TidyPut(v: Volume, w: Volume, dch: seq<nat>, dir: seq<nat>, q: Place, x: Slot)
    requires OneSlot(v, w, dch, dir, q, x) && Front(v, dch, q) && x[0] != 0
    requires TidyDir(v, dch) && FatContent.Fits(w, dir)
    ensures TidyDir(w, dir)
  {
    forall k | 0 <= k < |dir| ensures Tidy(w.data[dir[k]]) {
      var c := dir[k];
      forall i: nat, j: nat | i < j && 32 * j + 32 <= |w.data[c]| && NeverUsed(w.data[c], i) ensures NeverUsed(w.data[c], j) {
        var ei, ej := EntryAt(w, Place(c, i)), EntryAt(w, Place(c, j));
        assert At(w, dir, Place(c, i), ei) && At(w, dir, Place(c, j), ej) && ei[0] == 0;
        assert Place(c, i) != q;
        BehindFront(v, w, dch, dir, q, x, c, i, j);
      }
    }
  }

  lemma BehindFront(v: Volume, w: Volume, dch: seq<nat>, dir: seq<nat>, q: Place, x: Slot, c: nat, i: nat, j: nat)
    requires OneSlot(v, w, dch, dir, q, x) && Front(v, dch, q) && TidyDir(v, dch)
    requires i < j && c < |w.data| && 32 * j + 32 <= |w.data[c]| && At(w, dir, Place(c, i), EntryAt(w, Place(c, i)))
    requires At(w, dir, Place(c, j), EntryAt(w, Place(c, j)))
    requires EntryAt(w, Place(c, i))[0] == 0 && Place(c, i) != q && x[0] != 0
    ensures EntryAt(w, Place(c, j))[0] == 0
  {
    var ei, ej := EntryAt(w, Place(c, i)), EntryAt(w, Place(c, j));
    if Place(c, j) == q {
      FrontSlot(v, dch, q, i);
      assert false;
    } else if At(v, dch, Place(c, j), ej) {
      AtBefore(v, dch, c, i, j, ej);
      assert EntryAt(v, Place(c, i)) == ei;
      var k :| 0 <= k < |dch| && dch[k] == c;
      assert NeverUsed(v.data[dch[k]], i);
      assert NeverUsed(v.data[c], j);
    }
  }

  /** The directory keeps its clusters' sizes, and grows at its end only when no slot was never used. */
  ghost predicate Grown(v: Volume, w: Volume, dch: seq<nat>, dir: seq<nat>) {
    && |v.data| == |w.data| && (forall c :: c in dch && c < |v.data| ==> |w.data[c]| == |v.data[c]|)
    && (dir == dch || (|dir| == |dch| + 1 && dir[..|dch|] == dch && forall c :: c in dch && c < |v.data| ==> AllUsed(v.data[c])))
  }

  lemma DensePut(v: Volume, w: Volume, dch: seq<nat>, dir: seq<nat>, q: Place, x: Slot)
    requires OneSlot(v, w, dch, dir, q, x) && Grown(v, w, dch, dir) && Dense(v, dch) && FatContent.Fits(w, dir) && x[0] != 0
    ensures Dense(w, dir)
  {
    forall i | 0 <= i < |dir| - 1 ensures AllUsed(w.data[dir[i]]) {
      assert i < |dch| && dir[i] == dch[i];
      UsedPut(v, w, dch, dir, q, x, dch[i]);
    }
  }

  lemma UsedPut(v: Volume, w: Volume, dch: seq<nat>, dir: seq<nat>, q: Place, x: Slot, c: nat)
    requires OneSlot(v, w, dch, dir, q, x) && Grown(v, w, dch, dir) && c in dch && c in dir && c < |v.data| && AllUsed(v.data[c]) && x[0] != 0
    ensures AllUsed(w.data[c])
  {
    forall j: nat | 32 * j + 32 <= |w.data[c]| ensures !NeverUsed(w.data[c], j) {
      var p := Place(c, j);
      assert At(w, dir, p, EntryAt(w, p));
      assert At(v, dch, p, EntryAt(v, p));
      assert !NeverUsed(v.data[c], j);
      if p != q { assert At(w, dir, p, EntryAt(v, p)); }
    }
  }

  lemma DenseSame(v: Volume, w: Volume, dch: seq<nat>)
    requires Dense(v, dch) && SameDir(v, w, dch)
    ensures Dense(w, dch)
  {
    forall i | 0 <= i < |dch| - 1 ensures AllUsed(w.data[dch[i]]) { assert dch[i] in dch; }
  }

  lemma NoVacantUsed(v: Volume, cb: nat, c: nat)
    requires c < |v.data| && |v.data[c]| == cb && !HasVacant(v, cb, c)
    ensures AllUsed(v.data[c])
  {
    forall j: nat | 32 * j + 32 <= cb ensures !NeverUsed(v.data[c], j) {
      assert j < VacantFrom(v.data[c], 0);
      assert !Vacant(v.data[c], j);
    }
  }

  // ----- inserting -----

  /** Slot `q` is new or holds no file. */
  ghost predicate Spare(v: Volume, dch: seq<nat>, q: Place) {
    forall e :: At(v, dch, q, e) ==> e[0] == 0 || e[0] == FREE
  }

  /** What an insertion does to the directory as a set of slots. */
  ghost predicate Filling(v: Volume, w: Volume, dch: seq<nat>, dir: seq<nat>, q: Place, x: Slot) {
    OneSlot(v, w, dch, dir, q, x) && Front(v, dch, q) && Spare(v, dch, q) && Grown(v, w, dch, dir)
  }

  lemma FillHere(v: Volume, dch: seq<nat>, p: nat, x: Slot)
    requires dch != [] && dch[0] < |v.data| && p == VacantFrom(v.data[dch[0]], 0) && 32 * p + 32 <= |v.data[dch[0]]|
    ensures Filling(v, PutBytes(v, dch[0], 32 * p, x), dch, dch, Place(dch[0], p), x)
  {
    var q := Place(dch[0], p);
    assert At(v, dch, q, EntryAt(v, q));
    PutSlot(v, dch, q, EntryAt(v, q), x);
    forall i: nat, e | i < p && At(v, dch, Place(dch[0], i), e) ensures e[0] != 0 {
      assert !Vacant(v.data[dch[0]], i);
    }
    assert Vacant(v.data[dch[0]], p);
  }

  lemma FillLater(v: Volume, w: Volume, c: nat, rest: seq<nat>, dir: seq<nat>, q: Place, x: Slot)
    requires Filling(v, w, rest, dir, q, x) && c !in dir && c < |v.data| == |w.data| && w.data[c] == v.data[c] && AllUsed(v.data[c])
    ensures Filling(v, w, [c] + rest, [c] + dir, q, x)
  {
    forall p, e | At(w, [c] + dir, p, e) && p != q ensures At(v, [c] + rest, p, e) || e[0] == 0 {
      if p.cluster != c { assert At(w, dir, p, e); }
    }
    forall p, e | At(v, [c] + rest, p, e) && p != q ensures At(w, [c] + dir, p, e) {
      if p.cluster != c { assert At(v, rest, p, e); }
    }
    assert At(w, dir, q, x);
    assert dir != rest ==> ([c] + dir)[..|rest| + 1] == [c] + dir[..|rest|];
    forall i: nat, e | At(v, [c] + rest, Place(q.cluster, i), e) ensures At(v, rest, Place(q.cluster, i), e) {}
    if q.slot > 0 {
      var e :| At(v, rest, q, e);
      assert At(v, [c] + rest, q, e);
    }
  }

  lemma FillNew(v: Volume, w: Volume, d: nat, f: nat, cb: nat, x: Slot)
    requires d != f && d < |v.data| == |w.data| && f < |v.data| && cb >= 32
    requires w.data[d] == v.data[d] && w.data[f] == x + Zeros(cb - 32) && AllUsed(v.data[d])
    ensures Filling(v, w, [d], [d] + [f], Place(f, 0), x)
  {
    assert SlotAt(x + Zeros(cb - 32), 0) == x;
    forall p, e | At(w, [d] + [f], p, e) && p != Place(f, 0) ensures At(v, [d], p, e) || e[0] == 0 {
    }
  }

  lemma HeadSize(v: Volume, cb: nat, dch: seq<nat>)
    requires VolumeShape(v, cb) && IsChain(v.fat, dch)
    ensures dch != [] && dch[0] < |v.data| && |v.data[dch[0]]| == cb
    ensures HasVacant(v, cb, dch[0]) ==> 32 * VacantFrom(v.data[dch[0]], 0) + 32 <= cb
  {
  }

  lemma {:induction false} InsertSlot(v: Volume, cb: nat, dch: seq<nat>, e: Slot) returns (q: Place)
    requires VolumeShape(v, cb) && IsChain(v.fat, dch) && DirInsert(v, cb, dch, e).code == 0
    ensures Filling(v, DirInsert(v, cb, dch, e).vol, dch, InsertedChain(v, cb, dch), q, e)
    decreases |dch|
  {
    hide DirInsert, InsertedChain, VacantFrom, Filling, IsChain, Splice, HasVacant, AllUsed;
    HeadCluster(v, cb, dch);
    HeadSize(v, cb, dch);
    if !HasVacant(v, cb, dch[0]) { NoVacantUsed(v, cb, dch[0]); }
    if HasVacant(v, cb, dch[0]) {
      InsertHere(v, cb, dch, e);
      FillHere(v, dch, VacantFrom(v.data[dch[0]], 0), e);
      q := Place(dch[0], VacantFrom(v.data[dch[0]], 0));
    } else if |dch| > 1 {
      InsertLater(v, cb, dch, e);
      q := InsertSlot(v, cb, dch[1..], e);
      InsertKeeps(v, cb, dch[1..], e);
      FillLater(v, DirInsert(v, cb, dch, e).vol, dch[0], dch[1..], InsertedChain(v, cb, dch[1..]), q, e);
    } else if FreeList(v.fat) != [] {
      InsertNew(v, cb, dch, e);
      q := Place(FreeList(v.fat)[0], 0);
      FillNew(v, DirInsert(v, cb, dch, e).vol, dch[0], FreeList(v.fat)[0], cb, e);
    } else {
      InsertNone(v, cb, dch, e);
      assert false;
    }
  }

  // ----- owners after a change -----

  /** From `v` to `w` slot `q` of the tree becomes `x`, the others stay. */
  ghost predicate OneChange(v: Volume, w: Volume, tree: set<seq<nat>>, tree': set<seq<nat>>, q: Place, x: Slot) {
    && InTree(w, tree', q, x)
    && (forall p, e :: InTree(w, tree', p, e) && p != q ==> InTree(v, tree, p, e) || e[0] == 0)
  }

  /** The other directories of the tree are untouched. */
  ghost predicate OthersSame(v: Volume, w: Volume, tree: set<seq<nat>>, dch: seq<nat>) {
    forall d :: d in tree && d != dch ==> SameDir(v, w, d)
  }

  lemma LiftChange(v: Volume, w: Volume, tree: set<seq<nat>>, dch: seq<nat>, dir: seq<nat>, q: Place, x: Slot)
    requires dch in tree && OneSlot(v, w, dch, dir, q, x) && OthersSame(v, w, tree, dch)
    ensures OneChange(v, w, tree, tree - {dch} + {dir}, q, x)
  {
    hide At, SameDir;
    var tree' := tree - {dch} + {dir};
    assert dir in tree';
    forall p, e | InTree(w, tree', p, e) && p != q ensures InTree(v, tree, p, e) || e[0] == 0 {
      var d :| d in tree' && At(w, d, p, e);
      if d in tree && d != dch { SameAt(v, w, d); }
    }
  }

  lemma OneEntry(v: Volume, tree: set<seq<nat>>, p: Place, e: Slot, f: Slot)
    requires InTree(v, tree, p, e) && InTree(v, tree, p, f)
    ensures e == f
  {
  }

  lemma OwnedPut(v: Volume, fam: set<seq<nat>>, tree: set<seq<nat>>, w: Volume, fam': set<seq<nat>>, tree': set<seq<nat>>, q: Place, x: Slot)
    requires Owned(v, fam, tree) && OneChange(v, w, tree, tree', q, x)
    requires forall p, e :: InTree(v, tree, p, e) && p != q && Owner(e) ==> Heads(fam', tree', StartCluster(e))
    requires Owner(x) ==> Heads(fam', tree', StartCluster(x))
    requires Owner(x) ==> forall p, e :: InTree(v, tree, p, e) && p != q && Owner(e) ==> StartCluster(e) != StartCluster(x)
    ensures Owned(w, fam', tree')
  {
    hide InTree, Heads, StartCluster, IsDirectory;
    forall p, e | InTree(w, tree', p, e) && Owner(e) ensures Heads(fam', tree', StartCluster(e)) {
      if p == q { OneEntry(w, tree', q, e, x); }
    }
    forall p, e, r, f | InTree(w, tree', p, e) && Owner(e) && InTree(w, tree', r, f) && Owner(f) && StartCluster(e) == StartCluster(f) ensures p == r {
      if p == q { OneEntry(w, tree', q, e, x); }
      if r == q { OneEntry(w, tree', q, f, x); }
      assert p != q ==> InTree(v, tree, p, e);
      assert r != q ==> InTree(v, tree, r, f);
    }
  }

  lemma NeatSame(v: Volume, w: Volume, dch: seq<nat>)
    requires Neat(v, dch) && SameDir(v, w, dch)
    ensures Neat(w, dch)
  {
    DenseSame(v, w, dch);
    forall i | 0 <= i < |dch| ensures Tidy(w.data[dch[i]]) {
      assert dch[i] in dch;
    }
  }

  /** Untouched slots keep their owners when no file's head goes away. */
  lemma GoodSame(st: State, st': State, tree: set<seq<nat>>)
    requires GoodTree(st, tree) && tree <= st'.fam && forall d :: d in tree ==> SameDir(st.vol, st'.vol, d)
    requires forall s :: Heads(st.fam, tree, s) ==> Heads(st'.fam, tree, s)
    ensures GoodTree(st', tree)
  {
    hide At, Heads, Neat, SameDir, Owner;
    forall d | d in tree ensures Neat(st'.vol, d) { NeatSame(st.vol, st'.vol, d); }
    forall p, e | InTree(st'.vol, tree, p, e) ensures InTree(st.vol, tree, p, e) {
      var d :| d in tree && At(st'.vol, d, p, e);
      SameAt(st.vol, st'.vol, d);
    }
  }

  lemma NeatPut(v: Volume, w: Volume, dch: seq<nat>, dir: seq<nat>, q: Place, x: Slot)
    requires OneSlot(v, w, dch, dir, q, x) && Front(v, dch, q) && Grown(v, w, dch, dir) && x[0] != 0
    requires Neat(v, dch) && FatContent.Fits(w, dir)
    ensures Neat(w, dir)
  {
    hide OneSlot, Front, Grown, TidyDir, Dense, FatContent.Fits;
    TidyPut(v, w, dch, dir, q, x);
    DensePut(v, w, dch, dir, q, x);
  }

  /** One slot written in directory `dch`, which may have grown into `dir`. */
  lemma GoodPut(st: State, st': State, tree: set<seq<nat>>, dch: seq<nat>, dir: seq<nat>, q: Place, x: Slot)
    requires GoodTree(st, tree) && dch in tree && tree - {dch} + {dir} <= st'.fam && FatContent.Fits(st'.vol, dir)
    requires OneSlot(st.vol, st'.vol, dch, dir, q, x) && Front(st.vol, dch, q) && Grown(st.vol, st'.vol, dch, dir) && x[0] != 0 && OthersSame(st.vol, st'.vol, tree, dch)
    requires forall p, e :: InTree(st.vol, tree, p, e) && p != q && Owner(e) ==> Heads(st'.fam, tree - {dch} + {dir}, StartCluster(e))
    requires Owner(x) ==> Heads(st'.fam, tree - {dch} + {dir}, StartCluster(x))
    requires Owner(x) ==> forall p, e :: InTree(st.vol, tree, p, e) && p != q && Owner(e) ==> StartCluster(e) != StartCluster(x)
    ensures GoodTree(st', tree - {dch} + {dir})
  {
    hide OneSlot, Front, InTree, Heads, Owner, StartCluster, Neat, SameDir, Owned, FatContent.Fits;
    LiftChange(st.vol, st'.vol, tree, dch, dir, q, x);
    OwnedPut(st.vol, st.fam, tree, st'.vol, st'.fam, tree - {dch} + {dir}, q, x);
    NeatPut(st.vol, st'.vol, dch, dir, q, x);
    forall d | d in tree - {dch} + {dir} ensures Neat(st'.vol, d) {
      if d != dir { NeatSame(st.vol, st'.vol, d); }
    }
  }

  // ----- the operations -----

  ghost predicate AllFit(v: Volume, tree: set<seq<nat>>) {
    forall dch :: dch in tree ==> FatContent.Fits(v, dch)
  }

  /** The entry of a regular file. */
  predicate RegularEntry(e: Slot) { Attr(e) != ATTR_LFN && !IsDirectory(e) }

  /** Operations in the directories of the tree, on files, and writes to chains that are no
      directory's, with arguments the callers can check; nothing is asked about who owns what. */
  ghost predicate Polite(st: State, cb: nat, tree: set<seq<nat>>, op: Op)
    requires AllFit(st.vol, tree)
  {
    match op
    case CreateOp(d, data, name) => d in tree && |data| < TWO32 && |name| >= 11 && name[0] != 0
    case WriteOp(ch, input, offset) => ch in st.fam && ch !in tree && offset < |ch| * cb
    case UnlinkOp(d, name) => d in tree && (DirHas(st.vol, d, name) ==> RegularEntry(Found(st, d, name)))
    case UpdateOp(d, name, e) =>
      && d in tree && e[0] != 0
      && (DirHas(st.vol, d, name) ==> RegularEntry(Found(st, d, name)) && StartCluster(e) == StartCluster(Found(st, d, name)))
  }

  function Found(st: State, dch: seq<nat>, name: seq<byte>): Slot
    requires FatContent.Fits(st.vol, dch) && DirFind(st.vol, dch, name).Place?
  {
    EntryAt(st.vol, DirFind(st.vol, dch, name))
  }

  lemma {:induction false} FindHits(v: Volume, dch: seq<nat>, name: seq<byte>)
    requires FatContent.Fits(v, dch) && DirFind(v, dch, name).Place?
    ensures FindFrom(v.data[DirFind(v, dch, name).cluster], 0, name) == Hit.Found(DirFind(v, dch, name).slot)
  {
    if !FindFrom(v.data[dch[0]], 0, name).Found? {
      FindHits(v, dch[1..], name);
    }
  }

  /** The slot a search ends at is in use, and no never-used slot lies before it. */
  lemma FoundSlot(v: Volume, dch: seq<nat>, name: seq<byte>)
    requires FatContent.Fits(v, dch) && DirFind(v, dch, name).Place?
    ensures var q := DirFind(v, dch, name); At(v, dch, q, EntryAt(v, q)) && Front(v, dch, q)
    ensures EntryAt(v, DirFind(v, dch, name))[0] != 0 && EntryAt(v, DirFind(v, dch, name))[0] != FREE
  {
    var q := DirFind(v, dch, name);
    FindHits(v, dch, name);
    FatUnlink.FoundNoStop(v.data[q.cluster], 0, name, q.slot);
    assert At(v, dch, q, EntryAt(v, q));
    forall i: nat, e | i < q.slot && At(v, dch, Place(q.cluster, i), e) ensures e[0] != 0 {
      assert v.data[q.cluster][32 * i] != 0;
    }
  }

  lemma DirInTree(v: Volume, tree: set<seq<nat>>, dch: seq<nat>, p: Place, e: Slot)
    requires dch in tree && At(v, dch, p, e)
    ensures InTree(v, tree, p, e)
  {
  }

  /** A file found by name that has clusters owns them. */
  lemma FoundOwner(st: State, tree: set<seq<nat>>, dch: seq<nat>, name: seq<byte>)
    requires GoodTree(st, tree) && dch in tree && FatContent.Fits(st.vol, dch) && DirHas(st.vol, dch, name) && RegularEntry(Found(st, dch, name))
    ensures InTree(st.vol, tree, DirFind(st.vol, dch, name), Found(st, dch, name))
    ensures StartCluster(Found(st, dch, name)) != 0 ==> Owner(Found(st, dch, name)) && Heads(st.fam, tree, StartCluster(Found(st, dch, name)))
  {
    FoundSlot(st.vol, dch, name);
    DirInTree(st.vol, tree, dch, DirFind(st.vol, dch, name), Found(st, dch, name));
    hide InTree, At, Heads, Front;
  }

  /** Being owned is what makes an unlink legal. */
  lemma PoliteIsLegal(st: State, cb: nat, tree: set<seq<nat>>, op: Op)
    requires Ok(st, cb) && GoodTree(st, tree) && AllFit(st.vol, tree) && Polite(st, cb, tree, op)
    ensures Legal(st, cb, op)
  {
    if op.UnlinkOp? && DirHas(st.vol, op.dch, op.name) {
      FoundOwner(st, tree, op.dch, op.name);
      hide Owned, Ok, InTree, Neat;
      if StartCluster(Found(st, op.dch, op.name)) != 0 {
        var ch :| ch in st.fam && ch !in tree && ch != [] && ch[0] == StartCluster(Found(st, op.dch, op.name));
      }
    }
  }

  /** The directories' chains after the operation. */
  ghost function TreeAfter(st: State, cb: nat, tree: set<seq<nat>>, op: Op): set<seq<nat>>
    requires Ok(st, cb) && Legal(st, cb, op)
  {
    if op.CreateOp? && |FreeList(st.vol.fat)| >= ClustersFor(|op.data|, cb) && Create(st.vol, cb, op.dch, op.data, op.name).code == 0
    then tree - {op.dch} + {NewDir(st.vol, cb, op.dch, op.data)} else tree
  }

  /** The chain whose bytes an operation may change. */
  function Worked(op: Op): seq<nat> {
    match op
    case CreateOp(dch, _, _) => dch
    case WriteOp(ch, _, _) => ch
    case UnlinkOp(dch, _) => dch
    case UpdateOp(dch, _, _) => dch
  }

  /** Every other chain's clusters keep their bytes. */
  lemma StepSame(st: State, cb: nat, op: Op, st': State, a: seq<nat>)
    requires Step(st, cb, op, st') && a in st.fam && a != Worked(op)
    ensures SameDir(st.vol, st'.vol, a)
  {
    match op
    case CreateOp(_, _, _) => CreateSame(st, cb, op, st', a);
    case WriteOp(_, _, _) => WriteOpSame(st, cb, op, st', a);
    case UnlinkOp(_, _) => UnlinkSame(st, cb, op, st', a);
    case UpdateOp(_, _, _) => UpdateSame(st, cb, op, st', a);
  }

  lemma CreateSame(st: State, cb: nat, op: Op, st': State, a: seq<nat>)
    requires Step(st, cb, op, st') && op.CreateOp? && a in st.fam && a != op.dch
    ensures SameDir(st.vol, st'.vol, a)
  {
    hide *;
    StepParts(st, cb, op, st');
    if |FreeList(st.vol.fat)| < ClustersFor(|op.data|, cb) {
      CreateRefused(st.vol, cb, op.dch, op.data, op.name);
      SelfSame(st.vol, a);
    } else {
      var used := CreateUses(st.vol, cb, op.dch, op.data, op.name);
      OtherChainApart(st, a, used, op.dch);
      KeptSame(st.vol, st'.vol, used, a);
    }
  }

  lemma SelfSame(v: Volume, a: seq<nat>)
    ensures SameDir(v, v, a)
  {
  }

  lemma KeptSame(v: Volume, w: Volume, used: seq<nat>, a: seq<nat>)
    requires Keeps(v, w, used) && forall c :: c in a ==> c < |v.fat| && c !in used
    ensures SameDir(v, w, a)
  {
  }

  lemma WriteOpSame(st: State, cb: nat, op: Op, st': State, a: seq<nat>)
    requires Step(st, cb, op, st') && op.WriteOp? && a in st.fam && a != op.ch
    ensures SameDir(st.vol, st'.vol, a)
  {
    var r := OffsetWrite(st.vol, cb, op.ch, op.input, op.offset);
    var ext :| WriteMeans(st.vol, cb, op.ch, op.input, op.offset, r.vol, r.count, ext) && st'.fam == st.fam - {op.ch} + {op.ch + ext};
    WriteSame(st, a, op.ch, ext, st');
  }

  lemma UnlinkSame(st: State, cb: nat, op: Op, st': State, a: seq<nat>)
    requires Step(st, cb, op, st') && op.UnlinkOp? && a in st.fam && a != op.dch
    ensures SameDir(st.vol, st'.vol, a)
  {
    UnlinkSound(st, cb, op);
    UnlinkShape(st.vol, cb, op.dch, op.name);
    OtherChainApart(st, a, op.dch, op.dch);
  }

  lemma UpdateSame(st: State, cb: nat, op: Op, st': State, a: seq<nat>)
    requires Step(st, cb, op, st') && op.UpdateOp? && a in st.fam && a != op.dch
    ensures SameDir(st.vol, st'.vol, a)
  {
    UpdateOk(st, cb, op, st');
    OtherChainApart(st, a, op.dch, op.dch);
  }

  lemma StepOthers(st: State, cb: nat, op: Op, st': State, tree: set<seq<nat>>)
    requires Step(st, cb, op, st') && tree <= st.fam
    ensures OthersSame(st.vol, st'.vol, tree, Worked(op))
  {
    hide Step, SameDir, Worked;
    forall d | d in tree && d != Worked(op) ensures SameDir(st.vol, st'.vol, d) { StepSame(st, cb, op, st', d); }
  }

  /** Chains of a family are told apart by their heads. */
  lemma SameHead(fat: Fat, fam: set<seq<nat>>, a: seq<nat>, b: seq<nat>)
    requires Family(fat, fam) && a in fam && b in fam
    ensures a != [] && b != [] && (a[0] == b[0] ==> a == b)
  {
    hide IsFree, Held;
    assert IsChain(fat, a) && IsChain(fat, b);
    if a != b { assert Apart(a, b) && a[0] in a && b[0] in b; }
  }

  // create

  lemma FailedVolume(v: Volume, cb: nat, dch: seq<nat>, data: seq<byte>, name: seq<byte>)
    requires VolumeShape(v, cb) && IsChain(v.fat, dch) && |data| < TWO32 && |name| >= 11
    requires |FreeList(v.fat)| >= ClustersFor(|data|, cb) && Create(v, cb, dch, data, name).code != 0
    ensures NewFile(v, cb, |data|) == FreeList(v.fat)[..|NewFile(v, cb, |data|)|]
    ensures Create(v, cb, dch, data, name).vol == Filled(v, cb, NewFile(v, cb, |data|), data)
  {
    var cl := NewFile(v, cb, |data|);
    FilledKeeps(v, cb, dch, cl, data);
    InsertCode(Filled(v, cb, cl, data), cb, dch, NewEntry(name, cl[0], |data|));
  }

  lemma FilledSame(v: Volume, cb: nat, dch: seq<nat>, size: u32, data: seq<byte>)
    requires VolumeShape(v, cb) && IsChain(v.fat, dch) && |data| == size
    requires |FreeList(v.fat)| >= ClustersFor(size, cb)
    ensures NewFile(v, cb, size) == FreeList(v.fat)[..|NewFile(v, cb, size)|]
    ensures SameDir(v, Filled(v, cb, NewFile(v, cb, size), data), dch)
  {
    FilledKeeps(v, cb, dch, NewFile(v, cb, size), data);
  }

  lemma HeadsMore(fam: set<seq<nat>>, fam': set<seq<nat>>, tree: set<seq<nat>>)
    requires fam <= fam'
    ensures forall s :: Heads(fam, tree, s) ==> Heads(fam', tree, s)
  {
    forall s | Heads(fam, tree, s) ensures Heads(fam', tree, s) {
      var ch :| ch in fam && ch !in tree && ch != [] && ch[0] == s;
      assert ch in fam';
    }
  }

  /** A refused or failed create. */
  lemma CreateFailGood(st: State, cb: nat, tree: set<seq<nat>>, op: Op, st': State)
    requires Step(st, cb, op, st') && op.CreateOp? && op.dch in tree && GoodTree(st, tree)
    requires |FreeList(st.vol.fat)| < ClustersFor(|op.data|, cb) || Create(st.vol, cb, op.dch, op.data, op.name).code != 0
    ensures GoodTree(st', tree)
  {
    CreateFailed(st, cb, op, st');
    hide *;
    StepOthersAll(st, cb, tree, op, st');
    HeadsMore(st.fam, st'.fam, tree);
    TreeStays(st, st', tree);
    GoodSame(st, st', tree);
  }

  lemma TreeStays(st: State, st': State, tree: set<seq<nat>>)
    requires GoodTree(st, tree) && st.fam <= st'.fam
    ensures tree <= st'.fam
  {
  }

  lemma CreateFailed(st: State, cb: nat, op: Op, st': State)
    requires Step(st, cb, op, st') && op.CreateOp?
    requires |FreeList(st.vol.fat)| < ClustersFor(|op.data|, cb) || Create(st.vol, cb, op.dch, op.data, op.name).code != 0
    ensures st.fam <= st'.fam && SameDir(st.vol, st'.vol, op.dch)
  {
    if |FreeList(st.vol.fat)| < ClustersFor(|op.data|, cb) {
      CreateRefused(st.vol, cb, op.dch, op.data, op.name);
    } else {
      FailedVolume(st.vol, cb, op.dch, op.data, op.name);
      FilledSame(st.vol, cb, op.dch, |op.data|, op.data);
    }
  }

  lemma StepOthersAll(st: State, cb: nat, tree: set<seq<nat>>, op: Op, st': State)
    requires Step(st, cb, op, st') && GoodTree(st, tree) && SameDir(st.vol, st'.vol, Worked(op))
    ensures forall d :: d in tree ==> SameDir(st.vol, st'.vol, d)
  {
    StepOthers(st, cb, op, st', tree);
    hide Step, SameDir;
  }

  lemma HeadsUsed(fat: Fat, fam: set<seq<nat>>, tree: set<seq<nat>>, s: nat)
    requires Family(fat, fam) && Heads(fam, tree, s)
    ensures 2 <= s < |fat| && !IsFree(fat, s)
  {
    var ch :| ch in fam && ch !in tree && ch != [] && ch[0] == s;
    ChainUsed(fat, ch, s);
  }

  /** Every file's head survives a swap of a directory's chain for one with the same head. */
  lemma HeadsSwap(fat: Fat, fam: set<seq<nat>>, tree: set<seq<nat>>, dch: seq<nat>, dir: seq<nat>, cl: seq<nat>, s: nat)
    requires Family(fat, fam) && dch in fam && dch in tree && dir != [] && dch != [] && dir[0] == dch[0] && Heads(fam, tree, s)
    ensures Heads(fam - {dch} + {dir} + {cl}, tree - {dch} + {dir}, s)
  {
    var ch :| ch in fam && ch !in tree && ch != [] && ch[0] == s;
    SameHead(fat, fam, ch, dch);
    assert ch in fam - {dch} + {dir} + {cl} && ch !in tree - {dch} + {dir};
  }

  /** The new chain is filled behind the directory's back, then one slot is written. */
  lemma CreateFills(v: Volume, cb: nat, dch: seq<nat>, data: seq<byte>, name: seq<byte>) returns (w: Volume, q: Place)
    requires CanCreate(v, cb, dch, data, name)
    ensures |FreeList(v.fat)| >= ClustersFor(|data|, cb) && SameDir(v, w, dch) && forall a :: IsChain(v.fat, a) ==> SameDir(v, w, a)
    ensures NewFile(v, cb, |data|) != [] && 2 <= NewFile(v, cb, |data|)[0] < |v.fat| <= EOC && IsFree(v.fat, NewFile(v, cb, |data|)[0])
    ensures Filling(w, Create(v, cb, dch, data, name).vol, dch, NewDir(v, cb, dch, data), q, NewEntry(name, NewFile(v, cb, |data|)[0], |data|))
    ensures dch != [] && NewDir(v, cb, dch, data) != [] && NewDir(v, cb, dch, data)[0] == dch[0]
  {
    CreateInserts(v, cb, dch, data, name);
    var cl := NewFile(v, cb, |data|);
    w := Filled(v, cb, cl, data);
    var e := NewEntry(name, cl[0], |data|);
    FilledSame(v, cb, dch, |data|, data);
    forall a | IsChain(v.fat, a) ensures SameDir(v, w, a) { FilledSame(v, cb, a, |data|, data); }
    NewDirIs(v, cb, dch, data);
    NewClusters(v.fat, cl);
    q := InsertSlot(w, cb, dch, e);
  }

  lemma NewEntryFirst(name: seq<byte>, start: u32, size: u32)
    requires |name| >= 11
    ensures NewEntry(name, start, size)[0] == name[0]
  {
    assert NewEntry(name, start, size)[..11][0] == name[..11][0];
  }

  lemma NewEntryRegular(name: seq<byte>, start: u32, size: u32)
    requires |name| >= 11
    ensures RegularEntry(NewEntry(name, start, size))
  {
  }

  lemma CreateGood(st: State, cb: nat, tree: set<seq<nat>>, op: Op, st': State)
    requires Step(st, cb, op, st') && op.CreateOp? && op.dch in tree && GoodTree(st, tree) && op.name[0] != 0
    requires |FreeList(st.vol.fat)| >= ClustersFor(|op.data|, cb) && Create(st.vol, cb, op.dch, op.data, op.name).code == 0
    ensures GoodTree(st', tree - {op.dch} + {NewDir(st.vol, cb, op.dch, op.data)})
  {
    hide *;
    CreateStepFam(st, cb, op, st');
    StepParts(st, cb, op, st');
    var v, dch, data, name := st.vol, op.dch, op.data, op.name;
    var w, q := CreateFills(v, cb, dch, data, name);
    var cl, dir := NewFile(v, cb, |data|), NewDir(v, cb, dch, data);
    NewFileApart(v, cb, dch, data, name);
    NewEntryFirst(name, cl[0], |data|);
    CreatedDir(v, cb, dch, data, name);
    FilledTree(st, w, tree);
    CreateOthers(st, cb, op, st', w, tree);
    CreateGoodParts(v.fat, State(w, st.fam), tree, dch, st', dir, cl, q, NewEntry(name, cl[0], |data|));
  }

  /** Filling the new chain disturbs no directory. */
  lemma FilledTree(st: State, w: Volume, tree: set<seq<nat>>)
    requires Family(st.vol.fat, st.fam) && GoodTree(st, tree) && forall a :: IsChain(st.vol.fat, a) ==> SameDir(st.vol, w, a)
    ensures GoodTree(State(w, st.fam), tree)
  {
    hide IsChain, SameDir, Owned, Neat, Heads;
    forall d | d in tree ensures SameDir(st.vol, w, d) { assert IsChain(st.vol.fat, d); }
    GoodSame(st, State(w, st.fam), tree);
  }

  lemma CreateOthers(st: State, cb: nat, op: Op, st': State, w: Volume, tree: set<seq<nat>>)
    requires Step(st, cb, op, st') && op.CreateOp? && GoodTree(st, tree)
    requires Family(st.vol.fat, st.fam) && forall a :: IsChain(st.vol.fat, a) ==> SameDir(st.vol, w, a)
    ensures OthersSame(w, st'.vol, tree, op.dch)
  {
    StepOthers(st, cb, op, st', tree);
    hide Step, IsChain, Owned, Neat, IsFree, Held, Apart;
    forall d | d in tree && d != op.dch ensures SameDir(w, st'.vol, d) {
      assert IsChain(st.vol.fat, d);
      assert SameDir(st.vol, w, d) && SameDir(st.vol, st'.vol, d);
    }
  }

  lemma CreateStepFam(st: State, cb: nat, op: Op, st': State)
    requires Step(st, cb, op, st') && op.CreateOp?
    requires |FreeList(st.vol.fat)| >= ClustersFor(|op.data|, cb) && Create(st.vol, cb, op.dch, op.data, op.name).code == 0
    ensures CanCreate(st.vol, cb, op.dch, op.data, op.name) && st'.vol == Create(st.vol, cb, op.dch, op.data, op.name).vol
    ensures st'.fam == st.fam - {op.dch} + {NewDir(st.vol, cb, op.dch, op.data)} + {NewFile(st.vol, cb, |op.data|)}
  {
  }

  lemma CreatedDir(v: Volume, cb: nat, dch: seq<nat>, data: seq<byte>, name: seq<byte>)
    requires CanCreate(v, cb, dch, data, name)
    ensures |FreeList(v.fat)| >= ClustersFor(|data|, cb) && FatContent.Fits(Create(v, cb, dch, data, name).vol, NewDir(v, cb, dch, data))
  {
    FatUnlink.CreatedShape(v, cb, dch, data, name);
  }

  lemma CreateGoodParts(fat: Fat, mid: State, tree: set<seq<nat>>, dch: seq<nat>, st': State, dir: seq<nat>, cl: seq<nat>, q: Place, e: Slot)
    requires Family(fat, mid.fam) && GoodTree(mid, tree) && dch in tree && OthersSame(mid.vol, st'.vol, tree, dch)
    requires st'.fam == mid.fam - {dch} + {dir} + {cl} && Filling(mid.vol, st'.vol, dch, dir, q, e) && FatContent.Fits(st'.vol, dir)
    requires dch != [] && dir != [] && dir[0] == dch[0] && cl != [] && cl[0] < |fat| && IsFree(fat, cl[0]) && Apart(dir, cl)
    requires e[0] != 0 && StartCluster(e) == cl[0]
    ensures GoodTree(st', tree - {dch} + {dir})
  {
    hide OneSlot, Front, Grown, InTree, Owner, StartCluster, Neat, OthersSame, Owned, Spare, IsFree;
    NotInTree(fat, mid, tree, cl);
    NotTheFile(dir, cl);
    assert Heads(st'.fam, tree - {dch} + {dir}, cl[0]);
    hide Heads;
    forall p, f | InTree(mid.vol, tree, p, f) && p != q && Owner(f)
      ensures Heads(st'.fam, tree - {dch} + {dir}, StartCluster(f)) && StartCluster(f) != StartCluster(e)
    {
      TreeHeads(mid, tree, p, f);
      HeadsSwap(fat, mid.fam, tree, dch, dir, cl, StartCluster(f));
      HeadsUsed(fat, mid.fam, tree, StartCluster(f));
    }
    GoodPut(mid, st', tree, dch, dir, q, e);
  }

  lemma TreeHeads(st: State, tree: set<seq<nat>>, p: Place, e: Slot)
    requires GoodTree(st, tree) && InTree(st.vol, tree, p, e) && Owner(e)
    ensures Heads(st.fam, tree, StartCluster(e))
  {
    hide InTree, Heads, Owner, StartCluster, Neat;
  }

  /** A chain whose head is free is none of the directories. */
  lemma NotInTree(fat: Fat, st: State, tree: set<seq<nat>>, cl: seq<nat>)
    requires Family(fat, st.fam) && GoodTree(st, tree) && cl != [] && cl[0] < |fat| && IsFree(fat, cl[0])
    ensures cl !in tree
  {
    hide Owned, Neat, Held, Apart;
    if cl in tree {
      assert IsChain(fat, cl);
      ChainUsed(fat, cl, cl[0]);
    }
  }

  // write

  lemma WriteGood(st: State, cb: nat, tree: set<seq<nat>>, op: Op, st': State)
    requires Step(st, cb, op, st') && op.WriteOp? && op.ch !in tree && GoodTree(st, tree)
    ensures GoodTree(st', tree)
  {
    var r := OffsetWrite(st.vol, cb, op.ch, op.input, op.offset);
    var ext :| WriteMeans(st.vol, cb, op.ch, op.input, op.offset, r.vol, r.count, ext) && st'.fam == st.fam - {op.ch} + {op.ch + ext};
    StepOthers(st, cb, op, st', tree);
    WriteGoodParts(st, tree, op.ch, ext, st');
  }

  lemma WriteGoodParts(st: State, tree: set<seq<nat>>, ch: seq<nat>, ext: seq<nat>, st': State)
    requires Family(st.vol.fat, st.fam) && GoodTree(st, tree) && ch in st.fam && ch !in tree && OthersSame(st.vol, st'.vol, tree, ch)
    requires st'.fam == st.fam - {ch} + {ch + ext}
    ensures GoodTree(st', tree)
  {
    hide Family, Heads, Owned, Neat, SameDir;
    forall s | Heads(st.fam, tree, s) ensures Heads(st'.fam, tree, s) {
      HeadsGrow(st.vol.fat, st.fam, tree, ch, ext, s);
    }
    GoodSame(st, st', tree);
  }

  lemma WriteSame(st: State, dch: seq<nat>, ch: seq<nat>, ext: seq<nat>, st': State)
    requires Family(st.vol.fat, st.fam) && dch in st.fam && ch in st.fam && ch != dch
    requires GrowsBy(st.vol, ch, st'.vol, ext) && Keeps(st.vol, st'.vol, ch + ext)
    ensures SameDir(st.vol, st'.vol, dch)
  {
    hide Family, IsChain;
    forall c | c in ch + ext ensures c in ch || (c < |st.vol.fat| && IsFree(st.vol.fat, c)) {
      if c !in ch { assert c in ext; }
    }
    OtherChainApart(st, dch, ch + ext, ch);
  }

  lemma HeadsGrow(fat: Fat, fam: set<seq<nat>>, tree: set<seq<nat>>, ch: seq<nat>, ext: seq<nat>, s: nat)
    requires Family(fat, fam) && tree <= fam && ch in fam && ch !in tree && Heads(fam, tree, s)
    ensures Heads(fam - {ch} + {ch + ext}, tree, s)
  {
    hide Family;
    var k :| k in fam && k !in tree && k != [] && k[0] == s;
    if k == ch {
      if ch + ext in tree { SameHead(fat, fam, ch, ch + ext); }
      assert (ch + ext)[0] == ch[0];
      assert ch + ext in fam - {ch} + {ch + ext};
    } else {
      assert k in fam - {ch} + {ch + ext};
    }
  }

  // unlink and update

  lemma UnlinkPuts(v: Volume, dch: seq<nat>, name: seq<byte>)
    requires Sound(v, dch, name) && DirHas(v, dch, name)
    ensures var q := DirFind(v, dch, name); Unlink(v, dch, name).vol.data == PutBytes(v, q.cluster, 32 * q.slot, EntryAt(v, q)[0 := 0xE5]).data
  {
    var q := DirFind(v, dch, name);
    FatUnlink.MarkIs(v.data[q.cluster], q.slot);
  }

  lemma SlotSame(v: Volume, w: Volume, u: Volume, dch: seq<nat>, q: Place, x: Slot)
    requires OneSlot(v, w, dch, dch, q, x) && u.data == w.data
    ensures OneSlot(v, u, dch, dch, q, x)
  {
    SameAt(w, u, dch);
  }

  lemma HeadsWithout(fam: set<seq<nat>>, tree: set<seq<nat>>, ch: seq<nat>, s: nat)
    requires Heads(fam, tree, s) && ch != [] && ch[0] != s
    ensures Heads(fam - {ch}, tree, s)
  {
    var k :| k in fam && k !in tree && k != [] && k[0] == s;
    assert k in fam - {ch};
  }

  lemma PutGrown(v: Volume, w: Volume, dch: seq<nat>, q: Place, x: Slot)
    requires q.Place? && q.cluster < |v.data| && 32 * q.slot + 32 <= |v.data[q.cluster]| && w.data == PutBytes(v, q.cluster, 32 * q.slot, x).data
    ensures Grown(v, w, dch, dch)
  {
  }

  lemma UnlinkSlot(st: State, cb: nat, op: Op, st': State)
    requires Step(st, cb, op, st') && op.UnlinkOp? && DirHas(st.vol, op.dch, op.name)
    ensures Sound(st.vol, op.dch, op.name)
    ensures OneSlot(st.vol, st'.vol, op.dch, op.dch, DirFind(st.vol, op.dch, op.name), Found(st, op.dch, op.name)[0 := 0xE5])
    ensures |st.vol.data| == |st'.vol.data| && Grown(st.vol, st'.vol, op.dch, op.dch)
  {
    var q, was := DirFind(st.vol, op.dch, op.name), Found(st, op.dch, op.name);
    UnlinkSound(st, cb, op);
    FoundSlot(st.vol, op.dch, op.name);
    UnlinkPuts(st.vol, op.dch, op.name);
    PutSlot(st.vol, op.dch, q, was, was[0 := 0xE5]);
    SlotSame(st.vol, PutBytes(st.vol, q.cluster, 32 * q.slot, was[0 := 0xE5]), st'.vol, op.dch, q, was[0 := 0xE5]);
    PutGrown(st.vol, st'.vol, op.dch, q, was[0 := 0xE5]);
  }

  /** What an unlink takes from the family: nothing, or one chain whose head the entry names. */
  lemma UnlinkStepFam(st: State, cb: nat, op: Op, st': State)
    requires Step(st, cb, op, st') && op.UnlinkOp?
    ensures FatContent.Fits(st.vol, op.dch) && Family(st.vol.fat, st.fam) && |st.vol.data| == |st'.vol.data|
    ensures DirHas(st.vol, op.dch, op.name) <==> DirFind(st.vol, op.dch, op.name).Place?
    ensures !DirHas(st.vol, op.dch, op.name) ==> st'.vol == st.vol && st'.fam == st.fam
    ensures DirHas(st.vol, op.dch, op.name) && StartCluster(Found(st, op.dch, op.name)) == 0 ==> st'.fam == st.fam
    ensures DirHas(st.vol, op.dch, op.name) && StartCluster(Found(st, op.dch, op.name)) != 0 ==> exists ch :: ch in st.fam && ch != [] && ch[0] == StartCluster(Found(st, op.dch, op.name)) && st'.fam == st.fam - {ch}
  {
    UnlinkSound(st, cb, op);
    UnlinkShape(st.vol, cb, op.dch, op.name);
  }

  /** The other files' chains are still there. */
  lemma UnlinkHeads(st: State, cb: nat, tree: set<seq<nat>>, op: Op, st': State, q: Place, was: Slot)
    requires Step(st, cb, op, st') && op.UnlinkOp? && GoodTree(st, tree) && FatContent.Fits(st.vol, op.dch) && DirHas(st.vol, op.dch, op.name)
    requires q == DirFind(st.vol, op.dch, op.name) && was == Found(st, op.dch, op.name) && InTree(st.vol, tree, q, was)
    requires StartCluster(was) != 0 ==> Owner(was) && Heads(st.fam, tree, StartCluster(was))
    ensures tree <= st'.fam
    ensures forall p, e :: InTree(st.vol, tree, p, e) && p != q && Owner(e) ==> Heads(st'.fam, tree, StartCluster(e))
  {
    hide Step, InTree, Owner, GoodTree, Heads, Family, DirHas, DirFind, StartCluster, FatContent.Fits, Found;
    UnlinkStepFam(st, cb, op, st');
    TreeIn(st, tree);
    if StartCluster(was) == 0 {
      forall p, e | InTree(st.vol, tree, p, e) && p != q && Owner(e) ensures Heads(st'.fam, tree, StartCluster(e)) {
        TreeHeads(st, tree, p, e);
      }
    } else {
      var ch :| ch in st.fam && ch != [] && ch[0] == StartCluster(was) && st'.fam == st.fam - {ch};
      NoDirectoryHead(st, tree, ch);
      forall p, e | InTree(st.vol, tree, p, e) && p != q && Owner(e) ensures Heads(st'.fam, tree, StartCluster(e)) {
        TreeHeads(st, tree, p, e);
        TreeDistinct(st, tree, p, e, q, was);
        HeadsWithout(st.fam, tree, ch, StartCluster(e));
      }
    }
  }

  lemma TreeIn(st: State, tree: set<seq<nat>>)
    requires GoodTree(st, tree)
    ensures tree <= st.fam
  {
  }

  lemma TreeDistinct(st: State, tree: set<seq<nat>>, p: Place, e: Slot, q: Place, f: Slot)
    requires GoodTree(st, tree) && InTree(st.vol, tree, p, e) && Owner(e) && InTree(st.vol, tree, q, f) && Owner(f) && p != q
    ensures StartCluster(e) != StartCluster(f)
  {
    hide InTree, Heads, Owner, StartCluster, Neat;
  }

  /** A chain a file's slot names is no directory. */
  lemma NoDirectoryHead(st: State, tree: set<seq<nat>>, ch: seq<nat>)
    requires Family(st.vol.fat, st.fam) && ch in st.fam && ch != [] && Heads(st.fam, tree, ch[0])
    ensures ch !in tree
  {
    hide Family;
    var k :| k in st.fam && k !in tree && k != [] && k[0] == ch[0];
    SameHead(st.vol.fat, st.fam, ch, k);
  }

  lemma UnlinkGood(st: State, cb: nat, tree: set<seq<nat>>, op: Op, st': State)
    requires Step(st, cb, op, st') && op.UnlinkOp? && op.dch in tree && GoodTree(st, tree) && FatContent.Fits(st.vol, op.dch)
    requires DirHas(st.vol, op.dch, op.name) ==> RegularEntry(Found(st, op.dch, op.name))
    ensures GoodTree(st', tree)
  {
    hide *;
    UnlinkStepFam(st, cb, op, st');
    if DirHas(st.vol, op.dch, op.name) {
      var q, was := DirFind(st.vol, op.dch, op.name), Found(st, op.dch, op.name);
      FoundSlot(st.vol, op.dch, op.name);
      FoundOwner(st, tree, op.dch, op.name);
      UnlinkSlot(st, cb, op, st');
      UnlinkHeads(st, cb, tree, op, st', q, was);
      UnlinkOthers(st, cb, op, st', tree);
      Deleted(was);
      ReplacedGood(st, tree, op.dch, st', q, was[0 := 0xE5]);
    }
  }

  lemma Deleted(e: Slot)
    ensures !Owner(e[0 := 0xE5]) && e[0 := 0xE5][0] == 0xE5
  {
  }

  lemma UnlinkOthers(st: State, cb: nat, op: Op, st': State, tree: set<seq<nat>>)
    requires Step(st, cb, op, st') && (op.UnlinkOp? || op.UpdateOp?) && GoodTree(st, tree)
    ensures OthersSame(st.vol, st'.vol, tree, op.dch)
  {
    StepOthers(st, cb, op, st', tree);
    hide Step, OthersSame;
  }

  lemma ReplacedGood(st: State, tree: set<seq<nat>>, dch: seq<nat>, st': State, q: Place, x: Slot)
    requires GoodTree(st, tree) && dch in tree && tree <= st'.fam && FatContent.Fits(st.vol, dch) && |st.vol.data| == |st'.vol.data|
    requires OneSlot(st.vol, st'.vol, dch, dch, q, x) && Front(st.vol, dch, q) && Grown(st.vol, st'.vol, dch, dch) && x[0] != 0 && OthersSame(st.vol, st'.vol, tree, dch)
    requires forall p, e :: InTree(st.vol, tree, p, e) && p != q && Owner(e) ==> Heads(st'.fam, tree, StartCluster(e))
    requires Owner(x) ==> exists e :: InTree(st.vol, tree, q, e) && Owner(e) && StartCluster(e) == StartCluster(x) && st'.fam == st.fam
    ensures GoodTree(st', tree)
  {
    hide OneSlot, Front, InTree, Heads, Owner, StartCluster, Neat, OthersSame;
    assert tree - {dch} + {dch} == tree;
    GoodPut(st, st', tree, dch, dch, q, x);
  }

  lemma UpdateGood(st: State, cb: nat, tree: set<seq<nat>>, op: Op, st': State)
    requires Step(st, cb, op, st') && op.UpdateOp? && op.dch in tree && GoodTree(st, tree) && FatContent.Fits(st.vol, op.dch) && op.entry[0] != 0
    requires DirHas(st.vol, op.dch, op.name) ==> RegularEntry(Found(st, op.dch, op.name)) && StartCluster(op.entry) == StartCluster(Found(st, op.dch, op.name))
    ensures GoodTree(st', tree)
  {
    hide *;
    UpdateStepIs(st, cb, op, st');
    if DirHas(st.vol, op.dch, op.name) {
      var q := DirFind(st.vol, op.dch, op.name);
      FoundSlot(st.vol, op.dch, op.name);
      FoundOwner(st, tree, op.dch, op.name);
      UnlinkOthers(st, cb, op, st', tree);
      PutSlot(st.vol, op.dch, q, Found(st, op.dch, op.name), op.entry);
      PutGrown(st.vol, st'.vol, op.dch, q, op.entry);
      UpdateHeads(st, tree, q, Found(st, op.dch, op.name), op.entry);
      ReplacedGood(st, tree, op.dch, st', q, op.entry);
    }
  }

  lemma UpdateStepIs(st: State, cb: nat, op: Op, st': State)
    requires Step(st, cb, op, st') && op.UpdateOp?
    ensures FatContent.Fits(st.vol, op.dch) && st'.fam == st.fam && |st'.vol.data| == |st.vol.data|
    ensures !DirHas(st.vol, op.dch, op.name) ==> st' == st
    ensures DirHas(st.vol, op.dch, op.name) ==> var q := DirFind(st.vol, op.dch, op.name); q.Place? && EntryAt(st.vol, q) == Found(st, op.dch, op.name) && q.cluster < |st.vol.data| && 32 * q.slot + 32 <= |st.vol.data[q.cluster]| && st'.vol == PutBytes(st.vol, q.cluster, 32 * q.slot, op.entry)
  {
  }

  lemma UpdateHeads(st: State, tree: set<seq<nat>>, q: Place, was: Slot, x: Slot)
    requires GoodTree(st, tree) && InTree(st.vol, tree, q, was) && StartCluster(x) == StartCluster(was)
    requires StartCluster(was) != 0 ==> Owner(was)
    ensures tree <= st.fam
    ensures forall p, e :: InTree(st.vol, tree, p, e) && p != q && Owner(e) ==> Heads(st.fam, tree, StartCluster(e))
    ensures Owner(x) ==> exists e :: InTree(st.vol, tree, q, e) && Owner(e) && StartCluster(e) == StartCluster(x)
  {
    hide InTree, Heads, Neat, StartCluster;
  }

  // ----- runs -----

  /** Every operation keeps the whole tree tidy and every file the owner of its own chain. */
  lemma StepGood(st: State, cb: nat, tree: set<seq<nat>>, op: Op, st': State)
    requires Step(st, cb, op, st') && GoodTree(st, tree) && AllFit(st.vol, tree) && Polite(st, cb, tree, op)
    ensures GoodTree(st', TreeAfter(st, cb, tree, op))
  {
    hide Step, GoodTree, Ok, Legal;
    StepLegal(st, cb, op, st');
    match op
    case CreateOp(_, _, _) =>
      if |FreeList(st.vol.fat)| >= ClustersFor(|op.data|, cb) && Create(st.vol, cb, op.dch, op.data, op.name).code == 0 {
        CreateGood(st, cb, tree, op, st');
      } else {
        CreateFailGood(st, cb, tree, op, st');
      }
    case WriteOp(_, _, _) => WriteGood(st, cb, tree, op, st');
    case UnlinkOp(_, _) => UnlinkGood(st, cb, tree, op, st');
    case UpdateOp(_, _, _) => UpdateGood(st, cb, tree, op, st');
  }

  lemma StepLegal(st: State, cb: nat, op: Op, st': State)
    requires Step(st, cb, op, st')
    ensures Ok(st, cb) && Legal(st, cb, op)
    ensures op.CreateOp? ==> VolumeShape(st.vol, cb) && IsChain(st.vol.fat, op.dch) && |op.data| < TWO32 && |op.name| >= 11
  {
  }

  /** One operation on the tree. Nothing is said of a step that would not be legal: that none
      occurs is part of what is proved. */
  ghost predicate TreeStep(st: State, cb: nat, tree: set<seq<nat>>, op: Op, st': State, tree': set<seq<nat>>) {
    && AllFit(st.vol, tree) && Polite(st, cb, tree, op)
    && (Ok(st, cb) && Legal(st, cb, op) ==> Step(st, cb, op, st') && tree' == TreeAfter(st, cb, tree, op))
  }

  ghost predicate TreeRun(trace: seq<State>, trees: seq<set<seq<nat>>>, cb: nat, ops: seq<Op>) {
    |trace| == |trees| == |ops| + 1 && forall i :: 0 <= i < |ops| ==> TreeStep(trace[i], cb, trees[i], ops[i], trace[i + 1], trees[i + 1])
  }

  lemma TreeStepGood(st: State, cb: nat, tree: set<seq<nat>>, op: Op, st': State, tree': set<seq<nat>>)
    requires TreeStep(st, cb, tree, op, st', tree') && Ok(st, cb) && GoodTree(st, tree)
    ensures Legal(st, cb, op) && Step(st, cb, op, st') && tree' == TreeAfter(st, cb, tree, op) && Ok(st', cb) && GoodTree(st', tree')
  {
    hide Step, Ok, TreeAfter, GoodTree, Polite, Legal, AllFit;
    PoliteIsLegal(st, cb, tree, op);
    StepGood(st, cb, tree, op, st');
    StepOk(st, cb, op, st');
  }

  /** Starting from a tree of directories whose files own their chains, every run keeps it so, and
      no unlink in it ever frees a chain that is not the file's own. */
  lemma {:induction false} RunKeepsOwners(trace: seq<State>, trees: seq<set<seq<nat>>>, cb: nat, ops: seq<Op>, i: nat)
    requires TreeRun(trace, trees, cb, ops) && i <= |ops| && Ok(trace[0], cb) && GoodTree(trace[0], trees[0])
    ensures Ok(trace[i], cb) && GoodTree(trace[i], trees[i])
    ensures i < |ops| ==> Legal(trace[i], cb, ops[i]) && Step(trace[i], cb, ops[i], trace[i + 1]) && trees[i + 1] == TreeAfter(trace[i], cb, trees[i], ops[i])
  {
    hide TreeStep, Ok, GoodTree, Step, Legal, TreeAfter;
    if i > 0 {
      RunKeepsOwners(trace, trees, cb, ops, i - 1);
      TreeStepGood(trace[i - 1], cb, trees[i - 1], ops[i - 1], trace[i - 1 + 1], trees[i - 1 + 1]);
    }
    if i < |ops| {
      TreeStepGood(trace[i], cb, trees[i], ops[i], trace[i + 1], trees[i + 1]);
    }
  }

  /** In every state of such a run, whatever a listing of a directory shows can be found by name. */
  lemma RunFinds(trace: seq<State>, trees: seq<set<seq<nat>>>, cb: nat, ops: seq<Op>, i: nat, dch: seq<nat>, e: Slot)
    requires TreeRun(trace, trees, cb, ops) && i <= |ops| && Ok(trace[0], cb) && GoodTree(trace[0], trees[0])
    requires dch in trees[i] && FatContent.Fits(trace[i].vol, dch) && e in ListDir(trace[i].vol, dch)
    ensures DirHas(trace[i].vol, dch, e[..11])
  {
    RunKeepsOwners(trace, trees, cb, ops, i);
    hide TreeRun, Ok, Owned, Dense, TidyDir, ListDir, DirHas;
    DenseFinds(trace[i].vol, dch, e);
  }

  // ----- files nobody touches -----

  /** Slot `p` holds entry `e`, whose chain is `ch`. */
  ghost predicate Holds(st: State, tree: set<seq<nat>>, p: Place, e: Slot, ch: seq<nat>) {
    InTree(st.vol, tree, p, e) && Owner(e) && ch in st.fam && ch !in tree && ch != [] && ch[0] == StartCluster(e)
  }

  /** The operation neither writes to `ch` nor hits slot `p`. */
  ghost predicate Spares(st: State, op: Op, p: Place, ch: seq<nat>) {
    match op
    case CreateOp(_, _, _) => true
    case WriteOp(c, _, _) => c != ch
    case UnlinkOp(dch, name) => FatContent.Fits(st.vol, dch) && DirFind(st.vol, dch, name) != p
    case UpdateOp(dch, name, _) => FatContent.Fits(st.vol, dch) && DirFind(st.vol, dch, name) != p
  }

  /** A slot stays if it is not the one found. */
  lemma KeepsSlot(st: State, cb: nat, op: Op, st': State, p: Place, e: Slot, ch: seq<nat>)
    requires Step(st, cb, op, st') && !op.WriteOp? && At(st.vol, op.dch, p, e) && Owner(e) && Spares(st, op, p, ch)
    requires Ok(st, cb) && Legal(st, cb, op)
    ensures At(st'.vol, if op.CreateOp? && |FreeList(st.vol.fat)| >= ClustersFor(|op.data|, cb) && Create(st.vol, cb, op.dch, op.data, op.name).code == 0 then NewDir(st.vol, cb, op.dch, op.data) else op.dch, p, e)
  {
    hide At, Ok, Legal, Owner;
    match op
    case CreateOp(_, _, _) => KeepsSlotCreate(st, cb, op, st', p, e);
    case UnlinkOp(_, _) => KeepsSlotUnlink(st, cb, op, st', p, e);
    case UpdateOp(_, _, _) => KeepsSlotUpdate(st, cb, op, st', p, e);
  }

  lemma KeepsSlotUnlink(st: State, cb: nat, op: Op, st': State, p: Place, e: Slot)
    requires Step(st, cb, op, st') && op.UnlinkOp? && At(st.vol, op.dch, p, e) && DirFind(st.vol, op.dch, op.name) != p
    ensures At(st'.vol, op.dch, p, e)
  {
    UnlinkSound(st, cb, op);
    if DirHas(st.vol, op.dch, op.name) {
      UnlinkSlot(st, cb, op, st');
    }
  }

  lemma KeepsSlotUpdate(st: State, cb: nat, op: Op, st': State, p: Place, e: Slot)
    requires Step(st, cb, op, st') && op.UpdateOp? && At(st.vol, op.dch, p, e) && FatContent.Fits(st.vol, op.dch)
    requires DirFind(st.vol, op.dch, op.name) != p
    ensures At(st'.vol, op.dch, p, e)
  {
    if DirHas(st.vol, op.dch, op.name) {
      FoundSlot(st.vol, op.dch, op.name);
      PutSlot(st.vol, op.dch, DirFind(st.vol, op.dch, op.name), Found(st, op.dch, op.name), op.entry);
    }
  }

  lemma KeepsSlotCreate(st: State, cb: nat, op: Op, st': State, p: Place, e: Slot)
    requires Step(st, cb, op, st') && op.CreateOp? && At(st.vol, op.dch, p, e) && Owner(e) && Ok(st, cb) && Legal(st, cb, op)
    ensures At(st'.vol, if |FreeList(st.vol.fat)| >= ClustersFor(|op.data|, cb) && Create(st.vol, cb, op.dch, op.data, op.name).code == 0 then NewDir(st.vol, cb, op.dch, op.data) else op.dch, p, e)
  {
    StepLegal(st, cb, op, st');
    if |FreeList(st.vol.fat)| >= ClustersFor(|op.data|, cb) && Create(st.vol, cb, op.dch, op.data, op.name).code == 0 {
      CreateStepFam(st, cb, op, st');
      hide Step, Ok, Legal;
      var w, q := CreateFills(st.vol, cb, op.dch, op.data, op.name);
      SameAt(st.vol, w, op.dch);
    } else {
      CreateFailed(st, cb, op, st');
      hide Step, Ok, Legal;
      SameAt(st.vol, st'.vol, op.dch);
    }
  }

  /** In the directory worked on and in all others. */
  lemma KeepsInTree(st: State, cb: nat, tree: set<seq<nat>>, op: Op, st': State, p: Place, e: Slot, ch: seq<nat>)
    requires Step(st, cb, op, st') && GoodTree(st, tree) && AllFit(st.vol, tree) && Polite(st, cb, tree, op)
    requires InTree(st.vol, tree, p, e) && Owner(e) && Spares(st, op, p, ch)
    ensures Ok(st, cb) && Legal(st, cb, op) && InTree(st'.vol, TreeAfter(st, cb, tree, op), p, e)
    ensures op.CreateOp? ==> op.dch in tree
  {
    hide Step, Ok, Legal, At, Owner, Spares, SameDir;
    StepLegal(st, cb, op, st');
    StepOthers(st, cb, op, st', tree);
    var d :| d in tree && At(st.vol, d, p, e);
    if d != Worked(op) {
      SameAt(st.vol, st'.vol, d);
      assert d in TreeAfter(st, cb, tree, op);
    } else {
      KeepsSlot(st, cb, op, st', p, e, ch);
    }
  }

  /** An operation that spares a file leaves its slot, its entry, its chain and its bytes. */
  lemma StepSpares(st: State, cb: nat, tree: set<seq<nat>>, op: Op, st': State, p: Place, e: Slot, ch: seq<nat>)
    requires Step(st, cb, op, st') && GoodTree(st, tree) && AllFit(st.vol, tree) && Polite(st, cb, tree, op)
    requires Holds(st, tree, p, e, ch) && Spares(st, op, p, ch)
    ensures Ok(st, cb) && Legal(st, cb, op) && Holds(st', TreeAfter(st, cb, tree, op), p, e, ch)
    ensures FatContent.Fits(st.vol, ch) && FatContent.Fits(st'.vol, ch) && Content(st'.vol, ch) == Content(st.vol, ch)
  {
    hide Step, GoodTree, AllFit, Polite, InTree, Spares, Ok, Legal, TreeAfter, Touches, Content, FatContent.Fits;
    KeepsInTree(st, cb, tree, op, st', p, e, ch);
    NotTouched(st, cb, tree, op, p, e, ch);
    StepFrame(st, cb, op, st', ch);
    NoDirectory(st, cb, tree, op, st', ch);
  }

  lemma NotTouched(st: State, cb: nat, tree: set<seq<nat>>, op: Op, p: Place, e: Slot, ch: seq<nat>)
    requires Ok(st, cb) && Legal(st, cb, op) && GoodTree(st, tree) && AllFit(st.vol, tree) && Polite(st, cb, tree, op)
    requires Holds(st, tree, p, e, ch) && Spares(st, op, p, ch)
    ensures !Touches(st, cb, op, ch)
  {
    if op.UnlinkOp? && DirHas(st.vol, op.dch, op.name) {
      FoundOwner(st, tree, op.dch, op.name);
      hide InTree, Neat;
    }
  }

  lemma NoDirectory(st: State, cb: nat, tree: set<seq<nat>>, op: Op, st': State, ch: seq<nat>)
    requires Step(st, cb, op, st') && GoodTree(st, tree) && ch in st.fam && ch !in tree && Ok(st, cb) && Legal(st, cb, op)
    requires op.CreateOp? ==> op.dch in tree
    ensures ch !in TreeAfter(st, cb, tree, op)
  {
    hide Step, Ok, Legal, GoodTree, Create, NewDir, Filling, SameDir, Family, IsChain;
    StepLegal(st, cb, op, st');
    StepParts(st, cb, op, st');
    if op.CreateOp? && |FreeList(st.vol.fat)| >= ClustersFor(|op.data|, cb) && Create(st.vol, cb, op.dch, op.data, op.name).code == 0 {
      CreateStepFam(st, cb, op, st');
      var w, q := CreateFills(st.vol, cb, op.dch, op.data, op.name);
      SameHead(st.vol.fat, st.fam, ch, op.dch);
    }
  }

  /** Every operation from `m` to `i` spares the file. */
  ghost predicate Spared(trace: seq<State>, ops: seq<Op>, m: nat, i: nat, p: Place, ch: seq<nat>)
    requires i <= |ops| < |trace|
  {
    forall k :: m <= k < i ==> Spares(trace[k], ops[k], p, ch)
  }

  lemma RunStep(trace: seq<State>, trees: seq<set<seq<nat>>>, cb: nat, ops: seq<Op>, m: nat, i: nat, k: nat, p: Place, ch: seq<nat>)
    requires TreeRun(trace, trees, cb, ops) && m <= k && k + 1 == i <= |ops| && Spared(trace, ops, m, i, p, ch)
    ensures Spared(trace, ops, m, k, p, ch) && Spares(trace[k], ops[k], p, ch)
    ensures TreeStep(trace[k], cb, trees[k], ops[k], trace[i], trees[i])
  {
    hide TreeStep, Spares;
    assert trace[i] == trace[k + 1] && trees[i] == trees[k + 1];
  }

  lemma TreeStepSpares(st: State, cb: nat, tree: set<seq<nat>>, op: Op, st': State, tree': set<seq<nat>>, p: Place, e: Slot, ch: seq<nat>)
    requires TreeStep(st, cb, tree, op, st', tree') && Ok(st, cb) && GoodTree(st, tree)
    requires Holds(st, tree, p, e, ch) && Spares(st, op, p, ch)
    ensures Holds(st', tree', p, e, ch)
    ensures FatContent.Fits(st.vol, ch) && FatContent.Fits(st'.vol, ch) && Content(st'.vol, ch) == Content(st.vol, ch)
  {
    hide Step, Ok, TreeAfter, GoodTree, Polite, Legal, Holds, Spares, AllFit, Content, FatContent.Fits;
    TreeStepGood(st, cb, tree, op, st', tree');
    StepSpares(st, cb, tree, op, st', p, e, ch);
  }

  lemma HoldsFits(st: State, cb: nat, tree: set<seq<nat>>, p: Place, e: Slot, ch: seq<nat>)
    requires Ok(st, cb) && Holds(st, tree, p, e, ch)
    ensures FatContent.Fits(st.vol, ch)
  {
    hide InTree, Owner;
    assert IsChain(st.vol.fat, ch);
    ChainFits(st.vol, ch);
  }

  /** Through any stretch of a run that never writes to its chain and never unlinks or updates its
      slot, a file keeps its slot, its entry and every byte. */
  lemma {:induction false} FileSurvives(trace: seq<State>, trees: seq<set<seq<nat>>>, cb: nat, ops: seq<Op>, m: nat, i: nat, p: Place, e: Slot, ch: seq<nat>)
    requires TreeRun(trace, trees, cb, ops) && m <= i <= |ops| && Ok(trace[0], cb) && GoodTree(trace[0], trees[0])
    requires Holds(trace[m], trees[m], p, e, ch) && Spared(trace, ops, m, i, p, ch)
    ensures Holds(trace[i], trees[i], p, e, ch)
    ensures FatContent.Fits(trace[m].vol, ch) && FatContent.Fits(trace[i].vol, ch) && Content(trace[i].vol, ch) == Content(trace[m].vol, ch)
  {
    hide Step, Ok, GoodTree, Polite, Legal, Holds, Spares, TreeStep, Spared, Content, FatContent.Fits;
    RunKeepsOwners(trace, trees, cb, ops, m);
    if i > m {
      RunStep(trace, trees, cb, ops, m, i, i - 1, p, ch);
      FileSurvives(trace, trees, cb, ops, m, i - 1, p, e, ch);
      RunKeepsOwners(trace, trees, cb, ops, i - 1);
      TreeStepSpares(trace[i - 1], cb, trees[i - 1], ops[i - 1], trace[i], trees[i], p, e, ch);
    } else {
      HoldsFits(trace[m], cb, trees[m], p, e, ch);
    }
  }

  /** A successful create leaves a slot that holds the new entry, whose chain holds the data. */
  lemma CreateHolds(st: State, cb: nat, tree: set<seq<nat>>, op: Op, st': State) returns (p: Place, e: Slot, ch: seq<nat>)
    requires Step(st, cb, op, st') && op.CreateOp? && op.dch in tree && GoodTree(st, tree) && op.name[0] != 0 && op.name[0] != FREE
    requires Ok(st, cb) && Legal(st, cb, op) && Create(st.vol, cb, op.dch, op.data, op.name).code == 0
    ensures Holds(st', TreeAfter(st, cb, tree, op), p, e, ch)
    ensures e[..11] == op.name[..11] && FileSize(e) == |op.data|
    ensures FatContent.Fits(st'.vol, ch) && op.data <= Content(st'.vol, ch)
  {
    CreatedEnough(st.vol, cb, op.dch, op.data, op.name);
    CreateStepFam(st, cb, op, st');
    hide Step, Ok, Create, NewDir, NewFile, Content, FatContent.Fits;
    var v, dch, data := st.vol, op.dch, op.data;
    var w, q := CreateFills(v, cb, dch, data, op.name);
    ch := NewFile(v, cb, |data|);
    p, e := q, NewEntry(op.name, ch[0], |data|);
    NewEntryFirst(op.name, ch[0], |data|);
    NewEntryRegular(op.name, ch[0], |data|);
    CreateReadsBack(v, cb, dch, data, op.name);
    NewFileApart(v, cb, dch, data, op.name);
    FreshFile(st, cb, tree, NewDir(v, cb, dch, data), ch, dch);
    assert NewDir(v, cb, dch, data) in TreeAfter(st, cb, tree, op);
    DirInTree(st'.vol, TreeAfter(st, cb, tree, op), NewDir(v, cb, dch, data), p, e);
  }

  lemma CreatedEnough(v: Volume, cb: nat, dch: seq<nat>, data: seq<byte>, name: seq<byte>)
    requires VolumeShape(v, cb) && IsChain(v.fat, dch) && |data| < TWO32 && |name| >= 11 && Create(v, cb, dch, data, name).code == 0
    ensures |FreeList(v.fat)| >= ClustersFor(|data|, cb)
  {
    CreateInserts(v, cb, dch, data, name);
  }

  lemma FreshFile(st: State, cb: nat, tree: set<seq<nat>>, dir: seq<nat>, cl: seq<nat>, dch: seq<nat>)
    requires Ok(st, cb) && GoodTree(st, tree) && cl != [] && cl[0] < |st.vol.fat| && IsFree(st.vol.fat, cl[0]) && Apart(dir, cl)
    ensures cl !in tree - {dch} + {dir}
  {
    NotInTree(st.vol.fat, st, tree, cl);
    NotTheFile(dir, cl);
  }

  /** What a create in the middle of a run was given can still be read, through its entry, after
      every later operation as long as they all spare the file. */
  lemma CreatedSurvives(trace: seq<State>, trees: seq<set<seq<nat>>>, cb: nat, ops: seq<Op>, m: nat, i: nat) returns (p: Place, e: Slot, ch: seq<nat>)
    requires TreeRun(trace, trees, cb, ops) && m < i <= |ops| && Ok(trace[0], cb) && GoodTree(trace[0], trees[0])
    requires Ok(trace[m], cb) && Legal(trace[m], cb, ops[m]) && ops[m].CreateOp? && ops[m].name[0] != FREE
    requires Create(trace[m].vol, cb, ops[m].dch, ops[m].data, ops[m].name).code == 0
    ensures e[..11] == ops[m].name[..11] && FileSize(e) == |ops[m].data| && Holds(trace[m + 1], trees[m + 1], p, e, ch)
    ensures Spared(trace, ops, m + 1, i, p, ch) ==> Holds(trace[i], trees[i], p, e, ch) && FatContent.Fits(trace[i].vol, ch) && ops[m].data <= Content(trace[i].vol, ch)
  {
    RunKeepsOwners(trace, trees, cb, ops, m);
    PoliteAt(trace, trees, cb, ops, m);
    hide GoodTree, Holds, TreeRun, TreeAfter, Spared, Content, Create, Ok, Step, FatContent.Fits;
    p, e, ch := CreateHolds(trace[m], cb, trees[m], ops[m], trace[m + 1]);
    if Spared(trace, ops, m + 1, i, p, ch) {
      FileSurvives(trace, trees, cb, ops, m + 1, i, p, e, ch);
    }
  }

  lemma PoliteAt(trace: seq<State>, trees: seq<set<seq<nat>>>, cb: nat, ops: seq<Op>, m: nat)
    requires TreeRun(trace, trees, cb, ops) && m < |ops|
    ensures |trace| == |trees| == |ops| + 1
    ensures ops[m].CreateOp? ==> ops[m].dch in trees[m] && |ops[m].name| >= 11 && ops[m].name[0] != 0
  {
    assert TreeStep(trace[m], cb, trees[m], ops[m], trace[m + 1], trees[m + 1]);
  }
}
