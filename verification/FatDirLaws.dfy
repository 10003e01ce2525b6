// What inserting, finding, updating and deleting directory entries do to the listing.
module FatDirLaws {
  import opened Bytes
  import opened FatVolume
  import opened FatChains
  import opened FatContent
  import opened FatDir
  import FatTable

  // ----- one cluster -----

  /** The listed slots among j, ..., p - 1. */
  function ListUpto(bytes: seq<byte>, j: nat, p: nat): seq<Slot>
    requires j <= p && 32 * p <= |bytes|
    decreases p - j
  {
    if j == p then []
    else (if Listed(SlotAt(bytes, j)) then [SlotAt(bytes, j)] else []) + ListUpto(bytes, j + 1, p)
  }

  /** Slots j, ..., p - 1 are in use, deleted ones included. */
  ghost predicate NoStop(bytes: seq<byte>, j: nat, p: nat) {
    32 * p <= |bytes| && forall i :: j <= i < p ==> bytes[32 * i] != 0
  }

  lemma {:induction false} ListSplit(bytes: seq<byte>, j: nat, p: nat)
    requires j <= p && NoStop(bytes, j, p)
    ensures ListFrom(bytes, j) == ListUpto(bytes, j, p) + ListFrom(bytes, p)
    decreases p - j
  {
    if j < p {
      ListSplit(bytes, j + 1, p);
      assert SlotAt(bytes, j)[0] == bytes[32 * j];
      var a := if Listed(SlotAt(bytes, j)) then [SlotAt(bytes, j)] else [];
      hide Listed;
      assert ListFrom(bytes, j) == a + ListFrom(bytes, j + 1);
    }
  }

  ghost predicate SameSlots(a: seq<byte>, b: seq<byte>, j: nat, p: nat) {
    |a| == |b| && forall k :: 32 * j <= k < 32 * p && k < |a| ==> a[k] == b[k]
  }

  lemma SameSlot(a: seq<byte>, b: seq<byte>, j: nat, p: nat, i: nat)
    requires SameSlots(a, b, j, p) && j <= i < p && 32 * i + 32 <= |a|
    ensures SlotAt(a, i) == SlotAt(b, i)
  {
    forall k | 0 <= k < 32 ensures SlotAt(a, i)[k] == SlotAt(b, i)[k] {
      assert a[32 * i + k] == b[32 * i + k];
    }
  }

  lemma {:induction false} UptoSame(a: seq<byte>, b: seq<byte>, j: nat, p: nat)
    requires j <= p && 32 * p <= |a| && SameSlots(a, b, j, p)
    ensures ListUpto(a, j, p) == ListUpto(b, j, p)
    decreases p - j
  {
    if j < p {
      SameSlot(a, b, j, p, j);
      UptoSame(a, b, j + 1, p);
    }
  }

  lemma {:induction false} FromSame(a: seq<byte>, b: seq<byte>, j: nat)
    requires SameSlots(a, b, j, |a|)
    ensures ListFrom(a, j) == ListFrom(b, j)
    decreases |a| - 32 * j
  {
    if 32 * j + 32 <= |a| {
      SameSlot(a, b, j, |a|, j);
      FromSame(a, b, j + 1);
    }
  }

  /** The listing around slot `p`, before and after it is overwritten. */
  lemma ListAround(bytes: seq<byte>, p: nat, e: Slot)
    requires 32 * p + 32 <= |bytes| && NoStop(bytes, 0, p)
    ensures SlotAt(Splice(bytes, 32 * p, e), p) == e
    ensures ListFrom(bytes, 0) == ListUpto(bytes, 0, p) + ListFrom(bytes, p)
    ensures ListFrom(Splice(bytes, 32 * p, e), 0) == ListUpto(bytes, 0, p) + ListFrom(Splice(bytes, 32 * p, e), p)
    ensures ListFrom(Splice(bytes, 32 * p, e), p + 1) == ListFrom(bytes, p + 1)
  {
    var b := Splice(bytes, 32 * p, e);
    ListSplit(bytes, 0, p);
    UptoSame(bytes, b, 0, p);
    assert NoStop(b, 0, p) by {
      forall i | 0 <= i < p ensures b[32 * i] != 0 { assert b[32 * i] == bytes[32 * i]; }
    }
    ListSplit(b, 0, p);
    FromSame(b, bytes, p + 1);
  }

  predicate NeverUsed(bytes: seq<byte>, j: nat) {
    32 * j < |bytes| && bytes[32 * j] == 0
  }

  /** After the first never-used slot of a cluster all slots are never used. */
  ghost predicate Tidy(bytes: seq<byte>) {
    forall i: nat, j: nat :: i < j && 32 * j + 32 <= |bytes| && NeverUsed(bytes, i) ==> NeverUsed(bytes, j)
  }

  ghost predicate Inserted(before: seq<Slot>, after: seq<Slot>, k: nat, e: Slot) {
    k <= |before| && after == before[..k] + [e] + before[k..]
  }

  lemma VacantStep(bytes: seq<byte>, p: nat)
    requires 32 * p + 32 <= |bytes| && Vacant(bytes, p)
    ensures ListFrom(bytes, p) == if bytes[32 * p] == 0 then [] else ListFrom(bytes, p + 1)
  {
    assert SlotAt(bytes, p)[0] == bytes[32 * p];
  }

  lemma ListedStep(bytes: seq<byte>, p: nat, e: Slot)
    requires 32 * p + 32 <= |bytes| && SlotAt(bytes, p) == e && Listed(e)
    ensures ListFrom(bytes, p) == [e] + ListFrom(bytes, p + 1)
  {
  }

  /** Overwriting a vacant slot lists `e` and, when the slot was never used, whatever lies behind it. */
  lemma VacantOverwrite(bytes: seq<byte>, p: nat, e: Slot)
    requires 32 * p + 32 <= |bytes| && NoStop(bytes, 0, p) && Vacant(bytes, p) && Listed(e)
    ensures ListFrom(Splice(bytes, 32 * p, e), 0) == ListUpto(bytes, 0, p) + [e] + ListFrom(bytes, p + 1)
    ensures bytes[32 * p] == 0 ==> ListFrom(bytes, 0) == ListUpto(bytes, 0, p)
    ensures bytes[32 * p] != 0 ==> ListFrom(bytes, 0) == ListUpto(bytes, 0, p) + ListFrom(bytes, p + 1)
  {
    hide *;
    ListAround(bytes, p, e);
    VacantStep(bytes, p);
    ListedStep(Splice(bytes, 32 * p, e), p, e);
    var u, r := ListUpto(bytes, 0, p), ListFrom(bytes, p + 1);
    assert u + ([e] + r) == u + [e] + r;
    assert u + [] == u;
  }

  /** In a tidy cluster that is exactly one more entry. */
  lemma ClusterInsert(bytes: seq<byte>, p: nat, e: Slot) returns (k: nat)
    requires 32 * p + 32 <= |bytes| && NoStop(bytes, 0, p) && Vacant(bytes, p) && Listed(e) && Tidy(bytes)
    ensures Inserted(ListFrom(bytes, 0), ListFrom(Splice(bytes, 32 * p, e), 0), k, e)
  {
    VacantOverwrite(bytes, p, e);
    k := |ListUpto(bytes, 0, p)|;
    if bytes[32 * p] == 0 {
      assert NeverUsed(bytes, p);
      if 32 * p + 64 <= |bytes| {
        assert NeverUsed(bytes, p + 1);
        assert SlotAt(bytes, p + 1)[0] == 0;
      }
      assert ListFrom(bytes, p + 1) == [];
    }
  }

  lemma TidyOverwrite(bytes: seq<byte>, p: nat, e: Slot)
    requires 32 * p + 32 <= |bytes| && Tidy(bytes) && e[0] != 0
    requires NoStop(bytes, 0, p)
    ensures Tidy(Splice(bytes, 32 * p, e))
  {
    var b := Splice(bytes, 32 * p, e);
    forall i: nat, j: nat | i < j && 32 * j + 32 <= |b| && NeverUsed(b, i) ensures NeverUsed(b, j) {
      assert i != p ==> NeverUsed(bytes, i);
      assert b[32 * p] == e[0];
      assert i > p;
      assert NeverUsed(bytes, j);
    }
  }

  // ----- the whole directory -----

  ghost predicate TidyDir(v: Volume, dch: seq<nat>) {
    FatContent.Fits(v, dch) && forall i :: 0 <= i < |dch| ==> Tidy(v.data[dch[i]])
  }

  lemma {:induction false} ListJoin(v: Volume, a: seq<nat>, b: seq<nat>)
    requires FatContent.Fits(v, a) && FatContent.Fits(v, b)
    ensures FatContent.Fits(v, a + b) && ListDir(v, a + b) == ListDir(v, a) + ListDir(v, b)
  {
    if a == [] {
      assert a + b == b;
    } else {
      ListJoin(v, a[1..], b);
      assert (a + b)[1..] == a[1..] + b;
    }
  }

  lemma VacantNoStop(bytes: seq<byte>)
    ensures NoStop(bytes, 0, VacantFrom(bytes, 0))
  {
    var p := VacantFrom(bytes, 0);
    assert p > 0 ==> 32 * (p - 1) + 32 <= |bytes|;
  }

  lemma InsertedBefore(a: seq<Slot>, before: seq<Slot>, after: seq<Slot>, k: nat, e: Slot)
    requires Inserted(before, after, k, e)
    ensures Inserted(a + before, a + after, |a| + k, e)
  {
  }

  lemma InsertedBehind(before: seq<Slot>, after: seq<Slot>, k: nat, e: Slot, b: seq<Slot>)
    requires Inserted(before, after, k, e)
    ensures Inserted(before + b, after + b, k, e)
  {
  }

  /** The entry of a fresh cluster. */
  lemma NewClusterList(e: Slot, cb: nat)
    requires cb >= 32 && Listed(e)
    ensures ListFrom(e + Zeros(cb - 32), 0) == [e]
  {
    var b := e + Zeros(cb - 32);
    assert SlotAt(b, 0) == e;
    if cb >= 64 { assert SlotAt(b, 1)[0] == 0; }
    assert ListFrom(b, 1) == [];
  }

  // The three ways an insertion ends.

  predicate HasVacant(v: Volume, cb: nat, c: nat)
    requires c < |v.data|
  {
    32 * VacantFrom(v.data[c], 0) + 32 <= cb
  }

  lemma InsertHere(v: Volume, cb: nat, dch: seq<nat>, e: Slot)
    requires VolumeShape(v, cb) && IsChain(v.fat, dch) && HasVacant(v, cb, dch[0])
    ensures 2 <= dch[0] < |v.data| == |v.fat| && |v.data[dch[0]]| == cb
    ensures DirInsert(v, cb, dch, e) == Outcome(PutBytes(v, dch[0], 32 * VacantFrom(v.data[dch[0]], 0), e), 0)
    ensures InsertedChain(v, cb, dch) == dch
    ensures dch[0] !in dch[1..] && dch == [dch[0]] + dch[1..]
  {
    NotInRest(v.fat, dch, []);
    assert dch[1..] + [] == dch[1..];
  }

  lemma InsertLater(v: Volume, cb: nat, dch: seq<nat>, e: Slot)
    requires VolumeShape(v, cb) && IsChain(v.fat, dch) && !HasVacant(v, cb, dch[0]) && |dch| > 1
    ensures 2 <= dch[0] < |v.data| == |v.fat| && IsChain(v.fat, dch[1..]) && Next(v.fat, dch[0]) == dch[1]
    ensures DirInsert(v, cb, dch, e) == DirInsert(v, cb, dch[1..], e)
    ensures InsertedChain(v, cb, dch) == [dch[0]] + InsertedChain(v, cb, dch[1..])
    ensures dch[0] !in InsertedChain(v, cb, dch[1..])
    ensures dch == [dch[0]] + dch[1..]
  {
    hide IsChain;
    LaterParts(v, cb, dch);
    LaterIs(v, cb, dch, e);
    var r := InsertedChain(v, cb, dch[1..]);
    hide DirInsert, InsertedChain, FreeList, HasVacant;
    var ext := r[|dch[1..]|..];
    assert r == dch[1..] + ext;
    NotInRest(v.fat, dch, ext);
  }

  lemma LaterParts(v: Volume, cb: nat, dch: seq<nat>)
    requires VolumeShape(v, cb) && IsChain(v.fat, dch) && |dch| > 1
    ensures 2 <= dch[0] < |v.data| == |v.fat| <= EOC && IsChain(v.fat, dch[1..]) && Next(v.fat, dch[0]) == dch[1]
  {
    ChainTail(v.fat, dch);
    assert Next(v.fat, dch[0]) == dch[0 + 1];
  }

  /** The recursion of the insertion and of the chain it leaves. */
  lemma LaterIs(v: Volume, cb: nat, dch: seq<nat>, e: Slot)
    requires VolumeShape(v, cb) && IsChain(v.fat, dch) && |dch| > 1 && dch[0] < |v.data| && IsChain(v.fat, dch[1..]) && !HasVacant(v, cb, dch[0])
    ensures DirInsert(v, cb, dch, e) == DirInsert(v, cb, dch[1..], e)
    ensures InsertedChain(v, cb, dch) == [dch[0]] + InsertedChain(v, cb, dch[1..])
  {
    hide IsChain, VolumeShape, VacantFrom;
  }

  lemma InsertNew(v: Volume, cb: nat, dch: seq<nat>, e: Slot)
    requires VolumeShape(v, cb) && IsChain(v.fat, dch) && !HasVacant(v, cb, dch[0]) && |dch| == 1 && FreeList(v.fat) != []
    ensures 2 <= dch[0] < |v.data| == |v.fat| <= EOC && cb >= 32 && FreeList(v.fat)[0] < |v.fat|
    ensures DirInsert(v, cb, dch, e)
         == Outcome(PutCluster(FatTable.Given(v, dch[0], FreeList(v.fat)[0]), FreeList(v.fat)[0], e + Zeros(cb - 32)), 0)
    ensures InsertedChain(v, cb, dch) == [dch[0]] + [FreeList(v.fat)[0]] && dch == [dch[0]]
    ensures dch[0] != FreeList(v.fat)[0]
  {
    assert dch[0] in dch;
    ChainUsed(v.fat, dch, dch[0]);
  }

  lemma InsertNone(v: Volume, cb: nat, dch: seq<nat>, e: Slot)
    requires VolumeShape(v, cb) && IsChain(v.fat, dch) && !HasVacant(v, cb, dch[0]) && |dch| == 1 && FreeList(v.fat) == []
    ensures DirInsert(v, cb, dch, e) == Outcome(v, 2) && InsertedChain(v, cb, dch) == dch
  {
  }

  /** Only clusters of the (possibly extended) directory change. */
  lemma {:induction false} InsertKeeps(v: Volume, cb: nat, dch: seq<nat>, e: Slot)
    requires VolumeShape(v, cb) && IsChain(v.fat, dch)
    ensures VolumeShape(DirInsert(v, cb, dch, e).vol, cb)
    ensures Keeps(v, DirInsert(v, cb, dch, e).vol, InsertedChain(v, cb, dch))
    decreases |dch|
  {
    hide DirInsert, InsertedChain, VacantFrom;
    if HasVacant(v, cb, dch[0]) {
      InsertHere(v, cb, dch, e);
      PutBytesShape(v, cb, dch[0], 32 * VacantFrom(v.data[dch[0]], 0), e);
    } else if |dch| > 1 {
      InsertLater(v, cb, dch, e);
      InsertKeeps(v, cb, dch[1..], e);
    } else if FreeList(v.fat) != [] {
      InsertNew(v, cb, dch, e);
    } else {
      InsertNone(v, cb, dch, e);
    }
  }

  /** The table changes only when the directory is extended, and then by exactly one link. */
  lemma {:induction false} InsertFat(v: Volume, cb: nat, dch: seq<nat>, e: Slot)
    requires VolumeShape(v, cb) && IsChain(v.fat, dch)
    ensures InsertedChain(v, cb, dch) == dch ==> DirInsert(v, cb, dch, e).vol.fat == v.fat
    ensures InsertedChain(v, cb, dch) != dch ==>
              FreeList(v.fat) != [] && InsertedChain(v, cb, dch) == dch + [FreeList(v.fat)[0]]
              && DirInsert(v, cb, dch, e).vol.fat == Extend(v.fat, dch[|dch| - 1], FreeList(v.fat)[0])
    decreases |dch|
  {
    hide DirInsert, InsertedChain, VacantFrom;
    if HasVacant(v, cb, dch[0]) {
      InsertHere(v, cb, dch, e);
    } else if |dch| > 1 {
      InsertLater(v, cb, dch, e);
      InsertFat(v, cb, dch[1..], e);
    } else if FreeList(v.fat) != [] {
      InsertNew(v, cb, dch, e);
    } else {
      InsertNone(v, cb, dch, e);
    }
  }

  /** The directory's chain stays a chain. */
  lemma InsertChain(v: Volume, cb: nat, dch: seq<nat>, e: Slot)
    requires VolumeShape(v, cb) && IsChain(v.fat, dch)
    ensures IsChain(DirInsert(v, cb, dch, e).vol.fat, InsertedChain(v, cb, dch))
  {
    hide DirInsert, InsertedChain;
    InsertFat(v, cb, dch, e);
    if InsertedChain(v, cb, dch) != dch {
      ExtendChain(v.fat, dch, FreeList(v.fat)[0]);
    }
  }

  /** The insertion fails, with code 2 and no change, exactly when every slot is in use and no
      cluster is free; otherwise the code is 0. */
  lemma {:induction false} InsertCode(v: Volume, cb: nat, dch: seq<nat>, e: Slot)
    requires VolumeShape(v, cb) && IsChain(v.fat, dch)
    ensures DirInsert(v, cb, dch, e).code == 2 <==> FreeList(v.fat) == [] && FullDir(v, dch)
    ensures DirInsert(v, cb, dch, e).code in {0, 2}
    ensures DirInsert(v, cb, dch, e).code == 2 ==> DirInsert(v, cb, dch, e).vol == v
    decreases |dch|
  {
    hide DirInsert, InsertedChain;
    FullHead(v, cb, dch);
    if HasVacant(v, cb, dch[0]) {
      InsertHere(v, cb, dch, e);
    } else if |dch| > 1 {
      InsertLater(v, cb, dch, e);
      InsertCode(v, cb, dch[1..], e);
    } else if FreeList(v.fat) != [] {
      InsertNew(v, cb, dch, e);
    } else {
      InsertNone(v, cb, dch, e);
    }
  }

  lemma FullHead(v: Volume, cb: nat, dch: seq<nat>)
    requires VolumeShape(v, cb) && IsChain(v.fat, dch)
    ensures FullDir(v, dch) <==> !HasVacant(v, cb, dch[0]) && FullDir(v, dch[1..])
  {
    var bytes := v.data[dch[0]];
    assert FullCluster(bytes) <==> !HasVacant(v, cb, dch[0]) by {
      if HasVacant(v, cb, dch[0]) {
        assert Vacant(bytes, VacantFrom(bytes, 0));
      }
      if !HasVacant(v, cb, dch[0]) {
        forall j: nat | 32 * j + 32 <= |bytes| ensures !Vacant(bytes, j) {
          assert j < VacantFrom(bytes, 0);
        }
      }
    }
    forall i | 0 <= i < |dch[1..]| ensures dch[1..][i] == dch[i + 1] {}
    if FullDir(v, dch) { assert FullCluster(v.data[dch[0]]); }
    if !HasVacant(v, cb, dch[0]) && FullDir(v, dch[1..]) {
      forall i | 0 <= i < |dch| ensures FullCluster(v.data[dch[i]]) {
        if i > 0 { assert dch[i] == dch[1..][i - 1]; }
      }
    }
  }

  /** In a tidy directory a successful insertion adds exactly the new entry to the listing. */
  lemma {:induction false} InsertLists(v: Volume, cb: nat, dch: seq<nat>, e: Slot) returns (k: nat)
    requires VolumeShape(v, cb) && IsChain(v.fat, dch) && TidyDir(v, dch) && Listed(e)
    requires DirInsert(v, cb, dch, e).code == 0
    ensures FatContent.Fits(DirInsert(v, cb, dch, e).vol, InsertedChain(v, cb, dch))
    ensures Inserted(ListDir(v, dch), ListDir(DirInsert(v, cb, dch, e).vol, InsertedChain(v, cb, dch)), k, e)
    decreases |dch|, 1
  {
    hide DirInsert, InsertedChain, ListFrom, Splice, Listed, Tidy, IsChain, VacantFrom;
    var w := DirInsert(v, cb, dch, e).vol;
    ChainNonempty(v.fat, dch);
    TidyHead(v, dch);
    if HasVacant(v, cb, dch[0]) {
      var p := VacantFrom(v.data[dch[0]], 0);
      InsertHere(v, cb, dch, e);
      VacantNoStop(v.data[dch[0]]);
      k := ClusterInsert(v.data[dch[0]], p, e);
      ListFrame(v, w, dch[1..]);
      InsertedBehind(ListFrom(v.data[dch[0]], 0), ListFrom(w.data[dch[0]], 0), k, e, ListDir(v, dch[1..]));
    } else if |dch| > 1 {
      k := InsertListsLater(v, cb, dch, e);
    } else if FreeList(v.fat) != [] {
      k := InsertListsNew(v, cb, dch, e);
    } else {
      InsertNone(v, cb, dch, e);
      assert false;
    }
  }

  lemma TidyHead(v: Volume, dch: seq<nat>)
    requires TidyDir(v, dch) && dch != []
    ensures dch[0] < |v.data| && Tidy(v.data[dch[0]]) && TidyDir(v, dch[1..])
  {
  }

  lemma {:induction false} InsertListsLater(v: Volume, cb: nat, dch: seq<nat>, e: Slot) returns (k: nat)
    requires VolumeShape(v, cb) && IsChain(v.fat, dch) && TidyDir(v, dch) && Listed(e)
    requires DirInsert(v, cb, dch, e).code == 0 && !HasVacant(v, cb, dch[0]) && |dch| > 1
    ensures FatContent.Fits(DirInsert(v, cb, dch, e).vol, InsertedChain(v, cb, dch))
    ensures Inserted(ListDir(v, dch), ListDir(DirInsert(v, cb, dch, e).vol, InsertedChain(v, cb, dch)), k, e)
    decreases |dch|, 0
  {
    hide *;
    var w := DirInsert(v, cb, dch, e).vol;
    InsertLater(v, cb, dch, e);
    TidyHead(v, dch);
    k := InsertLists(v, cb, dch[1..], e);
    InsertKeeps(v, cb, dch[1..], e);
    var rest := InsertedChain(v, cb, dch[1..]);
    KeptOne(v, w, dch[0], rest);
    ListsOne(v, dch);
    ListsOneMore(w, dch[0], rest);
    InsertedBefore(ListFrom(v.data[dch[0]], 0), ListDir(v, dch[1..]), ListDir(w, rest), k, e);
    k := |ListFrom(v.data[dch[0]], 0)| + k;
  }

  lemma ListsOne(v: Volume, dch: seq<nat>)
    requires TidyDir(v, dch) && dch != []
    ensures FatContent.Fits(v, dch) && FatContent.Fits(v, dch[1..]) && 2 <= dch[0] < |v.data|
    ensures ListDir(v, dch) == ListFrom(v.data[dch[0]], 0) + ListDir(v, dch[1..])
  {
    hide ListFrom, Tidy;
  }

  lemma ListsOneMore(w: Volume, c: nat, rest: seq<nat>)
    requires FatContent.Fits(w, rest) && 2 <= c < |w.data|
    ensures FatContent.Fits(w, [c] + rest) && ListDir(w, [c] + rest) == ListFrom(w.data[c], 0) + ListDir(w, rest)
  {
    hide ListFrom;
    assert ([c] + rest)[1..] == rest;
  }

  lemma InsertListsNew(v: Volume, cb: nat, dch: seq<nat>, e: Slot) returns (k: nat)
    requires VolumeShape(v, cb) && IsChain(v.fat, dch) && Listed(e)
    requires !HasVacant(v, cb, dch[0]) && |dch| == 1 && FreeList(v.fat) != []
    ensures FatContent.Fits(DirInsert(v, cb, dch, e).vol, InsertedChain(v, cb, dch)) && FatContent.Fits(v, dch)
    ensures Inserted(ListDir(v, dch), ListDir(DirInsert(v, cb, dch, e).vol, InsertedChain(v, cb, dch)), k, e)
  {
    hide DirInsert, InsertedChain, ListFrom, Listed;
    InsertNew(v, cb, dch, e);
    var w, f := DirInsert(v, cb, dch, e).vol, FreeList(v.fat)[0];
    NewClusterList(e, cb);
    ListFrame(v, w, dch);
    ListJoin(w, dch, [f]);
    assert [f][1..] == [] && ListDir(w, []) == [];
    assert ListDir(w, [f]) == [e] + [];
    var l := ListDir(v, dch);
    k := |l|;
    assert l[..k] + [e] + l[k..] == l + [e];
  }

  // ----- finding what was inserted -----

  lemma {:induction false} FindSkips(bytes: seq<byte>, other: seq<byte>, j: nat, p: nat, name: seq<byte>)
    requires j <= p && 32 * p <= |bytes| && SameSlots(bytes, other, j, p) && NoStop(bytes, j, p)
    requires !FindFrom(bytes, j, name).Found?
    ensures FindFrom(other, j, name) == FindFrom(other, p, name)
    ensures FindFrom(bytes, j, name) == FindFrom(bytes, p, name)
    decreases p - j
  {
    if j < p {
      SameSlot(bytes, other, j, p, j);
      assert bytes[32 * j] == other[32 * j];
      FindSkips(bytes, other, j + 1, p, name);
    }
  }

  lemma FindInserted(bytes: seq<byte>, p: nat, e: Slot, name: seq<byte>)
    requires 32 * p + 32 <= |bytes| && NoStop(bytes, 0, p) && e[0] != 0 && e[0] != 0xE5 && StrnEq(e, name, 11)
    requires !FindFrom(bytes, 0, name).Found?
    ensures FindFrom(Splice(bytes, 32 * p, e), 0, name) == Found(p)
  {
    var b := Splice(bytes, 32 * p, e);
    FindSkips(bytes, b, 0, p, name);
    assert SlotAt(b, p) == e;
    assert b[32 * p] == e[0];
  }

  lemma FullFindPast(bytes: seq<byte>, name: seq<byte>)
    requires |bytes| % 32 == 0 && 32 * VacantFrom(bytes, 0) + 32 > |bytes| && !FindFrom(bytes, 0, name).Found?
    ensures FindFrom(bytes, 0, name) == Past
  {
    VacantNoStop(bytes);
    FindSkips(bytes, bytes, 0, VacantFrom(bytes, 0), name);
  }

  lemma NewClusterFind(e: Slot, cb: nat, name: seq<byte>)
    requires cb >= 32 && e[0] != 0 && e[0] != 0xE5 && StrnEq(e, name, 11)
    ensures FindFrom(e + Zeros(cb - 32), 0, name) == Found(0)
  {
    assert SlotAt(e + Zeros(cb - 32), 0) == e;
  }

  lemma InsertFindsHere(v: Volume, cb: nat, dch: seq<nat>, e: Slot, name: seq<byte>)
    requires VolumeShape(v, cb) && IsChain(v.fat, dch) && FatContent.Fits(v, dch)
    requires e[0] != 0 && e[0] != 0xE5 && StrnEq(e, name, 11)
    requires HasVacant(v, cb, dch[0]) && !DirHas(v, dch, name)
    ensures FatContent.Fits(DirInsert(v, cb, dch, e).vol, InsertedChain(v, cb, dch))
    ensures FoundAt(DirInsert(v, cb, dch, e).vol, InsertedChain(v, cb, dch), name, e)
  {
    hide DirInsert, InsertedChain, FindFrom, Splice, StrnEq, VacantFrom;
    InsertHere(v, cb, dch, e);
    var p, bytes := VacantFrom(v.data[dch[0]], 0), v.data[dch[0]];
    VacantNoStop(bytes);
    FindInserted(bytes, p, e, name);
    SlotWritten(bytes, p, e);
  }

  lemma InsertFindsNew(v: Volume, cb: nat, dch: seq<nat>, e: Slot, name: seq<byte>)
    requires VolumeShape(v, cb) && IsChain(v.fat, dch) && FatContent.Fits(v, dch)
    requires e[0] != 0 && e[0] != 0xE5 && StrnEq(e, name, 11)
    requires !HasVacant(v, cb, dch[0]) && |dch| == 1 && FreeList(v.fat) != [] && !DirHas(v, dch, name)
    ensures FatContent.Fits(DirInsert(v, cb, dch, e).vol, InsertedChain(v, cb, dch))
    ensures FoundAt(DirInsert(v, cb, dch, e).vol, InsertedChain(v, cb, dch), name, e)
  {
    InsertNew(v, cb, dch, e);
    var w, f := DirInsert(v, cb, dch, e).vol, FreeList(v.fat)[0];
    NotHas(v, cb, dch, name);
    FullFindPast(v.data[dch[0]], name);
    assert w.data[f] == e + Zeros(cb - 32) && w.data[dch[0]] == v.data[dch[0]];
    hide *;
    FoundAlone(w, f, cb, name, e);
    FoundLater(v, w, dch[0], [f], name, e);
  }

  lemma NotHas(v: Volume, cb: nat, dch: seq<nat>, name: seq<byte>)
    requires VolumeShape(v, cb) && IsChain(v.fat, dch) && FatContent.Fits(v, dch) && !DirHas(v, dch, name)
    ensures dch[0] < |v.data| && |v.data[dch[0]]| == cb && cb % 32 == 0
    ensures !FindFrom(v.data[dch[0]], 0, name).Found?
  {
    hide *;
    HeadShape(v, cb, dch);
    WholeSlots(v, cb);
    HeadNotFound(v, dch, name);
  }

  lemma WholeSlots(v: Volume, cb: nat)
    requires VolumeShape(v, cb)
    ensures cb % 32 == 0
  {
    hide VolumeShape;
    ShapeSectors(v, cb);
    assert cb == 32 * (16 * (cb / 512));
  }

  lemma ShapeSectors(v: Volume, cb: nat)
    requires VolumeShape(v, cb)
    ensures cb % 512 == 0
  {
  }

  lemma HeadNotFound(v: Volume, dch: seq<nat>, name: seq<byte>)
    requires FatContent.Fits(v, dch) && dch != [] && !DirHas(v, dch, name) && dch[0] < |v.data|
    ensures !FindFrom(v.data[dch[0]], 0, name).Found?
  {
    hide FindFrom, StrnEq;
  }

  lemma FoundAlone(w: Volume, f: nat, cb: nat, name: seq<byte>, e: Slot)
    requires 2 <= f < |w.data| && cb >= 32 && w.data[f] == e + Zeros(cb - 32)
    requires e[0] != 0 && e[0] != 0xE5 && StrnEq(e, name, 11)
    ensures FatContent.Fits(w, [f]) && FoundAt(w, [f], name, e)
  {
    NewClusterFind(e, cb, name);
    assert SlotAt(e + Zeros(cb - 32), 0) == e;
  }

  /** A name absent before is found at the inserted entry afterwards. */
  lemma {:induction false} InsertFinds(v: Volume, cb: nat, dch: seq<nat>, e: Slot, name: seq<byte>)
    requires VolumeShape(v, cb) && IsChain(v.fat, dch) && FatContent.Fits(v, dch)
    requires e[0] != 0 && e[0] != 0xE5 && StrnEq(e, name, 11)
    requires DirInsert(v, cb, dch, e).code == 0 && !DirHas(v, dch, name)
    ensures FatContent.Fits(DirInsert(v, cb, dch, e).vol, InsertedChain(v, cb, dch))
    ensures FoundAt(DirInsert(v, cb, dch, e).vol, InsertedChain(v, cb, dch), name, e)
    decreases |dch|
  {
    hide *;
    HeadCluster(v, cb, dch);
    if HasVacant(v, cb, dch[0]) {
      InsertFindsHere(v, cb, dch, e, name);
    } else if |dch| > 1 {
      InsertLater(v, cb, dch, e);
      NotHas(v, cb, dch, name);
      FullPastOne(v, cb, dch, name);
      InsertFinds(v, cb, dch[1..], e, name);
      InsertKeeps(v, cb, dch[1..], e);
      KeptOne(v, DirInsert(v, cb, dch, e).vol, dch[0], InsertedChain(v, cb, dch[1..]));
      FoundLater(v, DirInsert(v, cb, dch, e).vol, dch[0], InsertedChain(v, cb, dch[1..]), name, e);
    } else if FreeList(v.fat) != [] {
      InsertFindsNew(v, cb, dch, e, name);
    } else {
      InsertNone(v, cb, dch, e);
      assert false;
    }
  }

  lemma FullPastOne(v: Volume, cb: nat, dch: seq<nat>, name: seq<byte>)
    requires VolumeShape(v, cb) && IsChain(v.fat, dch) && FatContent.Fits(v, dch) && !DirHas(v, dch, name)
    requires !HasVacant(v, cb, dch[0])
    ensures FindFrom(v.data[dch[0]], 0, name) == Past
    ensures FatContent.Fits(v, dch[1..]) && !DirHas(v, dch[1..], name)
  {
    NotHas(v, cb, dch, name);
    FullFindPast(v.data[dch[0]], name);
  }

  lemma FoundLater(v: Volume, w: Volume, c: nat, rest: seq<nat>, name: seq<byte>, e: Slot)
    requires FatContent.Fits(w, rest) && 2 <= c < |v.data| == |w.data| && w.data[c] == v.data[c]
    requires FindFrom(v.data[c], 0, name) == Past && FoundAt(w, rest, name, e)
    ensures FatContent.Fits(w, [c] + rest) && FoundAt(w, [c] + rest, name, e)
  {
    assert ([c] + rest)[1..] == rest;
  }

  lemma SlotWritten(bytes: seq<byte>, p: nat, e: Slot)
    requires 32 * p + 32 <= |bytes|
    ensures SlotAt(Splice(bytes, 32 * p, e), p) == e
  {
  }

  ghost predicate DirHas(v: Volume, dch: seq<nat>, name: seq<byte>)
    requires FatContent.Fits(v, dch)
  {
    DirFind(v, dch, name).Place?
  }

  /** The search for `name` ends at a slot holding `e`. */
  ghost predicate FoundAt(v: Volume, dch: seq<nat>, name: seq<byte>, e: Slot)
    requires FatContent.Fits(v, dch)
  {
    DirHas(v, dch, name) && (var r := DirFind(v, dch, name); SlotAt(v.data[r.cluster], r.slot) == e)
  }
}
