// Create followed by unlink (lib/src/pifat.c, lines 405-627): the slot found is the slot filled,
// and the directory lists what it listed before.
module FatUndo {
  import opened Bytes
  import opened FatVolume
  import opened FatChains
  import opened FatFamily
  import opened FatContent
  import opened FatDir
  import opened FatDirLaws
  import opened FatCreate
  import opened FatRoundTrip
  import opened FatUnlink

  /** The slot an insertion fills: the first vacant one, or the first of a new cluster. */
  ghost function InsertPlace(v: Volume, cb: nat, dch: seq<nat>): Place
    requires VolumeShape(v, cb) && IsChain(v.fat, dch) && 2 <= |v.fat|
    decreases |dch|
  {
    if HasVacant(v, cb, dch[0]) then Place(dch[0], VacantFrom(v.data[dch[0]], 0))
    else if |dch| > 1 then
      ChainTail(v.fat, dch);
      InsertPlace(v, cb, dch[1..])
    else if FreeList(v.fat) == [] then Nowhere
    else Place(FreeList(v.fat)[0], 0)
  }

  lemma PlaceIs(v: Volume, cb: nat, dch: seq<nat>)
    requires VolumeShape(v, cb) && IsChain(v.fat, dch) && 2 <= |v.fat|
    ensures dch[0] < |v.data|
    ensures HasVacant(v, cb, dch[0]) ==> InsertPlace(v, cb, dch) == Place(dch[0], VacantFrom(v.data[dch[0]], 0))
    ensures !HasVacant(v, cb, dch[0]) && |dch| > 1 ==> IsChain(v.fat, dch[1..]) && InsertPlace(v, cb, dch) == InsertPlace(v, cb, dch[1..])
    ensures !HasVacant(v, cb, dch[0]) && |dch| == 1 && FreeList(v.fat) != [] ==> InsertPlace(v, cb, dch) == Place(FreeList(v.fat)[0], 0)
  {
    if |dch| > 1 { ChainTail(v.fat, dch); }
    hide HasVacant, FreeList;
  }

  // ----- the slot found is the slot filled -----

  lemma FoundHere(w: Volume, dch: seq<nat>, name: seq<byte>, p: nat)
    requires FatContent.Fits(w, dch) && dch != [] && FindFrom(w.data[dch[0]], 0, name) == Found(p)
    ensures DirFind(w, dch, name) == Place(dch[0], p)
  {
  }

  lemma FoundBehind(w: Volume, c: nat, rest: seq<nat>, name: seq<byte>)
    requires FatContent.Fits(w, rest) && 2 <= c < |w.data| && FindFrom(w.data[c], 0, name) == Past
    ensures FatContent.Fits(w, [c] + rest) && DirFind(w, [c] + rest, name) == DirFind(w, rest, name)
  {
    assert ([c] + rest)[1..] == rest;
  }

  lemma PlaceFoundHere(v: Volume, cb: nat, dch: seq<nat>, e: Slot, name: seq<byte>)
    requires VolumeShape(v, cb) && IsChain(v.fat, dch) && FatContent.Fits(v, dch) && 2 <= |v.fat|
    requires e[0] != 0 && e[0] != 0xE5 && StrnEq(e, name, 11) && HasVacant(v, cb, dch[0]) && !DirHas(v, dch, name)
    ensures InsertedChain(v, cb, dch) == dch && FatContent.Fits(DirInsert(v, cb, dch, e).vol, dch)
    ensures DirFind(DirInsert(v, cb, dch, e).vol, dch, name) == InsertPlace(v, cb, dch)
  {
    hide FindFrom, Splice, StrnEq, VacantFrom, DirFind, InsertPlace, InsertedChain, DirInsert, IsChain;
    PlaceIs(v, cb, dch);
    NotHas(v, cb, dch, name);
    InsertHere(v, cb, dch, e);
    var p, bytes := VacantFrom(v.data[dch[0]], 0), v.data[dch[0]];
    VacantNoStop(bytes);
    FindInserted(bytes, p, e, name);
    FoundHere(DirInsert(v, cb, dch, e).vol, dch, name, p);
  }

  lemma PlaceFoundNew(v: Volume, cb: nat, dch: seq<nat>, e: Slot, name: seq<byte>)
    requires VolumeShape(v, cb) && IsChain(v.fat, dch) && FatContent.Fits(v, dch) && 2 <= |v.fat|
    requires e[0] != 0 && e[0] != 0xE5 && StrnEq(e, name, 11) && !HasVacant(v, cb, dch[0]) && |dch| == 1 && FreeList(v.fat) != [] && !DirHas(v, dch, name)
    ensures FatContent.Fits(DirInsert(v, cb, dch, e).vol, InsertedChain(v, cb, dch))
    ensures DirFind(DirInsert(v, cb, dch, e).vol, InsertedChain(v, cb, dch), name) == InsertPlace(v, cb, dch)
  {
    hide FindFrom, StrnEq, VacantFrom, DirFind, InsertPlace, InsertedChain, DirInsert, IsChain, FreeList, HasVacant, DirHas;
    PlaceIs(v, cb, dch);
    InsertNew(v, cb, dch, e);
    FullPastOne(v, cb, dch, name);
    NewClusterFind(e, cb, name);
    FreeListHead(v.fat);
    var w, f := DirInsert(v, cb, dch, e).vol, FreeList(v.fat)[0];
    FoundHere(w, [f], name, 0);
    FoundBehind(w, dch[0], [f], name);
  }

  /** A search for the name just inserted ends at the very slot the insertion filled. */
  lemma {:induction false} PlaceFound(v: Volume, cb: nat, dch: seq<nat>, e: Slot, name: seq<byte>)
    requires VolumeShape(v, cb) && IsChain(v.fat, dch) && FatContent.Fits(v, dch) && 2 <= |v.fat|
    requires e[0] != 0 && e[0] != 0xE5 && StrnEq(e, name, 11)
    requires DirInsert(v, cb, dch, e).code == 0 && !DirHas(v, dch, name)
    ensures FatContent.Fits(DirInsert(v, cb, dch, e).vol, InsertedChain(v, cb, dch))
    ensures DirFind(DirInsert(v, cb, dch, e).vol, InsertedChain(v, cb, dch), name) == InsertPlace(v, cb, dch)
    decreases |dch|
  {
    hide *;
    HeadCluster(v, cb, dch);
    PlaceIs(v, cb, dch);
    if HasVacant(v, cb, dch[0]) {
      PlaceFoundHere(v, cb, dch, e, name);
    } else if |dch| > 1 {
      InsertLater(v, cb, dch, e);
      FullPastOne(v, cb, dch, name);
      PlaceFound(v, cb, dch[1..], e, name);
      InsertKeeps(v, cb, dch[1..], e);
      KeptOne(v, DirInsert(v, cb, dch, e).vol, dch[0], InsertedChain(v, cb, dch[1..]));
      FoundBehind(DirInsert(v, cb, dch, e).vol, dch[0], InsertedChain(v, cb, dch[1..]), name);
    } else if FreeList(v.fat) != [] {
      PlaceFoundNew(v, cb, dch, e, name);
    } else {
      InsertNone(v, cb, dch, e);
      assert false;
    }
  }

  // ----- the listing comes back -----

  /** In a tidy cluster, filling the first vacant slot and deleting it again changes no listing. */
  lemma ClusterUndo(bytes: seq<byte>, p: nat, e: Slot)
    requires 32 * p + 32 <= |bytes| && p == VacantFrom(bytes, 0) && Tidy(bytes)
    ensures ListFrom(Splice(Splice(bytes, 32 * p, e), 32 * p, [0xE5]), 0) == ListFrom(bytes, 0)
  {
    hide ListFrom, ListUpto, Listed, Splice, NoStop, VacantFrom, Tidy;
    var x: Slot := e[0 := 0xE5];
    var b := Splice(bytes, 32 * p, x);
    TwiceWritten(bytes, p, e);
    VacantNoStop(bytes);
    ListAround(bytes, p, x);
    VacantStep(b, p);
    VacantStep(bytes, p);
    if bytes[32 * p] == 0 { BehindNeverUsed(bytes, p); }
  }

  lemma TwiceWritten(bytes: seq<byte>, p: nat, e: Slot)
    requires 32 * p + 32 <= |bytes|
    ensures Splice(Splice(bytes, 32 * p, e), 32 * p, [0xE5]) == Splice(bytes, 32 * p, e[0 := 0xE5])
    ensures Splice(bytes, 32 * p, e[0 := 0xE5])[32 * p] == 0xE5
  {
    var a, b := Splice(Splice(bytes, 32 * p, e), 32 * p, [0xE5]), Splice(bytes, 32 * p, e[0 := 0xE5]);
    hide Splice;
    assert forall k :: 0 <= k < |bytes| ==> a[k] == b[k];
  }

  lemma BehindNeverUsed(bytes: seq<byte>, p: nat)
    requires Tidy(bytes) && NeverUsed(bytes, p)
    ensures ListFrom(bytes, p + 1) == []
  {
    if 32 * (p + 1) + 32 <= |bytes| { assert NeverUsed(bytes, p + 1); }
  }

  lemma NewClusterUndo(e: Slot, cb: nat)
    requires cb >= 32
    ensures ListFrom(Splice(e + Zeros(cb - 32), 0, [0xE5]), 0) == []
  {
    var b := Splice(e + Zeros(cb - 32), 0, [0xE5]);
    assert b[0] == 0xE5;
    assert SlotAt(b, 0)[0] == 0xE5;
    if cb >= 64 { assert SlotAt(b, 1)[0] == 0; }
    assert ListFrom(b, 1) == [];
  }

  lemma UndoHere(v: Volume, cb: nat, dch: seq<nat>, e: Slot, u: Volume)
    requires VolumeShape(v, cb) && IsChain(v.fat, dch) && TidyDir(v, dch) && 2 <= |v.fat| && HasVacant(v, cb, dch[0])
    requires Marked(DirInsert(v, cb, dch, e).vol, u, dch[0], VacantFrom(v.data[dch[0]], 0))
    ensures InsertedChain(v, cb, dch) == dch && FatContent.Fits(u, dch) && ListDir(u, dch) == ListDir(v, dch)
  {
    hide ListFrom, VacantFrom, Splice, InsertedChain, DirInsert, IsChain, Tidy, ListDir;
    InsertHere(v, cb, dch, e);
    TidyHead(v, dch);
    ListsOne(v, dch);
    var c, p := dch[0], VacantFrom(v.data[dch[0]], 0);
    MarkedBytes(DirInsert(v, cb, dch, e).vol, u, c, p);
    ClusterUndo(v.data[c], p, e);
    ListFrame(v, u, dch[1..]);
    ListsOneMore(u, c, dch[1..]);
  }

  lemma UndoNew(v: Volume, cb: nat, dch: seq<nat>, e: Slot, u: Volume)
    requires VolumeShape(v, cb) && IsChain(v.fat, dch) && TidyDir(v, dch) && 2 <= |v.fat| && !HasVacant(v, cb, dch[0]) && |dch| == 1 && FreeList(v.fat) != []
    requires Marked(DirInsert(v, cb, dch, e).vol, u, FreeList(v.fat)[0], 0)
    ensures FatContent.Fits(u, InsertedChain(v, cb, dch)) && ListDir(u, InsertedChain(v, cb, dch)) == ListDir(v, dch)
  {
    hide ListFrom, VacantFrom, Splice, InsertedChain, DirInsert, IsChain, Tidy, FreeList, HasVacant;
    InsertNew(v, cb, dch, e);
    FreeListHead(v.fat);
    var c, f := dch[0], FreeList(v.fat)[0];
    MarkedBytes(DirInsert(v, cb, dch, e).vol, u, f, 0);
    NewClusterUndo(e, cb);
    assert ListDir(u, []) == [];
    ListsOneMore(u, f, []);
    assert [f] + [] == [f];
    ListsOneMore(u, c, [f]);
    ListsOneMore(v, c, []);
    assert dch == [c] + [] && ListDir(v, []) == [];
  }

  lemma {:induction false} UndoLists(v: Volume, cb: nat, dch: seq<nat>, e: Slot, u: Volume)
    requires VolumeShape(v, cb) && IsChain(v.fat, dch) && TidyDir(v, dch) && 2 <= |v.fat| && DirInsert(v, cb, dch, e).code == 0
    requires var q := InsertPlace(v, cb, dch); q.Place? && Marked(DirInsert(v, cb, dch, e).vol, u, q.cluster, q.slot)
    ensures FatContent.Fits(u, InsertedChain(v, cb, dch)) && ListDir(u, InsertedChain(v, cb, dch)) == ListDir(v, dch)
    decreases |dch|
  {
    hide *;
    HeadCluster(v, cb, dch);
    PlaceIs(v, cb, dch);
    if HasVacant(v, cb, dch[0]) {
      UndoHere(v, cb, dch, e, u);
    } else if |dch| > 1 {
      UndoLater(v, cb, dch, e, u);
      UndoLists(v, cb, dch[1..], e, u);
      ListsOne(v, dch);
      ListsOneMore(u, dch[0], InsertedChain(v, cb, dch[1..]));
    } else if FreeList(v.fat) != [] {
      UndoNew(v, cb, dch, e, u);
    } else {
      InsertNone(v, cb, dch, e);
      assert false;
    }
  }

  /** What lies before the slot is untouched. */
  lemma UndoLater(v: Volume, cb: nat, dch: seq<nat>, e: Slot, u: Volume)
    requires VolumeShape(v, cb) && IsChain(v.fat, dch) && TidyDir(v, dch) && 2 <= |v.fat| && !HasVacant(v, cb, dch[0]) && |dch| > 1
    requires var q := InsertPlace(v, cb, dch); q.Place? && Marked(DirInsert(v, cb, dch, e).vol, u, q.cluster, q.slot)
    requires DirInsert(v, cb, dch, e).code == 0
    ensures IsChain(v.fat, dch[1..]) && TidyDir(v, dch[1..]) && InsertedChain(v, cb, dch) == [dch[0]] + InsertedChain(v, cb, dch[1..])
    ensures DirInsert(v, cb, dch, e) == DirInsert(v, cb, dch[1..], e) && InsertPlace(v, cb, dch) == InsertPlace(v, cb, dch[1..])
    ensures 2 <= dch[0] < |u.data| && u.data[dch[0]] == v.data[dch[0]]
  {
    hide *;
    PlaceIs(v, cb, dch);
    HeadCluster(v, cb, dch);
    InsertLater(v, cb, dch, e);
    TidyHead(v, dch);
    InsertKeeps(v, cb, dch[1..], e);
    KeptOne(v, DirInsert(v, cb, dch, e).vol, dch[0], InsertedChain(v, cb, dch[1..]));
    PlaceIn(v, cb, dch[1..], e);
    var q := InsertPlace(v, cb, dch);
    MarkedBytes(DirInsert(v, cb, dch, e).vol, u, q.cluster, q.slot);
  }

  lemma {:induction false} PlaceIn(v: Volume, cb: nat, dch: seq<nat>, e: Slot)
    requires VolumeShape(v, cb) && IsChain(v.fat, dch) && 2 <= |v.fat| && DirInsert(v, cb, dch, e).code == 0
    ensures InsertPlace(v, cb, dch).Place? && InsertPlace(v, cb, dch).cluster in InsertedChain(v, cb, dch)
    decreases |dch|
  {
    hide *;
    HeadCluster(v, cb, dch);
    PlaceIs(v, cb, dch);
    if HasVacant(v, cb, dch[0]) {
      InsertHere(v, cb, dch, e);
    } else if |dch| > 1 {
      InsertLater(v, cb, dch, e);
      PlaceIn(v, cb, dch[1..], e);
    } else if FreeList(v.fat) != [] {
      InsertNew(v, cb, dch, e);
    } else {
      InsertNone(v, cb, dch, e);
      assert false;
    }
  }

  /** Creating a file under a fresh name and unlinking it gives back the directory's listing,
      entry for entry and in order. */
  lemma CreateThenUnlinkLists(v: Volume, cb: nat, fam: set<seq<nat>>, dch: seq<nat>, data: seq<byte>, name: seq<byte>)
    requires CanCreate(v, cb, dch, data, name) && Family(v.fat, fam) && dch in fam && TidyDir(v, dch)
    requires name[0] != 0 && name[0] != 0xE5 && FatContent.Fits(v, dch) && !DirHas(v, dch, name)
    ensures |FreeList(v.fat)| >= ClustersFor(|data|, cb) && Sound(Create(v, cb, dch, data, name).vol, NewDir(v, cb, dch, data), name)
    ensures var u := Unlink(Create(v, cb, dch, data, name).vol, NewDir(v, cb, dch, data), name).vol; FatContent.Fits(u, NewDir(v, cb, dch, data)) && ListDir(u, NewDir(v, cb, dch, data)) == ListDir(v, dch)
  {
    hide *;
    CanCreateParts(v, cb, dch, data, name);
    CreateInserts(v, cb, dch, data, name);
    CreatedShape(v, cb, dch, data, name);
    CreateFinds(v, cb, fam, dch, data, name);
    NewDirIs(v, cb, dch, data);
    var cl := NewFile(v, cb, |data|);
    FilledKeeps(v, cb, dch, cl, data);
    var w, e := Filled(v, cb, cl, data), NewEntry(name, cl[0], |data|);
    NewEntryListed(name, cl[0], |data|);
    ListedUsed(e);
    UntouchedDir(v, w, cl, dch);
    StillNot(v, w, dch, name);
    PlaceFound(w, cb, dch, e, name);
    var t, dir := Create(v, cb, dch, data, name).vol, NewDir(v, cb, dch, data);
    UnlinkMarks(t, cb, dir, name);
    UndoLists(w, cb, dch, e, Unlink(t, dir, name).vol);
  }

  lemma ListedUsed(e: Slot)
    requires Listed(e)
    ensures e[0] != 0 && e[0] != 0xE5
  {
  }

  lemma StillNot(v: Volume, w: Volume, dch: seq<nat>, name: seq<byte>)
    requires FatContent.Fits(v, dch) && FatContent.Fits(w, dch) && DirFind(w, dch, name) == DirFind(v, dch, name) && !DirHas(v, dch, name)
    ensures !DirHas(w, dch, name)
  {
  }
}
