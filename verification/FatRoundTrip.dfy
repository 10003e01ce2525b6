// Create, list, read back, unlink: the file-level laws of lib/src/pifat.c.
module FatRoundTrip {
  import opened Bytes
  import opened FatVolume
  import opened FatChains
  import opened FatFamily
  import opened FatContent
  import opened FatDir
  import opened FatDirLaws
  import opened FatCreate
  import FatTable

  /** The clusters a successful create takes. */
  function NewFile(v: Volume, cb: nat, size: u32): seq<nat>
    requires |v.fat| >= 2 && cb > 0
  {
    var n := ClustersFor(size, cb);
    if n <= |FreeList(v.fat)| then FreeList(v.fat)[..n] else FreeList(v.fat)
  }

  /** The directory's chain after a successful create. */
  ghost function NewDir(v: Volume, cb: nat, dch: seq<nat>, data: seq<byte>): seq<nat>
    requires VolumeShape(v, cb) && IsChain(v.fat, dch) && |data| < TWO32
    requires |FreeList(v.fat)| >= ClustersFor(|data|, cb)
  {
    var cl := NewFile(v, cb, |data|);
    FilledKeeps(v, cb, dch, cl, data);
    InsertedChain(Filled(v, cb, cl, data), cb, dch)
  }

  ghost predicate CanCreate(v: Volume, cb: nat, dch: seq<nat>, data: seq<byte>, name: seq<byte>) {
    && VolumeShape(v, cb) && IsChain(v.fat, dch) && |data| < TWO32 && |name| >= 11
    && Create(v, cb, dch, data, name).code == 0
  }

  /** A create that answers 0 went through the insertion of its entry. */
  lemma CreateInserts(v: Volume, cb: nat, dch: seq<nat>, data: seq<byte>, name: seq<byte>)
    requires CanCreate(v, cb, dch, data, name)
    ensures |FreeList(v.fat)| >= ClustersFor(|data|, cb)
    ensures var cl := NewFile(v, cb, |data|); cl != [] && cl == FreeList(v.fat)[..|cl|] && |data| <= |cl| * cb && 2 <= cl[0] < |v.fat| <= EOC
    ensures var cl := NewFile(v, cb, |data|); VolumeShape(Filled(v, cb, cl, data), cb) && IsChain(Filled(v, cb, cl, data).fat, dch)
    ensures var cl := NewFile(v, cb, |data|); Create(v, cb, dch, data, name) == DirInsert(Filled(v, cb, cl, data), cb, dch, NewEntry(name, cl[0], |data|))
  {
    var cl := NewFile(v, cb, |data|);
    FilledKeeps(v, cb, dch, cl, data);
  }

  // ----- the chains -----

  /** A successful create adds one chain to the family and at most extends the directory's. */
  lemma CreateFamily(v: Volume, cb: nat, fam: set<seq<nat>>, dch: seq<nat>, data: seq<byte>, name: seq<byte>)
    requires CanCreate(v, cb, dch, data, name) && Family(v.fat, fam) && dch in fam
    ensures |FreeList(v.fat)| >= ClustersFor(|data|, cb)
    ensures Family(Create(v, cb, dch, data, name).vol.fat, fam - {dch} + {NewDir(v, cb, dch, data)} + {NewFile(v, cb, |data|)})
  {
    hide *;
    CanCreateParts(v, cb, dch, data, name);
    CreateInserts(v, cb, dch, data, name);
    var cl := NewFile(v, cb, |data|);
    var w := Filled(v, cb, cl, data);
    FilledKeeps(v, cb, dch, cl, data);
    NewClusters(v.fat, cl);
    FamilyNew(v.fat, fam, cl);
    NotTheFile(dch, cl);
    InsertFamily(w, cb, fam, dch, cl, NewEntry(name, cl[0], |data|));
    NewDirIs(v, cb, dch, data);
  }

  lemma CanCreateParts(v: Volume, cb: nat, dch: seq<nat>, data: seq<byte>, name: seq<byte>)
    requires CanCreate(v, cb, dch, data, name)
    ensures VolumeShape(v, cb) && IsChain(v.fat, dch) && |data| < TWO32 && |data| < 0x1_0000_0000 && |name| >= 11 && 2 <= |v.fat| && cb > 0 && dch != []
    ensures |NewFile(v, cb, |data|)| <= |FreeList(v.fat)|
    ensures Create(v, cb, dch, data, name).code == 0
  {
  }

  lemma NotTheFile(dch: seq<nat>, cl: seq<nat>)
    requires Apart(dch, cl) && cl != []
    ensures dch != cl
  {
    assert cl[0] in cl;
  }

  /** The entry's insertion at most extends the directory's chain. */
  lemma InsertFamily(w: Volume, cb: nat, fam: set<seq<nat>>, dch: seq<nat>, cl: seq<nat>, e: Slot)
    requires VolumeShape(w, cb) && IsChain(w.fat, dch) && Family(w.fat, fam + {cl}) && dch in fam && dch != cl
    ensures Family(DirInsert(w, cb, dch, e).vol.fat, fam - {dch} + {InsertedChain(w, cb, dch)} + {cl})
  {
    hide Family, DirInsert, InsertedChain, FreeList;
    InsertFat(w, cb, dch, e);
    var dir := InsertedChain(w, cb, dch);
    if dir == dch {
      assert fam + {cl} == fam - {dch} + {dir} + {cl};
    } else {
      FreeListHead(w.fat);
      FamilyExtend(w.fat, fam + {cl}, dch, FreeList(w.fat)[0]);
      assert fam + {cl} - {dch} + {dir} == fam - {dch} + {dir} + {cl};
    }
  }

  lemma FreeListHead(fat: Fat)
    requires |fat| >= 2 && FreeList(fat) != []
    ensures 2 <= FreeList(fat)[0] < |fat| && IsFree(fat, FreeList(fat)[0])
  {
  }

  lemma NewDirIs(v: Volume, cb: nat, dch: seq<nat>, data: seq<byte>)
    requires VolumeShape(v, cb) && IsChain(v.fat, dch) && |data| < 0x1_0000_0000
    requires |FreeList(v.fat)| >= ClustersFor(|data|, cb)
    ensures NewFile(v, cb, |data|) == FreeList(v.fat)[..|NewFile(v, cb, |data|)|]
    ensures VolumeShape(Filled(v, cb, NewFile(v, cb, |data|), data), cb)
    ensures IsChain(Filled(v, cb, NewFile(v, cb, |data|), data).fat, dch)
    ensures NewDir(v, cb, dch, data) == InsertedChain(Filled(v, cb, NewFile(v, cb, |data|), data), cb, dch)
  {
    FilledKeeps(v, cb, dch, NewFile(v, cb, |data|), data);
  }

  // ----- the bytes -----

  /** The new file and the directory share no cluster. */
  lemma NewFileApart(v: Volume, cb: nat, dch: seq<nat>, data: seq<byte>, name: seq<byte>)
    requires CanCreate(v, cb, dch, data, name)
    ensures |FreeList(v.fat)| >= ClustersFor(|data|, cb)
    ensures Apart(NewDir(v, cb, dch, data), NewFile(v, cb, |data|))
  {
    hide *;
    CanCreateParts(v, cb, dch, data, name);
    CreateInserts(v, cb, dch, data, name);
    NewDirIs(v, cb, dch, data);
    var cl := NewFile(v, cb, |data|);
    var w := Filled(v, cb, cl, data);
    FilledKeeps(v, cb, dch, cl, data);
    InsertFat(w, cb, dch, NewEntry(name, cl[0], |data|));
    if NewDir(v, cb, dch, data) != dch { ExtendedApart(w.fat, cl, dch); }
  }

  lemma ExtendedApart(fat: Fat, cl: seq<nat>, dch: seq<nat>)
    requires 2 <= |fat| && IsChain(fat, cl) && FreeList(fat) != [] && Apart(dch, cl)
    ensures Apart(dch + [FreeList(fat)[0]], cl)
  {
    hide FreeList;
    FreeListHead(fat);
    if FreeList(fat)[0] in cl { ChainUsed(fat, cl, FreeList(fat)[0]); }
  }

  /** Clusters outside the new file and the directory keep their entries and their bytes. */
  lemma CreateKeeps(v: Volume, cb: nat, dch: seq<nat>, data: seq<byte>, name: seq<byte>)
    requires CanCreate(v, cb, dch, data, name)
    ensures |FreeList(v.fat)| >= ClustersFor(|data|, cb)
    ensures VolumeShape(Create(v, cb, dch, data, name).vol, cb)
    ensures Keeps(v, Create(v, cb, dch, data, name).vol, NewFile(v, cb, |data|) + NewDir(v, cb, dch, data))
  {
    CreateInserts(v, cb, dch, data, name);
    var cl := NewFile(v, cb, |data|);
    var w := Filled(v, cb, cl, data);
    FilledKeeps(v, cb, dch, cl, data);
    InsertKeeps(w, cb, dch, NewEntry(name, cl[0], |data|));
    KeepsBoth(v, w, Create(v, cb, dch, data, name).vol, cl, NewDir(v, cb, dch, data));
  }

  lemma KeepsBoth(v: Volume, v1: Volume, w: Volume, a: seq<nat>, b: seq<nat>)
    requires Keeps(v, v1, a) && Keeps(v1, w, b)
    ensures Keeps(v, w, a + b)
  {
    forall d | 0 <= d < |v.fat| && d !in a + b ensures w.fat[d] == v.fat[d] && w.data[d] == v.data[d] {
      assert d !in a && d !in b;
    }
  }

  /** The new chain reads back as the data, for every size. */
  lemma CreateReadsBack(v: Volume, cb: nat, dch: seq<nat>, data: seq<byte>, name: seq<byte>)
    requires CanCreate(v, cb, dch, data, name)
    ensures var w := Create(v, cb, dch, data, name).vol; IsChain(w.fat, NewFile(v, cb, |data|)) && FatContent.Fits(w, NewFile(v, cb, |data|))
    ensures data <= Content(Create(v, cb, dch, data, name).vol, NewFile(v, cb, |data|))
  {
    hide *;
    CanCreateParts(v, cb, dch, data, name);
    CreateInserts(v, cb, dch, data, name);
    var cl := NewFile(v, cb, |data|);
    var w := Filled(v, cb, cl, data);
    FilledKeeps(v, cb, dch, cl, data);
    NewClusters(v.fat, cl);
    FilledContent(v, cb, dch, cl, data);
    NewDirIs(v, cb, dch, data);
    NewFileApart(v, cb, dch, data, name);
    InsertKeeps(w, cb, dch, NewEntry(name, cl[0], |data|));
    var u := Create(v, cb, dch, data, name).vol;
    AwayFrom(w, u, cl, NewDir(v, cb, dch, data));
  }

  lemma FilledContent(v: Volume, cb: nat, dch: seq<nat>, cl: seq<nat>, data: seq<byte>)
    requires VolumeShape(v, cb) && IsChain(v.fat, dch) && |data| <= |cl| * cb
    requires |cl| <= |FreeList(v.fat)| && cl == FreeList(v.fat)[..|cl|] && cl != []
    ensures FatContent.Fits(Filled(v, cb, cl, data), cl) && data <= Content(Filled(v, cb, cl, data), cl)
  {
    hide LinkNew, WriteNew, Content, FreeList, Distinct;
    NewClusters(v.fat, cl);
    WriteNewContent(v.(fat := LinkNew(v.fat, cl, |cl|)), cb, cl, data);
  }

  lemma AwayFrom(w: Volume, u: Volume, cl: seq<nat>, dir: seq<nat>)
    requires Keeps(w, u, dir) && Apart(dir, cl) && IsChain(w.fat, cl) && FatContent.Fits(w, cl)
    ensures IsChain(u.fat, cl) && FatContent.Fits(u, cl) && Content(u, cl) == Content(w, cl)
  {
    forall c | c in cl ensures c !in dir && c < |w.fat| && w.fat[c] == u.fat[c] && w.data[c] == u.data[c] {
      ChainUsed(w.fat, cl, c);
    }
    ChainFrame(w.fat, u.fat, cl);
    ContentFrame(w, u, cl);
  }

  // ----- the listing -----

  /** In a tidy directory the listing gains exactly the new file's entry. */
  lemma CreateLists(v: Volume, cb: nat, dch: seq<nat>, data: seq<byte>, name: seq<byte>) returns (k: nat, e: Slot)
    requires CanCreate(v, cb, dch, data, name) && TidyDir(v, dch) && name[0] != 0 && name[0] != FREE
    ensures |FreeList(v.fat)| >= ClustersFor(|data|, cb)
    ensures FatContent.Fits(Create(v, cb, dch, data, name).vol, NewDir(v, cb, dch, data))
    ensures Inserted(ListDir(v, dch), ListDir(Create(v, cb, dch, data, name).vol, NewDir(v, cb, dch, data)), k, e)
    ensures e == NewEntry(name, NewFile(v, cb, |data|)[0], |data|)
    ensures e[..11] == name[..11] && FileSize(e) == |data| && StartCluster(e) == NewFile(v, cb, |data|)[0]
  {
    CreateInserts(v, cb, dch, data, name);
    var cl := NewFile(v, cb, |data|);
    var w := Filled(v, cb, cl, data);
    FilledKeeps(v, cb, dch, cl, data);
    e := NewEntry(name, cl[0], |data|);
    NewEntryListed(name, cl[0], |data|);
    UntouchedDir(v, w, cl, dch);
    k := InsertLists(w, cb, dch, e);
  }

  lemma NewEntryListed(name: seq<byte>, start: u32, size: u32)
    requires |name| >= 11 && name[0] != 0 && name[0] != 0xE5
    ensures Listed(NewEntry(name, start, size)) && NewEntry(name, start, size)[0] == name[0]
    ensures StrnEq(NewEntry(name, start, size), name, 11)
  {
    var e := NewEntry(name, start, size);
    assert e[..11][0] == name[..11][0];
    StrnEqSame(e, name, 11);
  }

  lemma UntouchedDir(v: Volume, w: Volume, cl: seq<nat>, dch: seq<nat>)
    requires Keeps(v, w, cl) && Apart(dch, cl) && IsChain(v.fat, dch)
    ensures FatContent.Fits(v, dch) && FatContent.Fits(w, dch)
    ensures ListDir(w, dch) == ListDir(v, dch)
    ensures TidyDir(v, dch) ==> TidyDir(w, dch)
    ensures forall name :: DirFind(w, dch, name) == DirFind(v, dch, name)
  {
    forall c | c in dch ensures c < |v.data| && v.data[c] == w.data[c] {
      ChainUsed(v.fat, dch, c);
    }
    ListFrame(v, w, dch);
    forall name ensures DirFind(w, dch, name) == DirFind(v, dch, name) {
      FindFrame(v, w, dch, name);
    }
    forall i | 0 <= i < |dch| ensures v.data[dch[i]] == w.data[dch[i]] { assert dch[i] in dch; }
  }

  lemma {:induction false} FindFrame(v: Volume, w: Volume, dch: seq<nat>, name: seq<byte>)
    requires FatContent.Fits(v, dch) && |v.data| == |w.data|
    requires forall c :: c in dch ==> v.data[c] == w.data[c]
    ensures FatContent.Fits(w, dch) && DirFind(v, dch, name) == DirFind(w, dch, name)
  {
    if dch != [] {
      assert dch[0] in dch;
      FindFrame(v, w, dch[1..], name);
    }
  }

  // ----- unlink and update -----

  /** The entry a search for `name` ends at links to a cluster of the table, or nowhere. */
  ghost predicate Sound(v: Volume, dch: seq<nat>, name: seq<byte>) {
    && FatContent.Fits(v, dch) && InRange(v.fat)
    && (DirHas(v, dch, name) ==> IsLink(v.fat, StartCluster(EntryAt(v, DirFind(v, dch, name)))))
  }

  function EntryAt(v: Volume, p: Place): Slot
    requires p.Place? && p.cluster < |v.data| && 32 * p.slot + 32 <= |v.data[p.cluster]|
  {
    SlotAt(v.data[p.cluster], p.slot)
  }

  /** `fat32_unlink_file`: the chain is freed, then the slot is marked deleted. */
  ghost function Unlink(v: Volume, dch: seq<nat>, name: seq<byte>): Outcome
    requires Sound(v, dch, name)
  {
    var p := DirFind(v, dch, name);
    if p.Nowhere? then Outcome(v, -1)
    else Outcome(PutBytes(v.(fat := FreeChain(v.fat, StartCluster(EntryAt(v, p)))), p.cluster, 32 * p.slot, [FREE]), 0)
  }

  /** `fat32_update_dirent`. */
  ghost function Update(v: Volume, dch: seq<nat>, name: seq<byte>, e: Slot): Outcome
    requires FatContent.Fits(v, dch)
  {
    var p := DirFind(v, dch, name);
    if p.Nowhere? then Outcome(v, -1) else Outcome(PutBytes(v, p.cluster, 32 * p.slot, e), 0)
  }

  lemma CreateFinds(v: Volume, cb: nat, fam: set<seq<nat>>, dch: seq<nat>, data: seq<byte>, name: seq<byte>)
    requires CanCreate(v, cb, dch, data, name) && Family(v.fat, fam) && dch in fam
    requires name[0] != 0 && name[0] != 0xE5 && FatContent.Fits(v, dch) && !DirHas(v, dch, name)
    ensures |FreeList(v.fat)| >= ClustersFor(|data|, cb)
    ensures Sound(Create(v, cb, dch, data, name).vol, NewDir(v, cb, dch, data), name)
    ensures DirHas(Create(v, cb, dch, data, name).vol, NewDir(v, cb, dch, data), name)
    ensures var w := Create(v, cb, dch, data, name).vol; StartCluster(EntryAt(w, DirFind(w, NewDir(v, cb, dch, data), name))) == NewFile(v, cb, |data|)[0]
    ensures var w := Create(v, cb, dch, data, name).vol; EntryAt(w, DirFind(w, NewDir(v, cb, dch, data), name)) == NewEntry(name, NewFile(v, cb, |data|)[0], |data|)
  {
    CreateInserts(v, cb, dch, data, name);
    var cl := NewFile(v, cb, |data|);
    var w := Filled(v, cb, cl, data);
    FilledKeeps(v, cb, dch, cl, data);
    var e := NewEntry(name, cl[0], |data|);
    NewEntryListed(name, cl[0], |data|);
    UntouchedDir(v, w, cl, dch);
    InsertFinds(w, cb, dch, e, name);
    CreateFamily(v, cb, fam, dch, data, name);
    FamilyInRange(Create(v, cb, dch, data, name).vol.fat, fam - {dch} + {NewDir(v, cb, dch, data)} + {cl});
    InsertKeeps(w, cb, dch, e);
  }

  /** The link fields of both tables agree outside `except`. */
  ghost predicate SameLinks(fat: Fat, gat: Fat, except: set<nat>) {
    |fat| == |gat| && forall c :: 2 <= c < |fat| && c !in except ==> Next(gat, c) == Next(fat, c)
  }

  /** The clusters whose links a create changed to extend the directory. */
  ghost function Extension(dch: seq<nat>, dir: seq<nat>): set<nat>
    requires dch != [] && dir != []
  {
    if dir == dch then {} else {dch[|dch| - 1], dir[|dir| - 1]}
  }

  /** Unlinking the file just created restores every link except those that extended the directory. */
  lemma CreateThenUnlink(v: Volume, cb: nat, fam: set<seq<nat>>, dch: seq<nat>, data: seq<byte>, name: seq<byte>)
    requires CanCreate(v, cb, dch, data, name) && Family(v.fat, fam) && dch in fam
    requires name[0] != 0 && name[0] != 0xE5 && FatContent.Fits(v, dch) && !DirHas(v, dch, name)
    ensures |FreeList(v.fat)| >= ClustersFor(|data|, cb) && NewDir(v, cb, dch, data) != []
    ensures Sound(Create(v, cb, dch, data, name).vol, NewDir(v, cb, dch, data), name)
    ensures var u := Unlink(Create(v, cb, dch, data, name).vol, NewDir(v, cb, dch, data), name); u.code == 0 && SameLinks(v.fat, u.vol.fat, Extension(dch, NewDir(v, cb, dch, data)))
  {
    hide *;
    CanCreateParts(v, cb, dch, data, name);
    CreateFinds(v, cb, fam, dch, data, name);
    var cl, dir := NewFile(v, cb, |data|), NewDir(v, cb, dch, data);
    var u := Create(v, cb, dch, data, name).vol;
    CreatedLinks(v, cb, dch, data, name);
    CreateReadsBack(v, cb, dch, data, name);
    UnlinkFat(u, dir, name);
    FreeChainOfChain(u.fat, cl);
    RestoredLinks(v.fat, Filled(v, cb, cl, data).fat, u.fat, FreeChain(u.fat, cl[0]), cl, dch, dir);
  }

  /** What a create did to the table: `cl` linked, then the directory extended if need be. */
  ghost predicate LinksAfter(fat: Fat, linked: Fat, after: Fat, cl: seq<nat>, dch: seq<nat>, dir: seq<nat>) {
    && |fat| == |linked| == |after| && 2 <= |fat| <= EOC && dch != [] && dir != [] && dch[|dch| - 1] < |fat|
    && (forall i :: 0 <= i < |cl| ==> 2 <= cl[i] < |fat| && IsFree(fat, cl[i]))
    && (forall c :: 0 <= c < |fat| && c !in cl ==> linked[c] == fat[c])
    && (dir == dch ==> after == linked)
    && (dir != dch ==> FreeList(linked) != [] && dir == dch + [FreeList(linked)[0]] && after == Extend(linked, dch[|dch| - 1], FreeList(linked)[0]))
  }

  lemma CreatedLinks(v: Volume, cb: nat, dch: seq<nat>, data: seq<byte>, name: seq<byte>)
    requires CanCreate(v, cb, dch, data, name)
    ensures |FreeList(v.fat)| >= ClustersFor(|data|, cb)
    ensures var cl := NewFile(v, cb, |data|); cl != [] && cl == FreeList(v.fat)[..|cl|]
    ensures |Create(v, cb, dch, data, name).vol.fat| == |v.fat|
    ensures var cl := NewFile(v, cb, |data|); LinksAfter(v.fat, Filled(v, cb, cl, data).fat, Create(v, cb, dch, data, name).vol.fat, cl, dch, NewDir(v, cb, dch, data))
  {
    hide *;
    CanCreateParts(v, cb, dch, data, name);
    CreateInserts(v, cb, dch, data, name);
    NewDirIs(v, cb, dch, data);
    var cl := NewFile(v, cb, |data|);
    FilledKeeps(v, cb, dch, cl, data);
    InsertFat(Filled(v, cb, cl, data), cb, dch, NewEntry(name, cl[0], |data|));
    NewClusters(v.fat, cl);
    NewLinks(v.fat, cl);
    MakeLinksAfter(v, Filled(v, cb, cl, data), Create(v, cb, dch, data, name).vol, cb, cl, dch, NewDir(v, cb, dch, data));
  }

  lemma MakeLinksAfter(v: Volume, w: Volume, u: Volume, cb: nat, cl: seq<nat>, dch: seq<nat>, dir: seq<nat>)
    requires VolumeShape(v, cb) && VolumeShape(w, cb) && IsChain(v.fat, dch) && IsChain(w.fat, dch)
    requires forall i :: 0 <= i < |cl| ==> 2 <= cl[i] < |v.fat| && IsFree(v.fat, cl[i])
    requires w.fat == LinkNew(v.fat, cl, |cl|) && forall c :: 0 <= c < |v.fat| && c !in cl ==> w.fat[c] == v.fat[c]
    requires dir == dch ==> u.fat == w.fat
    requires dir != dch ==> FreeList(w.fat) != [] && dir == dch + [FreeList(w.fat)[0]] && u.fat == Extend(w.fat, dch[|dch| - 1], FreeList(w.fat)[0])
    ensures |u.fat| == |v.fat| && LinksAfter(v.fat, w.fat, u.fat, cl, dch, dir)
  {
    hide FreeList, LinkNew, Extend, IsFree;
  }

  lemma NewLinks(fat: Fat, cl: seq<nat>)
    requires |fat| <= EOC && cl != [] && Distinct(cl) && forall i :: 0 <= i < |cl| ==> 2 <= cl[i] < |fat|
    ensures forall c :: 0 <= c < |fat| && c !in cl ==> LinkNew(fat, cl, |cl|)[c] == fat[c]
  {
    LinkNewChain(fat, cl);
  }

  lemma UnlinkFat(v: Volume, dch: seq<nat>, name: seq<byte>)
    requires Sound(v, dch, name) && DirHas(v, dch, name)
    ensures InRange(v.fat) && IsLink(v.fat, StartCluster(EntryAt(v, DirFind(v, dch, name))))
    ensures Unlink(v, dch, name).code == 0
    ensures Unlink(v, dch, name).vol.fat == FreeChain(v.fat, StartCluster(EntryAt(v, DirFind(v, dch, name))))
  {
  }

  lemma RestoredLinks(fat: Fat, linked: Fat, after: Fat, freed: Fat, cl: seq<nat>, dch: seq<nat>, dir: seq<nat>)
    requires LinksAfter(fat, linked, after, cl, dch, dir) && |freed| == |fat|
    requires forall c :: 0 <= c < |fat| ==> freed[c] == if c in cl then Merge(after[c], 0) else after[c]
    ensures SameLinks(fat, freed, Extension(dch, dir))
  {
    forall c | 2 <= c < |fat| && c !in Extension(dch, dir) ensures Next(freed, c) == Next(fat, c) {
      if c !in cl {
        assert after[c] == linked[c];
      }
    }
  }
}
