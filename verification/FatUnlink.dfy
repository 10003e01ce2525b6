// What unlinking does to a directory's listing (lib/src/pifat.c, lines 592-627 and 126-261).
module FatUnlink {
  import opened Bytes
  import opened FatVolume
  import opened FatChains
  import opened FatFamily
  import opened FatContent
  import opened FatDir
  import opened FatDirLaws
  import opened FatCreate
  import opened FatRoundTrip

  /** What one slot contributes to a listing. */
  function Entry(e: Slot): seq<Slot> { if Listed(e) then [e] else [] }

  lemma SlotLists(bytes: seq<byte>, p: nat)
    requires 32 * p + 32 <= |bytes| && bytes[32 * p] != 0
    ensures ListFrom(bytes, p) == Entry(SlotAt(bytes, p)) + ListFrom(bytes, p + 1)
  {
    assert SlotAt(bytes, p)[0] == bytes[32 * p];
  }

  /** The search meets no never-used slot before its hit. */
  lemma {:induction false} FoundNoStop(bytes: seq<byte>, j: nat, name: seq<byte>, p: nat)
    requires FindFrom(bytes, j, name) == Found(p)
    ensures NoStop(bytes, j, p)
    decreases |bytes| - 32 * j
  {
    hide StrnEq, SlotAt;
    if 32 * j + 32 <= |bytes| && bytes[32 * j] != 0 && FindFrom(bytes, j, name) != Found(j) {
      FoundNoStop(bytes, j + 1, name, p);
    }
  }

  /** Replacing a slot in use changes just its entry in the cluster's listing; a slot with a first
      byte of 0 ends the cluster's listing. */
  lemma ClusterReplace(bytes: seq<byte>, p: nat, x: Slot)
    requires 32 * p + 32 <= |bytes| && NoStop(bytes, 0, p) && bytes[32 * p] != 0
    ensures var u, r := ListUpto(bytes, 0, p), ListFrom(bytes, p + 1); ListFrom(bytes, 0) == u + Entry(SlotAt(bytes, p)) + r && ListFrom(Splice(bytes, 32 * p, x), 0) == u + (if x[0] == 0 then [] else Entry(x) + r)
  {
    hide *;
    var b := Splice(bytes, 32 * p, x);
    ListAround(bytes, p, x);
    SlotLists(bytes, p);
    if x[0] == 0 { StopLists(b, p); } else { SlotLists(b, p); }
    Regroup(ListUpto(bytes, 0, p), Entry(SlotAt(bytes, p)), ListFrom(bytes, p + 1), []);
  }

  lemma Regroup(a: seq<Slot>, e: seq<Slot>, r: seq<Slot>, z: seq<Slot>)
    ensures a + (e + r) == a + e + r && a + e + r + z == a + e + (r + z) && a + [] == a
  {
  }

  lemma StopLists(b: seq<byte>, p: nat)
    requires 32 * p + 32 <= |b| && b[32 * p] == 0
    ensures ListFrom(b, p) == []
  {
    assert SlotAt(b, p)[0] == 0;
  }

  /** Only cluster `c` of the two volumes differs, by the mark on slot `p`. */
  ghost predicate Marked(v: Volume, w: Volume, c: nat, p: nat) {
    && |v.data| == |w.data| && c < |v.data| && 32 * p + 32 <= |v.data[c]|
    && w.data[c] == Splice(v.data[c], 32 * p, [0xE5])
    && forall d :: 0 <= d < |v.data| && d != c ==> w.data[d] == v.data[d]
  }

  /** Only slot `p` of cluster `c` differs: in `w` it holds `x`. */
  ghost predicate Replaced(v: Volume, w: Volume, c: nat, p: nat, x: Slot) {
    && |v.data| == |w.data| && c < |v.data| && 32 * p + 32 <= |v.data[c]|
    && w.data[c] == Splice(v.data[c], 32 * p, x)
    && forall d :: 0 <= d < |v.data| && d != c ==> w.data[d] == v.data[d]
  }

  /** A mark is a replacement of the slot by itself with another first byte. */
  lemma MarkReplaces(v: Volume, w: Volume, c: nat, p: nat)
    requires Marked(v, w, c, p)
    ensures c < |v.data| && 32 * p + 32 <= |v.data[c]|
    ensures Replaced(v, w, c, p, SlotAt(v.data[c], p)[0 := 0xE5])
  {
    hide Splice;
    MarkIs(v.data[c], p);
  }

  lemma MarkIs(bytes: seq<byte>, p: nat)
    requires 32 * p + 32 <= |bytes|
    ensures Splice(bytes, 32 * p, SlotAt(bytes, p)[0 := 0xE5]) == Splice(bytes, 32 * p, [0xE5])
    ensures Splice(bytes, 32 * p, SlotAt(bytes, p)[0 := 0xE5])[32 * p] == 0xE5
  {
  }

  /** What the slot contributes now, and what follows it in its cluster. */
  function Instead(x: Slot, r: seq<Slot>): seq<Slot> {
    if x[0] == 0 then [] else Entry(x) + r
  }

  /** The replaced slot is in the first cluster. */
  lemma ReplacedHere(v: Volume, w: Volume, dch: seq<nat>, name: seq<byte>, x: Slot) returns (a: seq<Slot>, r: seq<Slot>, z: seq<Slot>)
    requires FatContent.Fits(v, dch) && dch != [] && IsChain(v.fat, dch) && |v.fat| <= 0x0FFF_FFF8
    requires FindFrom(v.data[dch[0]], 0, name).Found? && DirFind(v, dch, name) == Place(dch[0], FindFrom(v.data[dch[0]], 0, name).slot)
    requires Replaced(v, w, dch[0], FindFrom(v.data[dch[0]], 0, name).slot, x)
    ensures FatContent.Fits(w, dch) && ListDir(w, dch) == a + Instead(x, r) + z
    ensures ListDir(v, dch) == a + Entry(EntryAt(v, DirFind(v, dch, name))) + r + z
  {
    hide *;
    HeadBound(v, dch);
    var bytes := v.data[dch[0]];
    var p := FindFrom(bytes, 0, name).slot;
    ReplacedBytes(v, w, dch[0], p, x);
    FoundNoStop(bytes, 0, name, p);
    FoundUsed(bytes, 0, name);
    RestSame(v, w, dch, dch[0]);
    HeadLists(v, w, dch);
    ClusterReplace(bytes, p, x);
    a, r, z := ListUpto(bytes, 0, p), ListFrom(bytes, p + 1), ListDir(v, dch[1..]);
    InsteadIs(x, r);
    EntryIs(v, dch[0], p);
  }

  lemma InsteadIs(x: Slot, r: seq<Slot>)
    ensures Instead(x, r) == if x[0] == 0 then [] else Entry(x) + r
  {
  }

  lemma ReplacedBytes(v: Volume, w: Volume, c: nat, p: nat, x: Slot)
    requires Replaced(v, w, c, p, x)
    ensures c < |v.data| == |w.data| && 32 * p + 32 <= |v.data[c]| && w.data[c] == Splice(v.data[c], 32 * p, x)
    ensures forall d :: 0 <= d < |v.data| && d != c ==> w.data[d] == v.data[d]
  {
  }

  lemma MarkedBytes(v: Volume, w: Volume, c: nat, p: nat)
    requires Marked(v, w, c, p)
    ensures c < |v.data| == |w.data| && 32 * p + 32 <= |v.data[c]| && w.data[c] == Splice(v.data[c], 32 * p, [0xE5])
    ensures forall d :: 0 <= d < |v.data| && d != c ==> w.data[d] == v.data[d]
  {
  }

  lemma HeadBound(v: Volume, dch: seq<nat>)
    requires FatContent.Fits(v, dch) && dch != []
    ensures dch[0] < |v.data|
  {
  }

  lemma EntryIs(v: Volume, c: nat, p: nat)
    requires c < |v.data| && 32 * p + 32 <= |v.data[c]|
    ensures EntryAt(v, Place(c, p)) == SlotAt(v.data[c], p)
  {
  }

  lemma HeadLists(v: Volume, w: Volume, dch: seq<nat>)
    requires FatContent.Fits(v, dch) && FatContent.Fits(w, dch) && dch != []
    ensures FatContent.Fits(v, dch[1..]) && ListDir(v, dch) == ListFrom(v.data[dch[0]], 0) + ListDir(v, dch[1..])
    ensures FatContent.Fits(w, dch[1..]) && ListDir(w, dch) == ListFrom(w.data[dch[0]], 0) + ListDir(w, dch[1..])
  {
    hide ListFrom;
  }

  lemma ReplacedLater(v: Volume, w: Volume, dch: seq<nat>, e: seq<Slot>, f: seq<Slot>, a: seq<Slot>, r: seq<Slot>, z: seq<Slot>)
    requires FatContent.Fits(v, dch) && dch != [] && |v.data| == |w.data| && w.data[dch[0]] == v.data[dch[0]]
    requires FatContent.Fits(w, dch[1..]) && ListDir(w, dch[1..]) == a + f + z && ListDir(v, dch[1..]) == a + e + r + z
    ensures FatContent.Fits(w, dch)
    ensures var l := ListFrom(v.data[dch[0]], 0); ListDir(w, dch) == (l + a) + f + z && ListDir(v, dch) == (l + a) + e + r + z
  {
    hide *;
    HeadBound(v, dch);
    HeadList(v, w, dch);
    InFront(ListFrom(v.data[dch[0]], 0), a, f, [], z);
    InFront(ListFrom(v.data[dch[0]], 0), a, e, r, z);
  }

  lemma InFront(l: seq<Slot>, a: seq<Slot>, e: seq<Slot>, r: seq<Slot>, z: seq<Slot>)
    ensures l + (a + e + r + z) == (l + a) + e + r + z && e + [] == e && a + e + [] == a + e && l + (a + e + z) == (l + a) + e + z
  {
  }

  lemma HeadList(v: Volume, w: Volume, dch: seq<nat>)
    requires FatContent.Fits(v, dch) && dch != [] && |v.data| == |w.data| && w.data[dch[0]] == v.data[dch[0]] && FatContent.Fits(w, dch[1..])
    ensures FatContent.Fits(w, dch) && ListDir(w, dch) == ListFrom(v.data[dch[0]], 0) + ListDir(w, dch[1..])
    ensures FatContent.Fits(v, dch[1..]) && ListDir(v, dch) == ListFrom(v.data[dch[0]], 0) + ListDir(v, dch[1..])
  {
    hide ListFrom;
    assert dch == [dch[0]] + dch[1..];
  }

  /** The two listings agree but for the replaced slot's entry, and what follows in its cluster if
      the slot now ends it. */
  lemma {:induction false} ListReplaced(v: Volume, w: Volume, dch: seq<nat>, name: seq<byte>, x: Slot) returns (a: seq<Slot>, r: seq<Slot>, z: seq<Slot>)
    requires FatContent.Fits(v, dch) && DirFind(v, dch, name).Place? && Replaced(v, w, DirFind(v, dch, name).cluster, DirFind(v, dch, name).slot, x)
    requires IsChain(v.fat, dch) && |v.fat| <= 0x0FFF_FFF8
    ensures FatContent.Fits(w, dch) && ListDir(w, dch) == a + Instead(x, r) + z
    ensures ListDir(v, dch) == a + Entry(EntryAt(v, DirFind(v, dch, name))) + r + z
  {
    hide *;
    FindHead(v, dch, name);
    if FindFrom(v.data[dch[0]], 0, name).Found? {
      a, r, z := ReplacedHere(v, w, dch, name, x);
    } else {
      LongChain(v, dch, name);
      ChainTail(v.fat, dch);
      HeadApart(v.fat, dch, DirFind(v, dch, name).cluster);
      ReplacedElsewhere(v, w, DirFind(v, dch, name).cluster, DirFind(v, dch, name).slot, x, dch[0]);
      a, r, z := ListReplaced(v, w, dch[1..], name, x);
      ReplacedLater(v, w, dch, Entry(EntryAt(v, DirFind(v, dch, name))), Instead(x, r), a, r, z);
      a := ListFrom(v.data[dch[0]], 0) + a;
    }
  }

  lemma FindHead(v: Volume, dch: seq<nat>, name: seq<byte>)
    requires FatContent.Fits(v, dch) && DirFind(v, dch, name).Place?
    ensures dch != [] && dch[0] < |v.data| && DirFind(v, dch, name).cluster < |v.data|
    ensures var h := FindFrom(v.data[dch[0]], 0, name); h.Found? ==> DirFind(v, dch, name) == Place(dch[0], h.slot)
  {
    hide FindFrom;
  }

  lemma ReplacedElsewhere(v: Volume, w: Volume, c: nat, p: nat, x: Slot, d: nat)
    requires Replaced(v, w, c, p, x) && d != c && d < |v.data|
    ensures |v.data| == |w.data| && w.data[d] == v.data[d]
  {
  }

  lemma FoundUsed(bytes: seq<byte>, j: nat, name: seq<byte>)
    requires FindFrom(bytes, j, name).Found?
    ensures 32 * FindFrom(bytes, j, name).slot + 32 <= |bytes| && bytes[32 * FindFrom(bytes, j, name).slot] != 0
  {
    hide StrnEq;
  }

  lemma LongChain(v: Volume, dch: seq<nat>, name: seq<byte>)
    requires FatContent.Fits(v, dch) && dch != [] && DirFind(v, dch, name).Place? && !FindFrom(v.data[dch[0]], 0, name).Found?
    ensures |dch| > 1 && FatContent.Fits(v, dch[1..]) && DirFind(v, dch, name) == DirFind(v, dch[1..], name) && DirFind(v, dch, name).cluster in dch[1..]
  {
    hide FindFrom;
  }

  lemma HeadApart(fat: Fat, dch: seq<nat>, c: nat)
    requires |fat| <= 0x0FFF_FFF8 && IsChain(fat, dch) && dch != [] && c in dch[1..]
    ensures c != dch[0]
  {
    var i :| 0 <= i < |dch[1..]| && dch[1..][i] == c;
    ChainDistinct(fat, dch, 0, i + 1);
  }

  lemma RestSame(v: Volume, w: Volume, dch: seq<nat>, c: nat)
    requires FatContent.Fits(v, dch) && |v.data| == |w.data| && IsChain(v.fat, dch) && dch != [] && |v.fat| <= 0x0FFF_FFF8 && c == dch[0]
    requires forall d :: 0 <= d < |v.data| && d != c ==> w.data[d] == v.data[d]
    ensures FatContent.Fits(w, dch) && ListDir(w, dch[1..]) == ListDir(v, dch[1..])
  {
    forall d | d in dch[1..] ensures v.data[d] == w.data[d] {
      HeadApart(v.fat, dch, d);
      assert d in dch;
    }
    ListFrame(v, w, dch[1..]);
  }

  /** Unlinking takes exactly the named file's entry out of the listing, and nothing at all if the
      search hits a slot that is not listed or finds none. */
  lemma UnlinkLists(v: Volume, cb: nat, dch: seq<nat>, name: seq<byte>) returns (a: seq<Slot>, b: seq<Slot>)
    requires VolumeShape(v, cb) && IsChain(v.fat, dch) && Sound(v, dch, name) && DirHas(v, dch, name)
    ensures var w := Unlink(v, dch, name).vol; FatContent.Fits(w, dch) && ListDir(w, dch) == a + b
    ensures ListDir(v, dch) == a + Entry(EntryAt(v, DirFind(v, dch, name))) + b
  {
    hide *;
    UnlinkMarks(v, cb, dch, name);
    var q := DirFind(v, dch, name);
    MarkReplaces(v, Unlink(v, dch, name).vol, q.cluster, q.slot);
    var x := SlotAt(v.data[q.cluster], q.slot)[0 := 0xE5];
    var r, z;
    a, r, z := ListReplaced(v, Unlink(v, dch, name).vol, dch, name, x);
    b := r + z;
    NoEntry(x, r);
    Regroup(a, Entry(EntryAt(v, q)), r, z);
    Regroup(a, [], r, z);
  }

  lemma NoEntry(x: Slot, r: seq<Slot>)
    requires x[0] == 0xE5
    ensures Instead(x, r) == r
  {
  }

  lemma UnlinkMarks(v: Volume, cb: nat, dch: seq<nat>, name: seq<byte>)
    requires VolumeShape(v, cb) && IsChain(v.fat, dch) && Sound(v, dch, name) && DirHas(v, dch, name)
    ensures Marked(v, Unlink(v, dch, name).vol, DirFind(v, dch, name).cluster, DirFind(v, dch, name).slot)
    ensures FatContent.Fits(v, dch) && DirFind(v, dch, name).Place? && |v.fat| <= 0x0FFF_FFF8
  {
    hide DirFind, StrnEq, FreeChain, IsChain;
  }

  /** Updating replaces exactly the entry found, in its place; nothing else in the volume changes. */
  lemma UpdateLists(v: Volume, cb: nat, dch: seq<nat>, name: seq<byte>, e: Slot) returns (a: seq<Slot>, r: seq<Slot>, z: seq<Slot>)
    requires VolumeShape(v, cb) && IsChain(v.fat, dch) && FatContent.Fits(v, dch) && DirHas(v, dch, name)
    ensures Update(v, dch, name, e).code == 0 && var w := Update(v, dch, name, e).vol; FatContent.Fits(w, dch) && w.fat == v.fat && w.rest == v.rest
    ensures ListDir(v, dch) == a + Entry(EntryAt(v, DirFind(v, dch, name))) + r + z
    ensures ListDir(Update(v, dch, name, e).vol, dch) == a + Instead(e, r) + z
    ensures e[0] != 0 ==> Instead(e, r) == Entry(e) + r
  {
    UpdateReplaces(v, cb, dch, name, e);
    hide Update, VolumeShape, IsChain, Replaced, DirFind, ListDir, EntryAt, Entry;
    a, r, z := ListReplaced(v, Update(v, dch, name, e).vol, dch, name, e);
  }

  lemma UpdateReplaces(v: Volume, cb: nat, dch: seq<nat>, name: seq<byte>, e: Slot)
    requires VolumeShape(v, cb) && IsChain(v.fat, dch) && FatContent.Fits(v, dch) && DirHas(v, dch, name)
    ensures DirFind(v, dch, name).Place? && |v.fat| <= 0x0FFF_FFF8
    ensures var u := Update(v, dch, name, e); u.code == 0 && u.vol.fat == v.fat && u.vol.rest == v.rest && Replaced(v, u.vol, DirFind(v, dch, name).cluster, DirFind(v, dch, name).slot, e)
  {
    hide DirFind, StrnEq, IsChain;
  }

  lemma CreatedShape(v: Volume, cb: nat, dch: seq<nat>, data: seq<byte>, name: seq<byte>)
    requires CanCreate(v, cb, dch, data, name)
    ensures VolumeShape(v, cb) && IsChain(v.fat, dch) && |data| < 0x1_0000_0000 && |FreeList(v.fat)| >= ClustersFor(|data|, cb)
    ensures var w := Create(v, cb, dch, data, name).vol; VolumeShape(w, cb) && IsChain(w.fat, NewDir(v, cb, dch, data))
  {
    CreateKeeps(v, cb, dch, data, name);
    CreatedChain(v, cb, dch, data, name);
    hide Create, NewDir, VolumeShape, IsChain;
  }

  lemma CreatedChain(v: Volume, cb: nat, dch: seq<nat>, data: seq<byte>, name: seq<byte>)
    requires CanCreate(v, cb, dch, data, name)
    ensures |FreeList(v.fat)| >= ClustersFor(|data|, cb)
    ensures IsChain(Create(v, cb, dch, data, name).vol.fat, NewDir(v, cb, dch, data))
  {
    CreateInserts(v, cb, dch, data, name);
    NewDirIs(v, cb, dch, data);
    var cl := NewFile(v, cb, |data|);
    hide Create, NewDir, VolumeShape, IsChain, Filled, DirInsert, InsertedChain, NewEntry;
    InsertChain(Filled(v, cb, cl, data), cb, dch, NewEntry(name, cl[0], |data|));
  }
}
