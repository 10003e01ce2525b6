// Directories and files in place: the remaining operations of lib/src/pifat.c
// (lines 247-261, 417-533 and 592-662), proved equal to their functions on volumes.
module FatFiles {
  import opened Bytes
  import opened FatVolume
  import opened FatChains
  import opened FatFamily
  import opened FatContent
  import opened FatDir
  import opened FatDirLaws
  import opened FatCreate
  import opened FatRoundTrip
  import opened FatStore
  import opened FatSectors
  import FatFile
  import FatTable
  import SC = SectorCache

  // ----- listing -----

  lemma ListTurn(v: Volume, c: nat, rest: seq<nat>, entries: seq<Slot>)
    requires |v.fat| == |v.data| <= 0x0FFF_FFF8 && FatFile.At(v.fat, c, rest) && c < 0x0FFF_FFF8 && FatContent.Fits(v, rest)
    ensures rest != [] && 2 <= c < |v.data| && c == rest[0]
    ensures FatContent.Fits(v, rest[1..]) && FatFile.At(v.fat, Low28(v.fat[c]), rest[1..])
    ensures entries + ListDir(v, rest) == (entries + ListFrom(v.data[c], 0)) + ListDir(v, rest[1..])
  {
    FatFile.AtNext(v.fat, c, rest);
  }

  lemma ListEnd(v: Volume, c: nat, rest: seq<nat>, entries: seq<Slot>)
    requires |v.fat| <= 0x0FFF_FFF8 && FatFile.At(v.fat, c, rest) && c >= 0x0FFF_FFF8 && FatContent.Fits(v, rest)
    ensures entries + ListDir(v, rest) == entries
  {
    FatFile.AtEnd(v.fat, c, rest);
  }

  lemma ChainFits(v: Volume, ch: seq<nat>)
    requires IsChain(v.fat, ch) && |v.data| == |v.fat|
    ensures FatContent.Fits(v, ch)
  {
  }

  /** No cluster of the directory has more long-name slots in a row than the listing has room for. */
  ghost predicate Listable(v: Volume, dch: seq<nat>) {
    forall c :: c in dch && c < |v.data| ==> LongFits(v.data[c], 0, 0)
  }

  lemma ListableTurn(v: Volume, rest: seq<nat>)
    requires Listable(v, rest) && rest != [] && rest[0] < |v.data|
    ensures LongFits(v.data[rest[0]], 0, 0) && Listable(v, rest[1..])
  {
  }

  /** `fat32_list_fat`. */
  method ListDirectory(fs: Store, start: nat, ghost dch: seq<nat>) returns (entries: seq<Slot>)
    requires fs.Valid() && IsChain(fs.Vol().fat, dch) && start == dch[0] && Listable(fs.Vol(), dch)
    modifies fs.cache.data, fs.cache.tag, fs.cache.valid
    ensures fs.Valid() && fs.Vol() == old(fs.Vol())
    ensures FatContent.Fits(fs.Vol(), dch) && entries == ListDir(fs.Vol(), dch)
  {
    hide *;
    ghost var v := fs.Vol();
    ghost var rest := dch;
    var c: nat := start;
    FatFile.AtStart(v.fat, dch);
    ChainFits(v, dch);
    entries := [];
    assert [] + ListDir(v, dch) == ListDir(v, dch);
    while c < 0x0FFF_FFF8
      invariant fs.Valid() && fs.Vol() == v
      invariant FatFile.At(v.fat, c, rest) && FatContent.Fits(v, rest) && Listable(v, rest)
      invariant entries + ListDir(v, rest) == ListDir(v, dch)
      decreases |rest|
    {
      ListTurn(v, c, rest, entries);
      ListableTurn(v, rest);
      var some := ListCluster(fs, c);
      entries := entries + some;
      c := fs.NextCluster(c);
      rest := rest[1..];
    }
    ListEnd(v, c, rest, entries);
  }

  // ----- inserting an entry -----

  /** The scan has passed full clusters only; `rest` is what is left of the chain. */
  ghost predicate Scanning(v: Volume, cb: nat, dch: seq<nat>, e: Slot, last: nat, rest: seq<nat>) {
    && VolumeShape(v, cb) && IsChain(v.fat, dch)
    && if rest != [] then IsChain(v.fat, rest) && DirInsert(v, cb, rest, e) == DirInsert(v, cb, dch, e)
       else IsChain(v.fat, [last]) && last < |v.data| && !HasVacant(v, cb, last) && DirInsert(v, cb, [last], e) == DirInsert(v, cb, dch, e)
  }

  lemma ScanStart(v: Volume, cb: nat, dch: seq<nat>, e: Slot)
    requires VolumeShape(v, cb) && IsChain(v.fat, dch)
    ensures Scanning(v, cb, dch, e, dch[0], dch)
  {
  }

  lemma ScanHit(v: Volume, cb: nat, dch: seq<nat>, e: Slot, last: nat, rest: seq<nat>, c: nat)
    requires Scanning(v, cb, dch, e, last, rest) && rest != [] && c == rest[0] < |v.data|
    requires 32 * VacantFrom(v.data[c], 0) + 32 <= cb
    ensures 32 * VacantFrom(v.data[c], 0) + |e| <= |v.data[c]|
    ensures DirInsert(v, cb, dch, e) == Outcome(PutBytes(v, c, 32 * VacantFrom(v.data[c], 0), e), 0)
  {
    InsertHere(v, cb, rest, e);
  }

  lemma ScanMiss(v: Volume, cb: nat, dch: seq<nat>, e: Slot, last: nat, rest: seq<nat>, c: nat)
    requires Scanning(v, cb, dch, e, last, rest) && rest != [] && c == rest[0] < |v.data|
    requires !(32 * VacantFrom(v.data[c], 0) + 32 <= cb)
    ensures Scanning(v, cb, dch, e, c, rest[1..])
  {
    if |rest| > 1 {
      InsertLater(v, cb, rest, e);
    } else {
      assert rest == [c];
    }
  }

  lemma ScanNone(v: Volume, cb: nat, dch: seq<nat>, e: Slot, last: nat)
    requires Scanning(v, cb, dch, e, last, []) && |FreeList(v.fat)| < 1
    ensures DirInsert(v, cb, dch, e) == Outcome(v, 2)
  {
    InsertNone(v, cb, [last], e);
  }

  lemma ScanNew(v: Volume, cb: nat, dch: seq<nat>, e: Slot, last: nat, f: nat)
    requires Scanning(v, cb, dch, e, last, []) && |FreeList(v.fat)| >= 1 && f == FreeList(v.fat)[..1][0]
    ensures 2 <= last < |v.fat| == |v.data| <= 0x0FFF_FFF8 && 2 <= f < |v.fat|
    ensures cb >= 32 && PutLink(PutLink(v, last, f), f, LAST) == FatTable.Given(v, last, f)
    ensures FatTable.Given(v, last, f).data == v.data
    ensures DirInsert(v, cb, dch, e) == Outcome(PutCluster(FatTable.Given(v, last, f), f, e + Zeros(cb - 32)), 0)
  {
    InsertNew(v, cb, [last], e);
  }

  /** Lines 461-466. */
  method ClearCluster(fs: Store, c: nat)
    requires fs.Valid() && 2 <= c < fs.g.Limit()
    modifies fs.cache.card, fs.cache.data, fs.cache.tag, fs.cache.valid
    ensures fs.Valid()
    ensures fs.Vol() == PutCluster(old(fs.Vol()), c, Zeros(fs.g.ClusterBytes()))
  {
    hide *;
    ghost var v := fs.Vol();
    ghost var zeros := Zeros(fs.g.ClusterBytes());
    for s := 0 to fs.g.spc
      invariant fs.Valid()
      invariant fs.Vol() == PutOverlay(v, c, zeros, s * 512)
    {
      OverlayStep(v, c, zeros, s);
      assert zeros[s * 512..s * 512 + 512] == Zeros(512);
      fs.WriteClusterSector(c, s, Zeros(512));
    }
  }

  lemma FirstSlot(v: Volume, f: nat, cb: nat, e: Slot)
    requires f < |v.data| && cb >= 512
    ensures PutBytes(PutCluster(v, f, Zeros(cb)), f, 0, e + Zeros(480)) == PutCluster(v, f, e + Zeros(cb - 32))
  {
    assert Splice(Zeros(cb), 0, e + Zeros(480)) == e + Zeros(cb - 32);
  }

  /** `fat32_write_create_directory_entry`. */
  method InsertEntry(fs: Store, start: nat, e: Slot, ghost dch: seq<nat>) returns (code: int)
    requires fs.Valid() && IsChain(fs.Vol().fat, dch) && start == dch[0]
    modifies fs.cache.card, fs.cache.data, fs.cache.tag, fs.cache.valid
    ensures fs.Valid()
    ensures Outcome(fs.Vol(), code) == DirInsert(old(fs.Vol()), fs.g.ClusterBytes(), dch, e)
  {
    hide *;
    ghost var v, cb := fs.Vol(), fs.g.ClusterBytes();
    ghost var rest := dch;
    var c: nat, last: nat := start, start;
    FatFile.AtStart(v.fat, dch);
    ScanStart(v, cb, dch, e);
    while c < 0x0FFF_FFF8 && c != 0
      invariant fs.Valid() && fs.Vol() == v
      invariant FatFile.At(v.fat, c, rest) && Scanning(v, cb, dch, e, last, rest)
      decreases |rest|
    {
      FatFile.AtNext(v.fat, c, rest);
      var done := InsertInCluster(fs, c, e);
      if done {
        ScanHit(v, cb, dch, e, last, rest, c);
        return 0;
      }
      ScanMiss(v, cb, dch, e, last, rest, c);
      last := c;
      c := fs.NextCluster(c);
      rest := rest[1..];
    }
    NoRest(v.fat, c, rest);
    code := ExtendDirectory(fs, last, e, dch);
  }

  lemma NoRest(fat: Fat, c: nat, rest: seq<nat>)
    requires |fat| <= 0x0FFF_FFF8 && FatFile.At(fat, c, rest) && !(c < 0x0FFF_FFF8 && c != 0)
    ensures rest == []
  {
  }

  /** Lines 445-471. */
  method ExtendDirectory(fs: Store, last: nat, e: Slot, ghost dch: seq<nat>) returns (code: int)
    requires fs.Valid() && VolumeShape(fs.Vol(), fs.g.ClusterBytes()) && IsChain(fs.Vol().fat, dch)
    requires Scanning(fs.Vol(), fs.g.ClusterBytes(), dch, e, last, [])
    modifies fs.cache.card, fs.cache.data, fs.cache.tag, fs.cache.valid
    ensures fs.Valid()
    ensures Outcome(fs.Vol(), code) == DirInsert(old(fs.Vol()), fs.g.ClusterBytes(), dch, e)
  {
    hide *;
    ghost var v, cb := fs.Vol(), fs.g.ClusterBytes();
    var ok, found := FatTable.FindFreeClusters(fs, 1);
    if !ok {
      ScanNone(v, cb, dch, e, last);
      return 2;
    }
    var f := found[0];
    ScanNew(v, cb, dch, e, last, f);
    fs.WriteEntry(last, f);
    fs.WriteEntry(f, LAST);
    ClearCluster(fs, f);
    FirstSlot(FatTable.Given(v, last, f), f, cb, e);
    fs.WriteClusterSector(f, 0, e + Zeros(480));
    code := 0;
  }

  // ----- finding, updating, unlinking -----

  lemma FindTurn(v: Volume, c: nat, rest: seq<nat>, name: seq<byte>)
    requires |v.fat| == |v.data| <= 0x0FFF_FFF8 && FatFile.At(v.fat, c, rest) && c < 0x0FFF_FFF8 && FatContent.Fits(v, rest)
    ensures rest != [] && 2 <= c < |v.data| && FatContent.Fits(v, rest[1..]) && FatFile.At(v.fat, Low28(v.fat[c]), rest[1..])
    ensures var h := FindFrom(v.data[c], 0, name); DirFind(v, rest, name) == if h.Stop? then Nowhere else if h.Found? then Place(c, h.slot) else DirFind(v, rest[1..], name)
  {
    FatFile.AtNext(v.fat, c, rest);
  }

  lemma FindEnd(v: Volume, name: seq<byte>)
    ensures DirFind(v, [], name) == Nowhere
  {
  }

  /** The loops of lines 595-625 and 632-660 up to the slot that matches. */
  method FindName(fs: Store, start: nat, name: seq<byte>, ghost dch: seq<nat>) returns (p: Place)
    requires fs.Valid() && IsChain(fs.Vol().fat, dch) && start == dch[0]
    modifies fs.cache.data, fs.cache.tag, fs.cache.valid
    ensures fs.Valid() && fs.Vol() == old(fs.Vol())
    ensures FatContent.Fits(fs.Vol(), dch) && p == DirFind(fs.Vol(), dch, name)
  {
    hide *;
    ghost var v := fs.Vol();
    ghost var rest := dch;
    var c: nat := start;
    FatFile.AtStart(v.fat, dch);
    ChainFits(v, dch);
    while c < 0x0FFF_FFF8 && c != 0
      invariant fs.Valid() && fs.Vol() == v
      invariant FatFile.At(v.fat, c, rest) && FatContent.Fits(v, rest)
      invariant DirFind(v, rest, name) == DirFind(v, dch, name)
      decreases |rest|
    {
      FindTurn(v, c, rest, name);
      var h := FindInCluster(fs, c, name);
      if h.Stop? { return Nowhere; }
      if h.Found? { return Place(c, h.slot); }
      c := fs.NextCluster(c);
      rest := rest[1..];
    }
    NoRest(v.fat, c, rest);
    FindEnd(v, name);
    p := Nowhere;
  }

  lemma PlaceBounds(v: Volume, cb: nat, spc: nat, dch: seq<nat>, name: seq<byte>)
    requires FatContent.Fits(v, dch) && VolumeShape(v, cb) && cb == spc * 512 && DirFind(v, dch, name).Place?
    ensures var p := DirFind(v, dch, name); 2 <= p.cluster < |v.data| && p.slot / 16 < spc && p.slot == 16 * (p.slot / 16) + p.slot % 16
    ensures var p := DirFind(v, dch, name); 512 * (p.slot / 16) + 512 <= |v.data[p.cluster]| == cb
    ensures var p := DirFind(v, dch, name); SectorOf(v.data[p.cluster], p.slot / 16)[32 * (p.slot % 16)..32 * (p.slot % 16) + 32] == EntryAt(v, p)
  {
    var p := DirFind(v, dch, name);
    SlotOfSector(v.data[p.cluster], p.slot / 16, p.slot % 16);
  }

  /** `fat32_update_dirent`. */
  method UpdateEntry(fs: Store, start: nat, name: seq<byte>, e: Slot, ghost dch: seq<nat>) returns (code: int)
    requires fs.Valid() && IsChain(fs.Vol().fat, dch) && start == dch[0]
    modifies fs.cache.card, fs.cache.data, fs.cache.tag, fs.cache.valid
    ensures fs.Valid() && FatContent.Fits(old(fs.Vol()), dch)
    ensures Outcome(fs.Vol(), code) == Update(old(fs.Vol()), dch, name, e)
  {
    hide *;
    ghost var v := fs.Vol();
    var p := FindName(fs, start, name, dch);
    UpdateIs(v, dch, name, e);
    if p.Nowhere? { return -1; }
    PlaceBounds(v, fs.g.ClusterBytes(), fs.g.spc, dch, name);
    var s, i := p.slot / 16, p.slot % 16;
    var buf := fs.ReadClusterSector(p.cluster, s);
    SectorIs(v.data[p.cluster], s);
    PutSlot(v, p.cluster, s, i, e);
    buf := Splice(buf, 32 * i, e);
    fs.WriteClusterSector(p.cluster, s, buf);
    code := 0;
  }

  lemma UpdateIs(v: Volume, dch: seq<nat>, name: seq<byte>, e: Slot)
    requires FatContent.Fits(v, dch)
    ensures var p := DirFind(v, dch, name); p.Nowhere? ==> Update(v, dch, name, e) == Outcome(v, -1)
    ensures var p := DirFind(v, dch, name); p.Place? ==> p.cluster < |v.data| && 32 * p.slot + |e| <= |v.data[p.cluster]| && Update(v, dch, name, e) == Outcome(PutBytes(v, p.cluster, 32 * p.slot, e), 0)
  {
  }

  lemma UnlinkIs(v: Volume, dch: seq<nat>, name: seq<byte>)
    requires Sound(v, dch, name)
    ensures FatContent.Fits(v, dch) && InRange(v.fat)
    ensures var p := DirFind(v, dch, name); p.Nowhere? ==> Unlink(v, dch, name) == Outcome(v, -1)
    ensures var p := DirFind(v, dch, name); p.Place? ==> p.cluster < |v.data| && 32 * p.slot + 1 <= |v.data[p.cluster]| && IsLink(v.fat, StartCluster(EntryAt(v, p))) && Unlink(v, dch, name) == Outcome(PutBytes(v.(fat := FreeChain(v.fat, StartCluster(EntryAt(v, p)))), p.cluster, 32 * p.slot, [0xE5]), 0)
  {
  }

  /** `fat32_unlink_file`. */
  method UnlinkFile(fs: Store, start: nat, name: seq<byte>, ghost dch: seq<nat>) returns (code: int)
    requires fs.Valid() && IsChain(fs.Vol().fat, dch) && start == dch[0] && Sound(fs.Vol(), dch, name)
    modifies fs.cache.card, fs.cache.data, fs.cache.tag, fs.cache.valid
    ensures fs.Valid()
    ensures Outcome(fs.Vol(), code) == Unlink(old(fs.Vol()), dch, name)
  {
    hide *;
    ghost var v := fs.Vol();
    UnlinkIs(v, dch, name);
    var p := FindName(fs, start, name, dch);
    if p.Nowhere? { return -1; }
    PlaceBounds(v, fs.g.ClusterBytes(), fs.g.spc, dch, name);
    var s, i := p.slot / 16, p.slot % 16;
    var buf := fs.ReadClusterSector(p.cluster, s);
    SectorIs(v.data[p.cluster], s);
    FatTable.FreeClusterChain(fs, StartCluster(buf[32 * i..32 * i + 32]));
    ghost var w := fs.Vol();
    PutSlot(w, p.cluster, s, i, [0xE5]);
    buf := Splice(buf, 32 * i, [0xE5]);
    fs.WriteClusterSector(p.cluster, s, buf);
    code := 0;
  }

  // ----- creating -----

  /** Lines 490-498: the new chain linked front to back. */
  method LinkChain(fs: Store, cl: seq<nat>)
    requires fs.Valid() && forall i :: 0 <= i < |cl| ==> 2 <= cl[i] < fs.g.Limit()
    modifies fs.cache.card, fs.cache.data, fs.cache.tag, fs.cache.valid
    ensures fs.Valid()
    ensures fs.Vol() == old(fs.Vol()).(fat := LinkNew(old(fs.Vol()).fat, cl, |cl|))
  {
    ghost var v := fs.Vol();
    hide *;
    LinkZero(v, cl);
    for i := 0 to |cl|
      invariant fs.Valid()
      invariant fs.Vol() == v.(fat := LinkNew(v.fat, cl, i))
    {
      LinkStep(v, cl, i);
      if i == |cl| - 1 {
        fs.WriteEntry(cl[i], LAST);
      } else {
        fs.WriteEntry(cl[i], cl[i + 1]);
      }
    }
  }

  lemma LinkZero(v: Volume, cl: seq<nat>)
    requires |v.fat| <= 0x0FFF_FFF8 && forall i :: 0 <= i < |cl| ==> cl[i] < |v.fat|
    ensures v.(fat := LinkNew(v.fat, cl, 0)) == v
  {
  }

  lemma LinkStep(v: Volume, cl: seq<nat>, i: nat)
    requires i < |cl| && |v.fat| <= 0x0FFF_FFF8 && forall j :: 0 <= j < |cl| ==> cl[j] < |v.fat|
    ensures v.(fat := LinkNew(v.fat, cl, i + 1)) == PutLink(v.(fat := LinkNew(v.fat, cl, i)), cl[i], if i == |cl| - 1 then LAST else cl[i + 1])
  {
  }

  lemma FillStep(v: Volume, c: nat, x: seq<byte>, y: seq<byte>)
    requires c < |v.data| && |x| + |y| <= |v.data[c]|
    ensures |PutBytes(v, c, 0, x).data| == |v.data| && |PutBytes(v, c, 0, x).data[c]| == |v.data[c]|
    ensures PutBytes(PutBytes(v, c, 0, x), c, |x|, y) == PutBytes(v, c, 0, x + y)
  {
    assert Splice(Splice(v.data[c], 0, x), |x|, y) == Splice(v.data[c], 0, x + y);
    var w := PutBytes(v, c, 0, x);
    assert v.data[c := w.data[c]][c := Splice(w.data[c], |x|, y)] == v.data[c := Splice(w.data[c], |x|, y)];
  }

  lemma FillNothing(v: Volume, c: nat)
    requires c < |v.data|
    ensures PutBytes(v, c, 0, []) == v
  {
    assert Splice(v.data[c], 0, []) == v.data[c];
    assert v.data[c := v.data[c]] == v.data;
  }

  /** `s` full sectors and one more with the `t` bytes left, zero-padded. */
  lemma PaddedSectors(chunk: seq<byte>, s: nat, t: nat)
    requires |chunk| == 512 * s + t && t <= 512 && (t == 0 ==> s == 0)
    ensures Padded(chunk) == chunk[..512 * s] + (chunk[512 * s..] + Zeros(512 - t))
  {
    assert (|chunk| + 511) / 512 == if t == 0 then s else s + 1;
    var a, b := Padded(chunk), chunk[..512 * s] + (chunk[512 * s..] + Zeros(512 - t));
    assert |a| == 512 * (s + 1) == |b|;
    forall k | 0 <= k < |a| ensures a[k] == b[k] {
      if k < |chunk| { assert a[..|chunk|][k] == chunk[k]; }
    }
  }

  lemma PaddedWhole(chunk: seq<byte>, spc: nat)
    requires |chunk| == 512 * spc && spc > 0
    ensures Padded(chunk) == chunk
  {
    PaddedSectors(chunk, spc - 1, 512);
    assert chunk[..512 * (spc - 1)] + (chunk[512 * (spc - 1)..] + Zeros(0)) == chunk;
  }

  /** One sector of the data, or what is left of it and zeros: lines 506-511. */
  function SectorOfData(data: seq<byte>, bw: nat, toWrite: nat): SC.Sector
    requires bw + toWrite <= |data| && toWrite <= 512
  {
    data[bw..bw + toWrite] + Zeros(512 - toWrite)
  }

  lemma FillTurn(v: Volume, c: nat, data: seq<byte>, bw: nat, s: nat, toWrite: nat)
    requires c < |v.data| && 512 * s + 512 <= |v.data[c]| && bw + 512 * s + toWrite <= |data| && toWrite <= 512
    ensures |PutBytes(v, c, 0, data[bw..bw + 512 * s]).data| == |v.data|
    ensures |PutBytes(v, c, 0, data[bw..bw + 512 * s]).data[c]| == |v.data[c]|
    ensures PutBytes(PutBytes(v, c, 0, data[bw..bw + 512 * s]), c, s * 512, SectorOfData(data, bw + 512 * s, toWrite))
         == PutBytes(v, c, 0, data[bw..bw + 512 * s] + SectorOfData(data, bw + 512 * s, toWrite))
    ensures toWrite == 512 ==> data[bw..bw + 512 * s] + SectorOfData(data, bw + 512 * s, toWrite) == data[bw..bw + 512 * (s + 1)]
    ensures bw + 512 * s + toWrite == |data| && (toWrite == 0 ==> s == 0) ==>
              data[bw..bw + 512 * s] + SectorOfData(data, bw + 512 * s, toWrite) == Padded(data[bw..])
  {
    FillStep(v, c, data[bw..bw + 512 * s], SectorOfData(data, bw + 512 * s, toWrite));
    if bw + 512 * s + toWrite == |data| && (toWrite == 0 ==> s == 0) {
      PaddedSectors(data[bw..], s, toWrite);
      assert data[bw..][..512 * s] == data[bw..bw + 512 * s];
      assert data[bw..][512 * s..] == data[bw + 512 * s..bw + 512 * s + toWrite];
    }
  }

  /** Lines 503-516: one cluster of the new file. */
  method FillCluster(fs: Store, c: nat, data: seq<byte>, bw: nat) returns (bw': nat)
    requires fs.Valid() && 2 <= c < fs.g.Limit() && (bw < |data| || |data| == 0 == bw)
    requires |data| <= 0xFFFF_FE00 || bw + fs.g.ClusterBytes() <= 0xFFFF_FE00
    modifies fs.cache.card, fs.cache.data, fs.cache.tag, fs.cache.valid
    ensures fs.Valid()
    ensures bw' == if |data| - bw < fs.g.ClusterBytes() then |data| else bw + fs.g.ClusterBytes()
    ensures |Padded(data[bw..bw'])| <= |old(fs.Vol()).data[c]|
    ensures fs.Vol() == PutBytes(old(fs.Vol()), c, 0, Padded(data[bw..bw']))
  {
    hide *;
    ghost var v := fs.Vol();
    bw' := bw;
    FillNothing(v, c);
    assert data[bw..bw] == [];
    var s := 0;
    while s < fs.g.spc
      invariant fs.Valid() && 0 <= s <= fs.g.spc
      invariant bw' == bw + 512 * s <= |data| && (s > 0 ==> bw' < |data|)
      invariant fs.Vol() == PutBytes(v, c, 0, data[bw..bw'])
    {
      var toWrite := 512;
      SmallSum(bw' + toWrite);
      if U32(bw' + toWrite) > |data| { toWrite := |data| - bw'; }
      FillTurn(v, c, data, bw, s, toWrite);
      fs.WriteClusterSector(c, s, SectorOfData(data, bw', toWrite));
      bw' := bw' + toWrite;
      if bw' >= |data| {
        assert data[bw..bw'] == data[bw..];
        return;
      }
      s := s + 1;
    }
    PaddedWhole(data[bw..bw'], fs.g.spc);
  }

  lemma SmallSum(x: nat)
    requires x < 0x1_0000_0000
    ensures U32(x) == x
  {
  }

  lemma WriteNewTurn(v: Volume, cb: nat, cl: seq<nat>, i: nat, data: seq<byte>, bw: nat, bw': nat)
    requires VolumeShape(v, cb) && i < |cl| && bw <= |data| && FatContent.Fits(v, cl[i..])
    requires bw' == if |data| - bw < cb then |data| else bw + cb
    ensures 2 <= cl[i] < |v.data| && |Padded(data[bw..bw'])| <= |v.data[cl[i]]|
    ensures var w := PutBytes(v, cl[i], 0, Padded(data[bw..bw'])); VolumeShape(w, cb) && FatContent.Fits(w, cl[i + 1..]) && WriteNew(v, cb, cl[i..], data[bw..]) == WriteNew(w, cb, cl[i + 1..], data[bw'..])
  {
    hide Padded, Splice;
    assert cl[i..][0] == cl[i] && cl[i..][1..] == cl[i + 1..];
    var k := bw' - bw;
    assert data[bw..][..k] == data[bw..bw'] && data[bw..][k..] == data[bw'..];
    PutBytesShape(v, cb, cl[i], 0, Padded(data[bw..bw']));
  }

  lemma WriteNewDone(v: Volume, cb: nat, data: seq<byte>)
    requires VolumeShape(v, cb)
    ensures WriteNew(v, cb, [], data) == v
  {
  }

  /** Lines 500-517. */
  method WriteData(fs: Store, cl: seq<nat>, data: seq<byte>) returns (bw: nat)
    requires fs.Valid() && VolumeShape(fs.Vol(), fs.g.ClusterBytes()) && FatContent.Fits(fs.Vol(), cl)
    requires forall i :: 0 <= i < |cl| ==> 2 <= cl[i] < fs.g.Limit()
    requires |data| <= 0xFFFF_FE00 || |cl| == 1
    requires |cl| > 0 && LastNeeded(|cl|, fs.g.ClusterBytes(), |data|)
    modifies fs.cache.card, fs.cache.data, fs.cache.tag, fs.cache.valid
    ensures fs.Valid()
    ensures bw <= |data| && (bw == |data| <==> |data| <= |cl| * fs.g.ClusterBytes())
    ensures fs.Vol() == WriteNew(old(fs.Vol()), fs.g.ClusterBytes(), cl, data)
  {
    hide *;
    ghost var v, cb := fs.Vol(), fs.g.ClusterBytes();
    bw := 0;
    assert cl[0..] == cl && data[0..] == data;
    BytesStart(cb, |data|);
    for i := 0 to |cl|
      invariant fs.Valid() && fs.g.ClusterBytes() == cb
      invariant VolumeShape(fs.Vol(), cb) && FatContent.Fits(fs.Vol(), cl[i..])
      invariant bw <= |data| && BytesBy(i, cb, |data|, bw) && (i == 0 ==> bw == 0)
      invariant WriteNew(fs.Vol(), cb, cl[i..], data[bw..]) == WriteNew(v, cb, cl, data)
    {
      ghost var w, bw0 := fs.Vol(), bw;
      BytesLeft(i, |cl|, cb, |data|, bw);
      bw := FillCluster(fs, cl[i], data, bw);
      WriteNewTurn(w, cb, cl, i, data, bw0, bw);
      BytesStep(i, cb, |data|, bw0, bw);
    }
    assert cl[|cl|..] == [];
    WriteNewDone(fs.Vol(), cb, data[bw..]);
    BytesEnd(|cl|, cb, |data|, bw);
  }

  /** After `i` clusters of `cb` bytes each, `bw` of the `size` bytes are written. */
  ghost predicate BytesBy(i: nat, cb: nat, size: nat, bw: nat) {
    bw == if size <= i * cb then size else i * cb
  }

  /** Without its last cluster the chain would be too short, unless it has only one. */
  ghost predicate LastNeeded(n: nat, cb: nat, size: nat) {
    n == 1 || (n - 1) * cb < size
  }

  lemma BytesStart(cb: nat, size: nat)
    ensures BytesBy(0, cb, size, 0)
  {
  }

  lemma BytesLeft(i: nat, n: nat, cb: nat, size: nat, bw: nat)
    requires i < n && LastNeeded(n, cb, size) && BytesBy(i, cb, size, bw)
    ensures bw < size || size == 0 == bw
  {
    if i < n - 1 { ProductGap(i, n - 1, cb); }
    if n == 1 { assert i * cb == 0; }
  }

  lemma BytesStep(i: nat, cb: nat, size: nat, bw: nat, bw': nat)
    requires BytesBy(i, cb, size, bw) && bw <= size && bw' == if size - bw < cb then size else bw + cb
    ensures BytesBy(i + 1, cb, size, bw')
  {
    assert (i + 1) * cb == i * cb + cb;
  }

  lemma BytesEnd(n: nat, cb: nat, size: nat, bw: nat)
    requires BytesBy(n, cb, size, bw)
    ensures bw == size <==> size <= n * cb
  {
  }

  lemma ClustersNeeded(size: nat, cb: nat)
    requires 512 <= cb <= 255 * 512 && size < 0x1_0000_0000
    ensures LastNeeded(ClustersFor(size, cb), cb, size)
    ensures size <= 0xFFFF_FE00 || ClustersFor(size, cb) == 1
  {
    var x := U32(size + cb - 1);
    assert x == x / cb * cb + x % cb;
    if x < cb { SmallQuotient(x, cb); }
    if x / cb > 1 { assert (x / cb - 1) * cb == x / cb * cb - cb; }
  }

  lemma SmallQuotient(x: nat, cb: nat)
    requires x < cb
    ensures x / cb == 0
  {
  }

  lemma CreateIs(v: Volume, cb: nat, dch: seq<nat>, data: seq<byte>, name: seq<byte>)
    requires VolumeShape(v, cb) && IsChain(v.fat, dch) && |data| < 0x1_0000_0000 && |name| >= 11
    ensures 2 <= |v.fat| <= 0x0FFF_FFF8 && cb >= 512
    ensures |FreeList(v.fat)| < ClustersFor(|data|, cb) ==> Create(v, cb, dch, data, name) == Outcome(v, 2)
  {
  }

  /** The volume with the new chain linked. */
  ghost function Linked(v: Volume, cl: seq<nat>): Volume
    requires |v.fat| <= 0x0FFF_FFF8 && forall i :: 0 <= i < |cl| ==> cl[i] < |v.fat|
  {
    v.(fat := LinkNew(v.fat, cl, |cl|))
  }

  lemma CreateGoesOn(v: Volume, cb: nat, dch: seq<nat>, data: seq<byte>, name: seq<byte>, cl: seq<nat>)
    requires VolumeShape(v, cb) && IsChain(v.fat, dch) && |data| < 0x1_0000_0000 && |name| >= 11
    requires |cl| == ClustersFor(|data|, cb) <= |FreeList(v.fat)| && cl == FreeList(v.fat)[..|cl|]
    ensures |v.fat| <= 0x0FFF_FFF8 && |cl| > 0 && (forall i :: 0 <= i < |cl| ==> 2 <= cl[i] < |v.fat|)
    ensures Linked(v, cl) == v.(fat := LinkNew(v.fat, cl, |cl|))
    ensures VolumeShape(Linked(v, cl), cb) && FatContent.Fits(Linked(v, cl), cl)
    ensures IsChain(WriteNew(Linked(v, cl), cb, cl, data).fat, dch) && VolumeShape(WriteNew(Linked(v, cl), cb, cl, data), cb)
    ensures |data| > |cl| * cb ==> Create(v, cb, dch, data, name) == Outcome(WriteNew(Linked(v, cl), cb, cl, data), 3)
    ensures |data| <= |cl| * cb ==> Create(v, cb, dch, data, name) == DirInsert(WriteNew(Linked(v, cl), cb, cl, data), cb, dch, NewEntry(name, cl[0], |data|))
  {
    hide WriteNew, ClustersFor, DirInsert, NewEntry, LinkNew, IsChain;
    NewClusters(v.fat, cl);
    FilledKeeps(v, cb, dch, cl, data);
    assert Filled(v, cb, cl, data) == WriteNew(Linked(v, cl), cb, cl, data);
  }

  /** `fat32_write_file_create`. */
  method CreateFile(fs: Store, start: nat, data: seq<byte>, name: seq<byte>, ghost dch: seq<nat>) returns (code: int)
    requires fs.Valid() && IsChain(fs.Vol().fat, dch) && start == dch[0]
    requires |data| < 0x1_0000_0000 && |name| >= 11
    modifies fs.cache.card, fs.cache.data, fs.cache.tag, fs.cache.valid
    ensures fs.Valid() && VolumeShape(old(fs.Vol()), fs.g.ClusterBytes())
    ensures Outcome(fs.Vol(), code) == Create(old(fs.Vol()), fs.g.ClusterBytes(), dch, data, name)
  {
    hide *;
    ghost var v, cb := fs.Vol(), fs.g.ClusterBytes();
    CreateIs(v, cb, dch, data, name);
    ClustersNeeded(|data|, cb);
    var ok, cl := FatTable.FindFreeClusters(fs, ClustersFor(|data|, fs.g.ClusterBytes()));
    if !ok { return 2; }
    CreateGoesOn(v, cb, dch, data, name, cl);
    LinkChain(fs, cl);
    var bw := WriteData(fs, cl, data);
    if bw != |data| { return 3; }
    code := InsertEntry(fs, start, NewEntry(name, cl[0], |data|), dch);
  }
}
