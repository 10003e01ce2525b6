// The slot loops of lib/src/pifat.c over one cluster, sector by sector.
module FatSectors {
  import opened Bytes
  import opened FatVolume
  import opened FatDir
  import opened FatStore
  import SC = SectorCache

  /** Sector `s` of a cluster. */
  function SectorOf(bytes: seq<byte>, s: nat): (b: SC.Sector)
    requires 512 * s + 512 <= |bytes|
  {
    bytes[512 * s..512 * s + 512]
  }

  lemma SlotOfSector(bytes: seq<byte>, s: nat, i: nat)
    requires 512 * s + 512 <= |bytes| && i < 16
    ensures 32 * (16 * s + i) + 32 <= |bytes|
    ensures SlotAt(SectorOf(bytes, s), i) == SlotAt(bytes, 16 * s + i)
    ensures SectorOf(bytes, s)[32 * i] == bytes[32 * (16 * s + i)]
  {
    var a, b := SlotAt(SectorOf(bytes, s), i), SlotAt(bytes, 16 * s + i);
    forall k | 0 <= k < 32 ensures a[k] == b[k] {
      assert a[k] == SectorOf(bytes, s)[32 * i + k] == bytes[512 * s + 32 * i + k];
    }
  }

  // ----- a cluster-wide scan is the sector scans in sequence -----

  lemma {:induction false} VacantBySector(bytes: seq<byte>, s: nat, i: nat)
    requires 512 * s + 512 <= |bytes| && i <= 16
    ensures var p := VacantFrom(SectorOf(bytes, s), i); VacantFrom(bytes, 16 * s + i) == if p < 16 then 16 * s + p else VacantFrom(bytes, 16 * (s + 1))
    decreases 16 - i
  {
    hide *;
    VacantNext(SectorOf(bytes, s), i);
    if i < 16 {
      SlotOfSector(bytes, s, i);
      VacantNext(bytes, 16 * s + i);
      VacantBySector(bytes, s, i + 1);
    }
  }

  lemma VacantNext(bytes: seq<byte>, j: nat)
    ensures 32 * j + 32 > |bytes| ==> VacantFrom(bytes, j) == j
    ensures 32 * j + 32 <= |bytes| ==> VacantFrom(bytes, j) == if bytes[32 * j] == 0 || bytes[32 * j] == FREE then j else VacantFrom(bytes, j + 1)
  {
  }

  lemma {:induction false} FindBySector(bytes: seq<byte>, s: nat, i: nat, name: seq<byte>)
    requires 512 * s + 512 <= |bytes| && i <= 16
    ensures FindFrom(bytes, 16 * s + i, name) == match FindFrom(SectorOf(bytes, s), i, name)
                                                 case Stop => Stop
                                                 case Found(k) => Found(16 * s + k)
                                                 case Past => FindFrom(bytes, 16 * (s + 1), name)
    decreases 16 - i
  {
    hide FindFrom, SlotAt, StrnEq, SectorOf;
    FindStep(SectorOf(bytes, s), i, name);
    if i < 16 {
      SlotOfSector(bytes, s, i);
      FindStep(bytes, 16 * s + i, name);
      FindBySector(bytes, s, i + 1, name);
    }
  }

  /** One slot of a search. */
  lemma FindStep(bytes: seq<byte>, j: nat, name: seq<byte>)
    ensures 32 * j + 32 > |bytes| ==> FindFrom(bytes, j, name) == Past
    ensures 32 * j + 32 <= |bytes| ==> FindFrom(bytes, j, name) == if bytes[32 * j] == 0 then Stop else if bytes[32 * j] != FREE && StrnEq(SlotAt(bytes, j), name, 11) then Found(j) else FindFrom(bytes, j + 1, name)
  {
    hide StrnEq;
  }

  /** The listing of one sector, and whether it met the end of the directory. */
  function SectorList(buf: SC.Sector, i: nat): (r: (seq<Slot>, bool))
    requires i <= 16
    decreases 16 - i
  {
    if i == 16 then ([], false)
    else
      var e := SlotAt(buf, i);
      if e[0] == 0 then ([], true)
      else
        var r := SectorList(buf, i + 1);
        ((if Listed(e) then [e] else []) + r.0, r.1)
  }

  /** A sector's listing, carried on by `rest` unless the directory ended in it. */
  function CarriedOn(r: (seq<Slot>, bool), rest: seq<Slot>): seq<Slot> {
    r.0 + (if r.1 then [] else rest)
  }

  lemma CarriedOnIs(l: seq<Slot>, ended: bool, rest: seq<Slot>)
    ensures CarriedOn((l, ended), rest) == if ended then l else l + rest
  {
    assert l + [] == l;
  }

  lemma CarriedOnMore(l: seq<Slot>, r: (seq<Slot>, bool), rest: seq<Slot>)
    ensures l + CarriedOn(r, rest) == CarriedOn((l + r.0, r.1), rest)
    ensures CarriedOn(([], true), rest) == [] && CarriedOn(([], false), rest) == rest
  {
  }

  lemma {:induction false} ListBySector(bytes: seq<byte>, s: nat, i: nat)
    requires 512 * s + 512 <= |bytes| && i <= 16
    ensures ListFrom(bytes, 16 * s + i) == CarriedOn(SectorList(SectorOf(bytes, s), i), ListFrom(bytes, 16 * (s + 1)))
    decreases 16 - i
  {
    hide *;
    var buf, rest := SectorOf(bytes, s), ListFrom(bytes, 16 * (s + 1));
    if i < 16 {
      SlotOfSector(bytes, s, i);
      ListBySector(bytes, s, i + 1);
      SectorListStep(buf, i);
      ListStep(bytes, 16 * s + i);
      CarriedOnMore(Shown(SlotAt(buf, i)), SectorList(buf, i + 1), rest);
    } else {
      SectorListEnd(buf);
      CarriedOnMore([], ([], false), rest);
    }
  }

  /** What a slot that does not end the listing contributes. */
  function Shown(e: Slot): seq<Slot> {
    if Listed(e) then [e] else []
  }

  lemma ListStep(bytes: seq<byte>, j: nat)
    requires 32 * j + 32 <= |bytes|
    ensures SlotAt(bytes, j)[0] == 0 ==> ListFrom(bytes, j) == []
    ensures SlotAt(bytes, j)[0] != 0 ==> ListFrom(bytes, j) == Shown(SlotAt(bytes, j)) + ListFrom(bytes, j + 1)
  {
  }

  lemma SectorListStep(buf: SC.Sector, i: nat)
    requires i < 16
    ensures SlotAt(buf, i)[0] == 0 ==> SectorList(buf, i) == ([], true)
    ensures SlotAt(buf, i)[0] != 0 ==> SectorList(buf, i) == (Shown(SlotAt(buf, i)) + SectorList(buf, i + 1).0, SectorList(buf, i + 1).1)
  {
  }

  // ----- one sector -----

  /** The `off` loop of lines 430-440: the slot number of the first vacant slot, or 16. */
  method VacantInSector(buf: SC.Sector) returns (i: nat)
    ensures i == VacantFrom(buf, 0) <= 16
  {
    var off := 0;
    while off < 512
      invariant off % 32 == 0 && 0 <= off <= 512
      invariant VacantFrom(buf, off / 32) == VacantFrom(buf, 0)
    {
      if buf[off] == 0 || buf[off] == 0xE5 {
        return off / 32;
      }
      off := off + 32;
    }
    i := 16;
  }

  /** The `off` loop of lines 604-622 and 641-657. */
  method FindInSector(buf: SC.Sector, name: seq<byte>) returns (h: Hit)
    ensures h == FindFrom(buf, 0, name)
  {
    var off := 0;
    while off < 512
      invariant off % 32 == 0 && 0 <= off <= 512
      invariant FindFrom(buf, off / 32, name) == FindFrom(buf, 0, name)
    {
      if buf[off] == 0 {
        return Stop;
      }
      if buf[off] != 0xE5 && StrnEq(buf[off..off + 32], name, 11) {
        return Found(off / 32);
      }
      off := off + 32;
    }
    h := Past;
  }

  // ----- the buffer of pending long-name slots -----

  predicate Long(e: Slot) { e[0] != 0 && e[0] != FREE && Attr(e) == ATTR_LFN }

  /** From slot `j` on, with `n` long-name slots pending, never more than 20 are. */
  predicate LongFits(bytes: seq<byte>, j: nat, n: nat)
    decreases |bytes| - 32 * j
  {
    if 32 * j + 32 > |bytes| || bytes[32 * j] == 0 then true
    else if Long(SlotAt(bytes, j)) then n < 20 && LongFits(bytes, j + 1, n + 1)
    else LongFits(bytes, j + 1, 0)
  }

  /** Slots `j` to `j + 20` are 21 long-name slots in a row that the scan gets to. */
  ghost predicate LongRun(bytes: seq<byte>, from: nat, j: nat) {
    && 32 * (j + 21) <= |bytes| && (forall i: nat :: from <= i < j ==> bytes[32 * i] != 0)
    && forall i: nat :: j <= i < j + 21 ==> Long(SlotAt(bytes, i))
  }

  /** The buffer of 20 suffices exactly when the scan meets no 21 long-name slots in a row. */
  lemma LongFitsExact(bytes: seq<byte>)
    ensures LongFits(bytes, 0, 0) <==> forall j: nat {:trigger LongRun(bytes, 0, j)} :: !LongRun(bytes, 0, j)
  {
    LongFitsFrom(bytes, 0, 0);
  }

  lemma {:induction false} LongFitsFrom(bytes: seq<byte>, from: nat, n: nat)
    requires n <= 20 && 32 * (from + n) <= |bytes|
    requires forall i: nat :: from <= i < from + n ==> Long(SlotAt(bytes, i))
    ensures LongFits(bytes, from + n, n) <==> forall j: nat {:trigger LongRun(bytes, from, j)} :: from <= j ==> !LongRun(bytes, from, j)
    decreases |bytes| - 32 * (from + n)
  {
    var k := from + n;
    if 32 * k + 32 > |bytes| || bytes[32 * k] == 0 {
      forall j: nat {:trigger LongRun(bytes, from, j)} | from <= j ensures !LongRun(bytes, from, j) {
        NoRunOver(bytes, from, j, k);
      }
    } else if Long(SlotAt(bytes, k)) {
      if n < 20 {
        LongFitsFrom(bytes, from, n + 1);
      } else {
        assert LongRun(bytes, from, from);
      }
    } else {
      LongFitsFrom(bytes, k + 1, 0);
      LongBroken(bytes, from, k);
    }
  }

  lemma NoRunOver(bytes: seq<byte>, from: nat, j: nat, k: nat)
    requires from <= k && k < j + 21 && (32 * k + 32 > |bytes| || (bytes[32 * k] == 0) || (j <= k && !Long(SlotAt(bytes, k))))
    ensures !LongRun(bytes, from, j)
  {
    if LongRun(bytes, from, j) {
      if k < j { RunUsed(bytes, from, j, k); } else { RunLong(bytes, from, j, k); }
    }
  }

  lemma RunUsed(bytes: seq<byte>, from: nat, j: nat, k: nat)
    requires LongRun(bytes, from, j) && from <= k < j
    ensures 32 * k + 32 <= |bytes| && bytes[32 * k] != 0
  {
  }

  lemma RunLong(bytes: seq<byte>, from: nat, j: nat, k: nat)
    requires LongRun(bytes, from, j) && j <= k < j + 21
    ensures 32 * k + 32 <= |bytes| && Long(SlotAt(bytes, k))
  {
  }

  /** A slot of another kind breaks the run. */
  lemma LongBroken(bytes: seq<byte>, from: nat, k: nat)
    requires from <= k <= from + 20 && 32 * k + 32 <= |bytes| && bytes[32 * k] != 0 && !Long(SlotAt(bytes, k))
    requires forall i: nat :: from <= i < k ==> Long(SlotAt(bytes, i))
    ensures (forall j: nat {:trigger LongRun(bytes, from, j)} :: from <= j ==> !LongRun(bytes, from, j)) <==> forall j: nat {:trigger LongRun(bytes, k + 1, j)} :: k + 1 <= j ==> !LongRun(bytes, k + 1, j)
  {
    forall j: nat {:trigger LongRun(bytes, from, j)} | from <= j <= k ensures !LongRun(bytes, from, j) {
      NoRunOver(bytes, from, j, k);
    }
    forall j: nat {:trigger LongRun(bytes, from, j)} {:trigger LongRun(bytes, k + 1, j)} | k + 1 <= j ensures LongRun(bytes, from, j) <==> LongRun(bytes, k + 1, j) {
      forall i: nat | from <= i < k ensures bytes[32 * i] != 0 { assert Long(SlotAt(bytes, i)); }
    }
  }

  lemma LongInSector(bytes: seq<byte>, s: nat, i: nat, n: nat)
    requires 512 * s + 512 <= |bytes| && i < 16 && LongFits(bytes, 16 * s + i, n)
    ensures var e := SlotAt(SectorOf(bytes, s), i); e[0] != 0 ==> if Long(e) then n < 20 && LongFits(bytes, 16 * s + i + 1, n + 1) else LongFits(bytes, 16 * s + i + 1, 0)
  {
    SlotOfSector(bytes, s, i);
  }

  /** The `off` loop of lines 137-180: `lfn` holds the long-name slots pending. */
  method ListSector(buf: SC.Sector, lfn: array<nat>, pending: nat, ghost bytes: seq<byte>, ghost s: nat)
    returns (entries: seq<Slot>, ended: bool, pending': nat)
    requires lfn.Length == 20 && 512 * s + 512 <= |bytes| && buf == SectorOf(bytes, s) && LongFits(bytes, 16 * s, pending)
    modifies lfn
    ensures (entries, ended) == SectorList(buf, 0)
    ensures !ended ==> LongFits(bytes, 16 * (s + 1), pending')
  {
    hide *;
    entries, pending' := [], pending;
    var off := 0;
    ListStart(buf);
    while off < 512
      invariant off % 32 == 0 && 0 <= off <= 512 && ListAt(buf, off / 32, entries)
      invariant LongFits(bytes, 16 * s + off / 32, pending')
    {
      var e: Slot := buf[off..off + 32];
      ListTurn(buf, off / 32, entries, e);
      LongInSector(bytes, s, off / 32, pending');
      if e[0] == 0 {
        return entries, true, pending';
      }
      LongIs(e);
      if e[0] != 0xE5 && Attr(e) == 0x0F {
        lfn[pending'] := off;
        pending' := pending' + 1;
      } else {
        pending' := 0;
      }
      if e[0] != 0xE5 && Attr(e) != 0x0F && Attr(e) / 8 % 2 == 0 {
        entries := entries + [e];
      }
      off := off + 32;
    }
    ListDone(buf, entries);
    ended := false;
  }

  /** The listing is `entries` and what is still to come from slot `i` on. */
  ghost predicate ListAt(buf: SC.Sector, i: nat, entries: seq<Slot>) {
    i <= 16 && SectorList(buf, 0) == (entries + SectorList(buf, i).0, SectorList(buf, i).1)
  }

  lemma ListStart(buf: SC.Sector)
    ensures ListAt(buf, 0, [])
  {
    assert [] + SectorList(buf, 0).0 == SectorList(buf, 0).0;
  }

  lemma ListTurn(buf: SC.Sector, i: nat, entries: seq<Slot>, e: Slot)
    requires ListAt(buf, i, entries) && i < 16 && e == buf[32 * i..32 * i + 32]
    ensures e == SlotAt(buf, i)
    ensures e[0] == 0 ==> (entries, true) == SectorList(buf, 0)
    ensures e[0] != 0 ==> ListAt(buf, i + 1, if e[0] != 0xE5 && Attr(e) != 0x0F && Attr(e) / 8 % 2 == 0 then entries + [e] else entries)
  {
    SectorListStep(buf, i);
    if e[0] == 0 {
      assert entries + [] == entries;
    } else {
      ListedIs(e);
      hide SectorList, Listed;
      assert entries + (Shown(e) + SectorList(buf, i + 1).0) == (entries + Shown(e)) + SectorList(buf, i + 1).0;
      assert Shown(e) == [] ==> entries + Shown(e) == entries;
    }
  }

  lemma ListDone(buf: SC.Sector, entries: seq<Slot>)
    requires ListAt(buf, 16, entries)
    ensures SectorList(buf, 0) == (entries, false)
  {
    SectorListEnd(buf);
    assert entries + [] == entries;
  }

  lemma LongIs(e: Slot)
    ensures e[0] != 0 ==> (Long(e) <==> e[0] != 0xE5 && Attr(e) == 0x0F)
  {
  }

  lemma ListedIs(e: Slot)
    requires e[0] != 0
    ensures Shown(e) == if e[0] != 0xE5 && Attr(e) != 0x0F && Attr(e) / 8 % 2 == 0 then [e] else []
  {
  }

  lemma SectorListEnd(buf: SC.Sector)
    ensures SectorList(buf, 16) == ([], false)
  {
  }

  // ----- one cluster -----

  /** A slot written inside a sector buffer is a slot written inside the cluster. */
  lemma SlotInSector(bytes: seq<byte>, s: nat, i: nat, x: seq<byte>)
    requires 512 * s + 512 <= |bytes| && i < 16 && |x| <= 32
    ensures Splice(bytes, s * 512, Splice(SectorOf(bytes, s), 32 * i, x)) == Splice(bytes, 32 * (16 * s + i), x)
  {
    var a, b := Splice(bytes, s * 512, Splice(SectorOf(bytes, s), 32 * i, x)), Splice(bytes, 32 * (16 * s + i), x);
    forall k | 0 <= k < |bytes| ensures a[k] == b[k] {
      if 512 * s <= k < 512 * s + 512 {
        assert SectorOf(bytes, s)[k - 512 * s] == bytes[k];
      }
    }
  }

  lemma PutSlot(v: Volume, c: nat, s: nat, i: nat, x: seq<byte>)
    requires c < |v.data| && 512 * s + 512 <= |v.data[c]| && i < 16 && |x| <= 32
    ensures 32 * (16 * s + i) + |x| <= |v.data[c]|
    ensures PutBytes(v, c, s * 512, Splice(SectorOf(v.data[c], s), 32 * i, x)) == PutBytes(v, c, 32 * (16 * s + i), x)
  {
    SlotInSector(v.data[c], s, i, x);
  }

  /** Lines 425-441: the entry goes into the first vacant slot of the cluster, if it has one. */
  method InsertInCluster(fs: Store, c: nat, e: Slot) returns (done: bool)
    requires fs.Valid() && 2 <= c < fs.g.Limit()
    modifies fs.cache.card, fs.cache.data, fs.cache.tag, fs.cache.valid
    ensures fs.Valid()
    ensures done <==> 32 * VacantFrom(old(fs.Vol()).data[c], 0) + 32 <= fs.g.ClusterBytes()
    ensures !done ==> fs.Vol() == old(fs.Vol())
    ensures done ==> fs.Vol() == PutBytes(old(fs.Vol()), c, 32 * VacantFrom(old(fs.Vol()).data[c], 0), e)
  {
    hide *;
    ghost var v := fs.Vol();
    ghost var bytes := v.data[c];
    for s := 0 to fs.g.spc
      invariant fs.Valid() && fs.Vol() == v
      invariant VacantFrom(bytes, 16 * s) == VacantFrom(bytes, 0)
    {
      var buf := fs.ReadClusterSector(c, s);
      SectorIs(bytes, s);
      VacantBySector(bytes, s, 0);
      var i := VacantInSector(buf);
      if i < 16 {
        PutSlot(v, c, s, i, e);
        buf := Splice(buf, 32 * i, e);
        fs.WriteClusterSector(c, s, buf);
        return true;
      }
    }
    VacantPast(bytes, fs.g.spc);
    done := false;
  }

  lemma SectorIs(bytes: seq<byte>, s: nat)
    requires 512 * s + 512 <= |bytes|
    ensures bytes[s * 512..s * 512 + 512] == SectorOf(bytes, s)
  {
  }

  lemma VacantPast(bytes: seq<byte>, spc: nat)
    requires |bytes| == spc * 512
    ensures VacantFrom(bytes, 16 * spc) == 16 * spc && 32 * (16 * spc) + 32 > |bytes|
  {
  }

  /** Lines 599-623 and 636-658: where the scan of the cluster ends. */
  method FindInCluster(fs: Store, c: nat, name: seq<byte>) returns (h: Hit)
    requires fs.Valid() && 2 <= c < fs.g.Limit()
    modifies fs.cache.data, fs.cache.tag, fs.cache.valid
    ensures fs.Valid() && fs.Vol() == old(fs.Vol())
    ensures h == FindFrom(fs.Vol().data[c], 0, name)
  {
    hide *;
    ghost var v := fs.Vol();
    ghost var bytes := v.data[c];
    for s := 0 to fs.g.spc
      invariant fs.Valid() && fs.Vol() == v
      invariant FindFrom(bytes, 16 * s, name) == FindFrom(bytes, 0, name)
    {
      var buf := fs.ReadClusterSector(c, s);
      SectorIs(bytes, s);
      FindBySector(bytes, s, 0, name);
      h := FindInSector(buf, name);
      if h.Stop? { return; }
      if h.Found? { return Found(16 * s + h.slot); }
    }
    FindPast(bytes, fs.g.spc, name);
    h := Past;
  }

  lemma FindPast(bytes: seq<byte>, spc: nat, name: seq<byte>)
    requires |bytes| == spc * 512
    ensures FindFrom(bytes, 16 * spc, name) == Past && ListFrom(bytes, 16 * spc) == []
  {
  }

  /** `fat32_list_data_lba`. */
  method ListCluster(fs: Store, c: nat) returns (entries: seq<Slot>)
    requires fs.Valid() && 2 <= c < fs.g.Limit() && LongFits(fs.Vol().data[c], 0, 0)
    modifies fs.cache.data, fs.cache.tag, fs.cache.valid
    ensures fs.Valid() && fs.Vol() == old(fs.Vol())
    ensures entries == ListFrom(fs.Vol().data[c], 0)
  {
    hide *;
    ghost var v := fs.Vol();
    ghost var bytes := v.data[c];
    var lfn := new nat[20];
    var pending := 0;
    entries := [];
    for s := 0 to fs.g.spc
      invariant fs.Valid() && fs.Vol() == v && LongFits(bytes, 16 * s, pending)
      invariant entries + ListFrom(bytes, 16 * s) == ListFrom(bytes, 0)
    {
      var buf := fs.ReadClusterSector(c, s);
      SectorIs(bytes, s);
      ListBySector(bytes, s, 0);
      var some, ended;
      some, ended, pending := ListSector(buf, lfn, pending, bytes, s);
      CarriedOnMore(entries, (some, ended), ListFrom(bytes, 16 * (s + 1)));
      CarriedOnIs(entries + some, ended, ListFrom(bytes, 16 * (s + 1)));
      entries := entries + some;
      if ended { return; }
    }
    FindPast(bytes, fs.g.spc, []);
    assert entries + [] == entries;
  }
}
