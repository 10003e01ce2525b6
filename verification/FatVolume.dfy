// The FAT32 volume behind the sectors (lib/src/pifat.c): geometry, the FAT as a
// sequence of 32-bit entries, clusters as byte sequences, and the methods that
// read and patch them sector by sector through the cache.
module FatVolume {
  import opened Bytes
  import SC = SectorCache

  // A link at or above EOC ends a chain; LAST is the mark the code writes.
  const EOC: int := 0x0FFF_FFF8
  const LAST: u32 := 0x0FFF_FFFF

  datatype Geometry = Geometry(
    fatStart: u32, dataStart: u32, spc: u32, totSec32: u32, hiddSec: u32, rsvdSecCnt: u32, numFats: u32, fatSz32: u32)
  {
    /** Lines 325 and 356, with the code's 32-bit arithmetic (`Fits` rules out spc == 0). */
    function TotalClusters(): u32 {
      if spc == 0 then 0 else U32(totSec32 - (dataStart - (hiddSec + rsvdSecCnt + numFats * fatSz32))) / spc
    }

    /** One past the last cluster number the free scans visit. */
    function Limit(): (n: nat)
      ensures n >= 2
    {
      TotalClusters() + 2
    }

    /** The FAT and the data region cover every cluster the scans visit, below the 2^23-sector bound. */
    ghost predicate Fits() {
      && 1 <= spc <= 255
      && fatStart + (Limit() - 1) * 4 / 512 < dataStart
      && dataStart + TotalClusters() * spc <= SC.CARD
    }

    function ClusterBytes(): int {
      spc * 512
    }

    /** `fat32_cluster_to_lba`. */
    function Lba(c: int): u32 {
      U32(dataStart + (c - 2) * spc)
    }

    function FatSector(c: nat): int {
      fatStart + c * 4 / 512
    }
  }

  function FatIndex(c: nat): (i: nat)
    ensures i + 4 <= 512 && i % 4 == 0
  {
    c * 4 % 512
  }

  /** Link field of an entry: its low 28 bits. */
  function Low28(x: u32): u32 {
    x % TWO28
  }

  /** The entry after a write of `value`: the reserved top four bits stay. */
  function Merge(old_: u32, value: u32): (x: u32)
    ensures Low28(x) == Low28(value) && x / TWO28 == old_ / TWO28
  {
    old_ / TWO28 * TWO28 + value % TWO28
  }

  /** `fat` has an entry and `data` a cluster for every number below the limit (0 and 1 carry no
      data); `rest` is the card with the bytes of both blanked out. */
  datatype Volume = Volume(fat: seq<u32>, data: seq<seq<byte>>, rest: seq<byte>)

  ghost predicate VolumeShape(v: Volume, cb: nat) {
    && cb > 0 && cb % 512 == 0
    && |v.fat| == |v.data| && 2 <= |v.fat| <= EOC
    && forall c :: 2 <= c < |v.data| ==> |v.data[c]| == cb
  }

  function SetLink(fat: seq<u32>, c: nat, value: u32): (f: seq<u32>)
    requires c < |fat|
    ensures |f| == |fat|
  {
    fat[c := Merge(fat[c], value)]
  }

  /** The volume after one link write, one cluster write, one write inside a cluster. */
  function PutLink(v: Volume, c: nat, value: u32): Volume
    requires c < |v.fat|
  {
    v.(fat := SetLink(v.fat, c, value))
  }

  function PutCluster(v: Volume, c: nat, bytes: seq<byte>): Volume
    requires c < |v.data|
  {
    v.(data := v.data[c := bytes])
  }

  function PutBytes(v: Volume, c: nat, at: nat, bytes: seq<byte>): Volume
    requires c < |v.data| && at + |bytes| <= |v.data[c]|
  {
    PutCluster(v, c, Splice(v.data[c], at, bytes))
  }

  // ----- from sectors to the volume -----

  /** The entry of cluster `c` in the first FAT. */
  function Raw(card: seq<SC.Sector>, g: Geometry, c: nat): u32 {
    if g.FatSector(c) < |card| then ReadU32(card[g.FatSector(c)], FatIndex(c)) else 0
  }

  /** The bytes of data cluster `c`. */
  function ClusterAt(card: seq<SC.Sector>, g: Geometry, c: nat): seq<byte> {
    if 2 <= c && g.Lba(c) + g.spc <= |card| then Flatten(card[g.Lba(c)..g.Lba(c) + g.spc]) else []
  }

  /** Byte `k` of the card belongs to an entry of the first FAT, or to a data cluster. */
  predicate Seen(g: Geometry, k: int) {
    || 512 * g.fatStart <= k < 512 * g.fatStart + 4 * g.Limit()
    || 512 * g.dataStart <= k < 512 * g.dataStart + 512 * (g.TotalClusters() * g.spc)
  }

  function RestOf(card: seq<SC.Sector>, g: Geometry): (b: seq<byte>)
    ensures |b| == 512 * |card|
    ensures forall k :: 0 <= k < |b| ==> b[k] == if Seen(g, k) then 0 else card[k / 512][k % 512]
  {
    seq(512 * |card|, k requires 0 <= k < 512 * |card| => if Seen(g, k) then 0 else card[k / 512][k % 512])
  }

  ghost function VolumeOf(card: seq<SC.Sector>, g: Geometry): (v: Volume)
    ensures |v.fat| == |v.data| == g.Limit() && v.rest == RestOf(card, g)
    ensures forall c :: 0 <= c < g.Limit() ==> v.fat[c] == Raw(card, g, c)
    ensures forall c :: 0 <= c < g.Limit() ==> v.data[c] == ClusterAt(card, g, c)
  {
    Volume(seq(g.Limit(), c requires 0 <= c < g.Limit() => Raw(card, g, c)),
           seq(g.Limit(), c requires 0 <= c < g.Limit() => ClusterAt(card, g, c)),
           RestOf(card, g))
  }

  function Flatten(ss: seq<SC.Sector>): (b: seq<byte>)
    ensures |b| == 512 * |ss|
    ensures forall k :: 0 <= k < |b| ==> b[k] == ss[k / 512][k % 512]
  {
    seq(512 * |ss|, k requires 0 <= k < 512 * |ss| => ss[k / 512][k % 512])
  }

  lemma {:induction false} ProductGap(a: int, b: int, k: int)
    requires a < b && k >= 0
    ensures a * k + k <= b * k
    decreases b - a
  {
    assert b * k == (b - 1) * k + k;
    if a < b - 1 { ProductGap(a, b - 1, k); }
  }

  lemma ProductMod(base: int, a: int, k: int)
    requires base >= 0 && a >= 0 && k >= 0 && base + a * k < SC.CARD
    ensures U32(base + a * k) == base + a * k >= base
  {
    assert a * k >= 0;
  }

  lemma LbaRange(g: Geometry, c: nat)
    requires g.Fits() && 2 <= c < g.Limit()
    ensures g.dataStart <= g.Lba(c) == g.dataStart + (c - 2) * g.spc
    ensures g.Lba(c) + g.spc <= SC.CARD
  {
    ProductGap(c - 2, g.TotalClusters(), g.spc);
    ProductMod(g.dataStart, c - 2, g.spc);
  }

  lemma LbaDisjoint(g: Geometry, c: nat, d: nat)
    requires g.Fits() && 2 <= c < g.Limit() && 2 <= d < g.Limit() && c < d
    ensures g.Lba(c) + g.spc <= g.Lba(d)
  {
    LbaRange(g, c);
    LbaRange(g, d);
    ProductGap(c - 2, d - 2, g.spc);
  }

  lemma FatSectorRange(g: Geometry, c: nat)
    requires g.Fits() && c < g.Limit()
    ensures g.fatStart <= g.FatSector(c) < g.dataStart <= SC.CARD
  {
    hide Geometry.TotalClusters, Geometry.Limit;
    SectorMono(c, g.Limit() - 1);
    assert g.TotalClusters() * g.spc >= 0;
  }

  lemma SectorMono(c: nat, d: nat)
    requires c <= d
    ensures c * 4 / 512 <= d * 4 / 512
  {
  }

  lemma VolumeIsShaped(card: seq<SC.Sector>, g: Geometry)
    requires g.Fits() && |card| == SC.CARD
    ensures VolumeShape(VolumeOf(card, g), g.ClusterBytes())
  {
    hide VolumeOf, Raw, ClusterAt, Geometry.Lba, Geometry.TotalClusters, Geometry.Limit, Geometry.Fits;
    forall c | 2 <= c < g.Limit() ensures |VolumeOf(card, g).data[c]| == g.ClusterBytes() {
      ClusterSize(card, g, c);
    }
    LimitBound(g);
    SomeSectors(g);
  }

  lemma ClusterSize(card: seq<SC.Sector>, g: Geometry, c: nat)
    requires g.Fits() && |card| == SC.CARD && 2 <= c < g.Limit()
    ensures |ClusterAt(card, g, c)| == g.ClusterBytes()
  {
    hide Geometry.Lba, Geometry.TotalClusters, Geometry.Limit;
    LbaRange(g, c);
  }

  lemma SomeSectors(g: Geometry)
    requires g.Fits()
    ensures g.ClusterBytes() > 0 && g.ClusterBytes() % 512 == 0
  {
    hide Geometry.TotalClusters, Geometry.Limit;
    assert g.spc * 512 % 512 == 0;
  }

  lemma LimitBound(g: Geometry)
    requires g.Fits()
    ensures g.Limit() <= SC.CARD + 2 < EOC
  {
    if g.TotalClusters() > 0 { ProductGap(0, g.spc, g.TotalClusters()); }
  }

  // ----- one patched sector is one patched entry or one patched cluster -----

  lemma RawAfterFatPatch(card: seq<SC.Sector>, g: Geometry, c: nat, value: u32, d: nat)
    requires g.Fits() && |card| == SC.CARD && c < g.Limit() && d < g.Limit()
    ensures g.FatSector(c) < SC.CARD
    ensures Raw(card[g.FatSector(c) := WriteU32(card[g.FatSector(c)], FatIndex(c), value)], g, d)
         == if d == c then value else Raw(card, g, d)
  {
    FatSectorRange(g, c);
    FatSectorRange(g, d);
    if d != c && g.FatSector(d) == g.FatSector(c) {
      assert FatIndex(d) + 4 <= FatIndex(c) || FatIndex(c) + 4 <= FatIndex(d);
      WriteU32Elsewhere(card[g.FatSector(c)], FatIndex(c), value, FatIndex(d));
    }
  }

  /** Sectors below the data region do not show in any cluster. */
  lemma ClusterAfterFatPatch(card: seq<SC.Sector>, g: Geometry, i: nat, s: SC.Sector, d: nat)
    requires g.Fits() && |card| == SC.CARD && i < g.dataStart && i < SC.CARD && d < g.Limit()
    ensures ClusterAt(card[i := s], g, d) == ClusterAt(card, g, d)
  {
    if d >= 2 {
      LbaRange(g, d);
      assert card[i := s][g.Lba(d)..g.Lba(d) + g.spc] == card[g.Lba(d)..g.Lba(d) + g.spc];
    }
  }

  /** A sector patched only in bytes that are seen leaves the rest as it is. */
  lemma RestStays(card: seq<SC.Sector>, g: Geometry, i: nat, s: SC.Sector)
    requires i < |card| && forall j :: 0 <= j < 512 && s[j] != card[i][j] ==> Seen(g, 512 * i + j)
    ensures RestOf(card[i := s], g) == RestOf(card, g)
  {
    hide Seen;
    var a, b := RestOf(card[i := s], g), RestOf(card, g);
    hide RestOf;
    forall k | 0 <= k < |a| ensures a[k] == b[k] {
      if k / 512 == i { assert k == 512 * i + k % 512; }
    }
  }

  lemma FatBytesSeen(g: Geometry, c: nat, j: nat)
    requires g.Fits() && c < g.Limit() && FatIndex(c) <= j < FatIndex(c) + 4
    ensures Seen(g, 512 * g.FatSector(c) + j)
  {
    hide Geometry.TotalClusters, Geometry.Limit;
    assert 4 * c == 512 * (4 * c / 512) + 4 * c % 512;
  }

  lemma FatRest(card: seq<SC.Sector>, g: Geometry, c: nat, value: u32)
    requires g.Fits() && |card| == SC.CARD && c < g.Limit()
    ensures g.FatSector(c) < SC.CARD
    ensures RestOf(card[g.FatSector(c) := WriteU32(card[g.FatSector(c)], FatIndex(c), value)], g) == RestOf(card, g)
  {
    hide RestOf, Seen, Geometry.TotalClusters, Geometry.Limit;
    FatSectorRange(g, c);
    var at := g.FatSector(c);
    var s: SC.Sector := WriteU32(card[at], FatIndex(c), value);
    forall j | 0 <= j < 512 && s[j] != card[at][j] ensures Seen(g, 512 * at + j) { FatBytesSeen(g, c, j); }
    RestStays(card, g, at, s);
  }

  lemma DataBytesSeen(g: Geometry, c: nat, i: nat, j: nat)
    requires g.Fits() && 2 <= c < g.Limit() && i < g.spc && j < 512
    ensures Seen(g, 512 * (g.Lba(c) + i) + j)
  {
    LbaRange(g, c);
    ProductGap(c - 2, g.TotalClusters(), g.spc);
    assert (c - 2) * g.spc >= 0;
  }

  lemma FatPatch(card: seq<SC.Sector>, g: Geometry, c: nat, value: u32)
    requires g.Fits() && |card| == SC.CARD && c < g.Limit()
    ensures g.FatSector(c) < SC.CARD
    ensures VolumeOf(card[g.FatSector(c) := WriteU32(card[g.FatSector(c)], FatIndex(c), value)], g)
         == VolumeOf(card, g).(fat := VolumeOf(card, g).fat[c := value])
  {
    FatSectorRange(g, c);
    var s: SC.Sector := WriteU32(card[g.FatSector(c)], FatIndex(c), value);
    var v, w := VolumeOf(card, g), VolumeOf(card[g.FatSector(c) := s], g);
    forall d | 0 <= d < g.Limit() ensures w.fat[d] == v.fat[c := value][d] {
      RawAfterFatPatch(card, g, c, value, d);
    }
    forall d | 0 <= d < g.Limit() ensures w.data[d] == v.data[d] {
      ClusterAfterFatPatch(card, g, g.FatSector(c), s, d);
    }
    FatRest(card, g, c, value);
    assert w.fat == v.fat[c := value];
    assert w.data == v.data;
  }

  lemma FlattenPatch(ss: seq<SC.Sector>, i: nat, s: SC.Sector)
    requires i < |ss|
    ensures Flatten(ss[i := s]) == Splice(Flatten(ss), i * 512, s)
  {
    var a, b := Flatten(ss[i := s]), Splice(Flatten(ss), i * 512, s);
    forall k | 0 <= k < |a| ensures a[k] == b[k] {
      assert k / 512 == i <==> i * 512 <= k < i * 512 + 512;
      assert k / 512 == i ==> k % 512 == k - i * 512;
    }
  }

  lemma FlattenSlice(ss: seq<SC.Sector>, i: nat)
    requires i < |ss|
    ensures Flatten(ss)[i * 512..i * 512 + 512] == ss[i]
  {
    var a := Flatten(ss)[i * 512..i * 512 + 512];
    forall k | 0 <= k < 512 ensures a[k] == ss[i][k] {
      assert a[k] == Flatten(ss)[i * 512 + k];
      assert (i * 512 + k) / 512 == i && (i * 512 + k) % 512 == k;
    }
  }

  lemma ClusterAfterDataPatch(card: seq<SC.Sector>, g: Geometry, c: nat, i: nat, s: SC.Sector, d: nat)
    requires g.Fits() && |card| == SC.CARD && 2 <= c < g.Limit() && i < g.spc && d < g.Limit()
    ensures g.Lba(c) + i < SC.CARD && |ClusterAt(card, g, c)| == g.ClusterBytes() && i * 512 + 512 <= g.ClusterBytes()
    ensures ClusterAt(card[g.Lba(c) + i := s], g, d)
         == if d == c then Splice(ClusterAt(card, g, c), i * 512, s) else ClusterAt(card, g, d)
  {
    hide Flatten, Splice, Geometry.Lba, Geometry.Limit, Geometry.TotalClusters, Geometry.Fits;
    LbaRange(g, c);
    SpcBound(g, i);
    if d >= 2 {
      LbaRange(g, d);
      var lo := g.Lba(d);
      if d == c {
        UpdateInside(card, lo, g.spc, i, s);
        FlattenPatch(card[lo..lo + g.spc], i, s);
      } else {
        if d < c { LbaDisjoint(g, d, c); } else { LbaDisjoint(g, c, d); }
        UpdateElsewhere(card, lo, g.spc, g.Lba(c) + i, s);
      }
    }
  }

  lemma SpcBound(g: Geometry, i: nat)
    requires g.Fits() && i < g.spc
    ensures g.ClusterBytes() == 512 * g.spc && i * 512 + 512 <= g.ClusterBytes()
  {
    hide Geometry.TotalClusters, Geometry.Limit;
  }

  lemma UpdateInside(card: seq<SC.Sector>, lo: nat, n: nat, i: nat, s: SC.Sector)
    requires lo + n <= |card| && i < n
    ensures card[lo + i := s][lo..lo + n] == card[lo..lo + n][i := s]
  {
  }

  lemma UpdateElsewhere(card: seq<SC.Sector>, lo: nat, n: nat, k: nat, s: SC.Sector)
    requires lo + n <= |card| && k < |card| && !(lo <= k < lo + n)
    ensures card[k := s][lo..lo + n] == card[lo..lo + n]
  {
  }

  lemma DataRest(card: seq<SC.Sector>, g: Geometry, c: nat, i: nat, s: SC.Sector)
    requires g.Fits() && |card| == SC.CARD && 2 <= c < g.Limit() && i < g.spc
    ensures g.Lba(c) + i < SC.CARD && RestOf(card[g.Lba(c) + i := s], g) == RestOf(card, g)
  {
    hide RestOf, Seen, Geometry.TotalClusters, Geometry.Limit;
    LbaRange(g, c);
    var at := g.Lba(c) + i;
    forall j | 0 <= j < 512 && s[j] != card[at][j] ensures Seen(g, 512 * at + j) { DataBytesSeen(g, c, i, j); }
    RestStays(card, g, at, s);
  }

  lemma DataPatch(card: seq<SC.Sector>, g: Geometry, c: nat, i: nat, s: SC.Sector)
    requires g.Fits() && |card| == SC.CARD && 2 <= c < g.Limit() && i < g.spc
    ensures g.Lba(c) + i < SC.CARD && |ClusterAt(card, g, c)| == g.ClusterBytes() && i * 512 + 512 <= g.ClusterBytes()
    ensures VolumeOf(card[g.Lba(c) + i := s], g) == PutBytes(VolumeOf(card, g), c, i * 512, s)
  {
    LbaRange(g, c);
    var v, w := VolumeOf(card, g), VolumeOf(card[g.Lba(c) + i := s], g);
    forall d | 0 <= d < g.Limit() ensures w.fat[d] == v.fat[d] {
      FatSectorRange(g, d);
    }
    ClusterAfterDataPatch(card, g, c, i, s, c);
    forall d | 0 <= d < g.Limit()
      ensures w.data[d] == v.data[c := Splice(v.data[c], i * 512, s)][d]
    {
      ClusterAfterDataPatch(card, g, c, i, s, d);
    }
    hide VolumeOf, RestOf, Geometry.Fits;
    DataRest(card, g, c, i, s);
    assert w.fat == v.fat;
    assert w.data == v.data[c := Splice(v.data[c], i * 512, s)];
  }
}
