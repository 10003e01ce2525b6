// A mounted volume: the geometry read at mount time plus the cached card, with the
// sector-level methods of lib/src/pifat.c proved against the volume they implement.
module FatStore {
  import opened Bytes
  import opened FatVolume
  import opened FatLayout
  import SC = SectorCache

  class Store {
    const cache: SC.Cache
    const g: Geometry

    constructor (cache: SC.Cache, g: Geometry)
      ensures this.cache == cache && this.g == g
    {
      this.cache := cache;
      this.g := g;
    }

    ghost predicate Valid()
      reads cache.card, cache.data, cache.tag, cache.valid
      ensures Valid() ==> VolumeShape(Vol(), g.ClusterBytes()) && |Vol().fat| == |Vol().data| == g.Limit() <= 0x0FFF_FFF8
      ensures Valid() ==> 0 < g.ClusterBytes() == g.spc * 512 <= 255 * 512
      ensures Valid() ==> forall c :: 2 <= c < g.Limit() ==> |Vol().data[c]| == g.ClusterBytes()
    {
      if cache.Valid() && g.Fits() then VolumeIsShaped(cache.card[..], g); true else false
    }

    ghost function Vol(): Volume
      reads cache.card
    {
      VolumeOf(cache.card[..], g)
    }

    /** Lines 325, 328: the bound of the scan loops. */
    method ScanLimit() returns (n: nat)
      ensures n == g.Limit()
    {
      n := g.TotalClusters() + 2;
    }

    /** `fat32_fat_next_cluster`. */
    method NextCluster(c: nat) returns (n: u32)
      requires Valid() && c < g.Limit()
      modifies cache.data, cache.tag, cache.valid
      ensures Valid() && Vol() == old(Vol())
      ensures n == Low28(Vol().fat[c])
      ensures g.fatStart <= g.dataStart <= cache.card.Length && 4 * c + 4 <= 512 * (g.dataStart - g.fatStart)
      ensures var b: seq<int> := Flatten(cache.card[..][g.fatStart..g.dataStart]); n == (b[4 * c] + 0x100 * b[4 * c + 1] + 0x1_0000 * b[4 * c + 2] + 0x100_0000 * b[4 * c + 3]) % 0x1000_0000
    {
      hide Flatten, RestOf, ClusterAt, Geometry.TotalClusters, Geometry.Limit, SC.State.Coherent;
      FatSectorRange(g, c);
      EntryPosition(cache.card[..], g, c);
      var buf := cache.ReadSector(g.FatSector(c));
      var val := ReadU32(buf, FatIndex(c));
      n := val % TWO28;
    }

    /** `fat32_write_fat_cluster_entry`. */
    method WriteEntry(c: nat, value: u32)
      requires Valid() && c < g.Limit()
      modifies cache.card, cache.data, cache.tag, cache.valid
      ensures Valid()
      ensures Vol() == PutLink(old(Vol()), c, value)
      ensures cache.card.Length == SC.CARD
      ensures forall k :: 0 <= k < 512 * SC.CARD && !(512 * g.fatStart + 4 * c <= k < 512 * g.fatStart + 4 * c + 4) ==> CardByte(cache.card[..], k) == old(CardByte(cache.card[..], k))
    {
      hide Flatten, RestOf, ClusterAt, CardByte, Geometry.TotalClusters, Geometry.Limit, SC.State.Coherent;
      FatSectorRange(g, c);
      ghost var card0 := cache.card[..];
      var buf := cache.ReadSector(g.FatSector(c));
      var was := ReadU32(buf, FatIndex(c));
      var now := was / TWO28 * TWO28 + value % TWO28;
      buf := WriteU32(buf, FatIndex(c), now);
      cache.WriteSector(buf, g.FatSector(c));
      FatPatch(card0, g, c, now);
      LinkBytes(card0, cache.card[..], g, c, value);
    }

    /** `fs_read_sector` of sector `i` of data cluster `c`. */
    method ReadClusterSector(c: nat, i: nat) returns (buf: SC.Sector)
      requires Valid() && 2 <= c < g.Limit() && i < g.spc
      modifies cache.data, cache.tag, cache.valid
      ensures Valid() && Vol() == old(Vol())
      ensures |Vol().data[c]| == g.ClusterBytes() && i * 512 + 512 <= g.ClusterBytes()
      ensures buf == Vol().data[c][i * 512..i * 512 + 512]
    {
      hide *;
      SectorSlice(c, i);
      buf := cache.ReadSector(g.Lba(c) + i);
      Mounted();
    }

    /** Sector `i` of a cluster on the card. */
    lemma SectorSlice(c: nat, i: nat)
      requires Valid() && 2 <= c < g.Limit() && i < g.spc
      ensures cache.Valid() && g.Fits() && g.Lba(c) + i < SC.CARD == |cache.card[..]| && g.Lba(c) + i < 0x80_0000
      ensures |Vol().data[c]| == g.ClusterBytes() && i * 512 + 512 <= g.ClusterBytes() && Vol() == VolumeOf(cache.card[..], g)
      ensures cache.card != cache.data && cache.card[..][g.Lba(c) + i] == Vol().data[c][i * 512..i * 512 + 512]
    {
      LbaRange(g, c);
      FlattenSlice(cache.card[..][g.Lba(c)..g.Lba(c) + g.spc], i);
    }

    /** `fs_write_sector` to sector `i` of data cluster `c`. */
    method WriteClusterSector(c: nat, i: nat, buf: SC.Sector)
      requires Valid() && 2 <= c < g.Limit() && i < g.spc
      modifies cache.card, cache.data, cache.tag, cache.valid
      ensures Valid()
      ensures |old(Vol()).data[c]| == g.ClusterBytes() && i * 512 + 512 <= g.ClusterBytes()
      ensures Vol() == PutBytes(old(Vol()), c, i * 512, buf)
    {
      hide *;
      SectorPatch(c, i, buf);
      cache.WriteSector(buf, g.Lba(c) + i);
      Mounted();
    }

    /** Replacing sector `i` of a cluster on the card. */
    lemma SectorPatch(c: nat, i: nat, buf: SC.Sector)
      requires Valid() && 2 <= c < g.Limit() && i < g.spc
      ensures cache.Valid() && g.Fits() && g.Lba(c) + i < SC.CARD == |cache.card[..]| && g.Lba(c) + i < 0x80_0000
      ensures |Vol().data[c]| == g.ClusterBytes() && i * 512 + 512 <= g.ClusterBytes()
      ensures VolumeOf(cache.card[..][g.Lba(c) + i := buf], g) == PutBytes(Vol(), c, i * 512, buf)
    {
      hide *;
      Opened();
      LbaRange(g, c);
      DataPatch(cache.card[..], g, c, i, buf);
    }

    lemma Opened()
      requires Valid()
      ensures cache.Valid() && g.Fits() && SC.CARD == |cache.card[..]| == 0x80_0000 && Vol() == VolumeOf(cache.card[..], g)
    {
      hide SC.State.Coherent, VolumeOf, VolumeShape;
    }

    lemma Mounted()
      requires cache.Valid() && g.Fits()
      ensures Valid() && Vol() == VolumeOf(cache.card[..], g)
    {
      hide VolumeOf, VolumeShape;
    }

    /** `fs_read_mult_sector` of the whole cluster into one flat buffer. */
    method ReadCluster(c: nat) returns (buf: seq<byte>)
      requires Valid() && 2 <= c < g.Limit()
      modifies cache.data, cache.tag, cache.valid
      ensures Valid() && Vol() == old(Vol())
      ensures buf == Vol().data[c]
    {
      LbaRange(g, c);
      var ss := cache.ReadMultSector(g.Lba(c), g.spc);
      buf := Flatten(ss);
    }

    /** Lines 568-571: the flat buffer written back sector by sector. */
    method WriteCluster(c: nat, buf: seq<byte>)
      requires Valid() && 2 <= c < g.Limit() && |buf| == g.ClusterBytes()
      modifies cache.card, cache.data, cache.tag, cache.valid
      ensures Valid()
      ensures Vol() == PutCluster(old(Vol()), c, buf)
    {
      hide *;
      ghost var v := Vol();
      for s := 0 to g.spc
        invariant Valid()
        invariant Vol() == PutOverlay(v, c, buf, s * 512)
      {
        OverlayStep(v, c, buf, s);
        WriteClusterSector(c, s, buf[s * 512..s * 512 + 512]);
      }
    }
  }

  /** The volume once the first `n` bytes of `buf` have replaced those of cluster `c`. */
  ghost function PutOverlay(v: Volume, c: nat, buf: seq<byte>, n: nat): (w: Volume)
    requires c < |v.data| && |v.data[c]| == |buf| && n <= |buf|
    ensures n == |buf| ==> w == PutCluster(v, c, buf)
    ensures n == 0 ==> w == v
  {
    assert n == |buf| ==> buf[..n] + v.data[c][n..] == buf;
    assert n == 0 ==> buf[..n] + v.data[c][n..] == v.data[c];
    PutCluster(v, c, buf[..n] + v.data[c][n..])
  }

  lemma OverlayStep(v: Volume, c: nat, buf: seq<byte>, s: nat)
    requires c < |v.data| && |v.data[c]| == |buf| && s * 512 + 512 <= |buf|
    ensures PutBytes(PutOverlay(v, c, buf, s * 512), c, s * 512, buf[s * 512..s * 512 + 512])
         == PutOverlay(v, c, buf, (s + 1) * 512)
  {
    var d := buf[..s * 512] + v.data[c][s * 512..];
    assert Splice(d, s * 512, buf[s * 512..s * 512 + 512]) == buf[..(s + 1) * 512] + v.data[c][(s + 1) * 512..];
  }
}
