// Where the volume lies on the card (lib/src/pifat.c, lines 110-125, 301-302, 325 and 387-403):
// byte positions of FAT entries and clusters, and how far the free scans reach.
module FatLayout {
  import opened Bytes
  import opened FatVolume
  import SC = SectorCache

  // ----- the bytes of an entry, the bytes of a cluster -----

  /** With the FAT region read as one byte sequence, the entry of cluster `c` is the word at byte
      4c, least significant byte first. */
  lemma EntryPosition(card: seq<SC.Sector>, g: Geometry, c: nat)
    requires g.Fits() && |card| == SC.CARD && c < g.Limit()
    ensures g.fatStart <= g.dataStart <= |card| && 4 * c + 4 <= 512 * (g.dataStart - g.fatStart)
    ensures var b: seq<int> := Flatten(card[g.fatStart..g.dataStart]); VolumeOf(card, g).fat[c] == b[4 * c] + 0x100 * b[4 * c + 1] + 0x1_0000 * b[4 * c + 2] + 0x100_0000 * b[4 * c + 3]
  {
    hide Geometry.TotalClusters, Geometry.Limit, Geometry.Fits, VolumeOf, Flatten, Geometry.FatSector, FatIndex, RestOf;
    FatSectorRange(g, c);
    FatByte(card, g, c, 0);
    FatByte(card, g, c, 1);
    FatByte(card, g, c, 2);
    FatByte(card, g, c, 3);
  }

  lemma FatByte(card: seq<SC.Sector>, g: Geometry, c: nat, j: nat)
    requires g.Fits() && |card| == SC.CARD && c < g.Limit() && j < 4
    ensures g.fatStart <= g.FatSector(c) < g.dataStart <= |card| && 4 * c + j < 512 * (g.dataStart - g.fatStart)
    ensures Flatten(card[g.fatStart..g.dataStart])[4 * c + j] == card[g.FatSector(c)][FatIndex(c) + j]
  {
    hide Geometry.TotalClusters, Geometry.Limit, Geometry.Fits;
    FatSectorRange(g, c);
    WordSector(c, j);
  }

  lemma WordSector(c: nat, j: nat)
    requires j < 4
    ensures (4 * c + j) / 512 == c * 4 / 512 && (4 * c + j) % 512 == c * 4 % 512 + j
  {
    assert 4 * c % 512 % 4 == 0;
  }

  /** With the data region read as one byte sequence, cluster `c` is its (c - 2)-th piece. */
  lemma ClusterPosition(card: seq<SC.Sector>, g: Geometry, c: nat)
    requires g.Fits() && |card| == SC.CARD && 2 <= c < g.Limit()
    ensures 0 <= (c - 2) * g.spc && g.dataStart + (c - 2) * g.spc + g.spc <= |card|
    ensures var b, at := Flatten(card[g.dataStart..]), 512 * ((c - 2) * g.spc); VolumeOf(card, g).data[c] == b[at..at + 512 * g.spc]
  {
    hide Geometry.TotalClusters, Geometry.Limit, Geometry.Fits, VolumeOf, Flatten, RestOf, Geometry.Lba, ClusterAt;
    LbaRange(g, c);
    var lo := (c - 2) * g.spc;
    Nonnegative(c - 2, g.spc);
    FlattenPart(card[g.dataStart..], lo, g.spc);
    SubSlice(card, g.dataStart, lo, g.spc);
    ClusterSectors(card, g, c);
  }

  lemma Nonnegative(a: int, k: int)
    requires a >= 0 && k >= 0
    ensures a * k >= 0
  {
  }

  lemma SubSlice(card: seq<SC.Sector>, start: nat, lo: nat, n: nat)
    requires start + lo + n <= |card|
    ensures card[start..][lo..lo + n] == card[start + lo..start + lo + n]
  {
  }

  lemma ClusterSectors(card: seq<SC.Sector>, g: Geometry, c: nat)
    requires 2 <= c && g.Lba(c) + g.spc <= |card|
    ensures ClusterAt(card, g, c) == Flatten(card[g.Lba(c)..g.Lba(c) + g.spc])
  {
    hide Geometry.Lba, Flatten;
  }

  lemma FlattenPart(ss: seq<SC.Sector>, lo: nat, n: nat)
    requires lo + n <= |ss|
    ensures Flatten(ss)[512 * lo..512 * lo + 512 * n] == Flatten(ss[lo..lo + n])
  {
    var a, b := Flatten(ss)[512 * lo..512 * lo + 512 * n], Flatten(ss[lo..lo + n]);
    forall k | 0 <= k < 512 * n ensures a[k] == b[k] {
      assert a[k] == Flatten(ss)[512 * lo + k];
      assert (512 * lo + k) / 512 == lo + k / 512 && (512 * lo + k) % 512 == k % 512;
    }
  }

  // ----- a volume and its card -----

  /** Byte `k` of the card. */
  function CardByte(card: seq<SC.Sector>, k: nat): byte
    requires k < 512 * |card|
  {
    card[k / 512][k % 512]
  }

  lemma FlatByte(card: seq<SC.Sector>, lo: nat, hi: nat, j: nat)
    requires lo <= hi <= |card| && j < 512 * (hi - lo)
    ensures Flatten(card[lo..hi])[j] == CardByte(card, 512 * lo + j)
  {
    assert (512 * lo + j) / 512 == lo + j / 512 && (512 * lo + j) % 512 == j % 512;
  }

  lemma EntryByte(a: seq<SC.Sector>, b: seq<SC.Sector>, g: Geometry, c: nat, k: nat)
    requires g.Fits() && |a| == |b| == SC.CARD && c < g.Limit() && VolumeOf(a, g).fat[c] == VolumeOf(b, g).fat[c]
    requires 512 * g.fatStart + 4 * c <= k < 512 * g.fatStart + 4 * c + 4
    ensures k < 512 * SC.CARD && CardByte(a, k) == CardByte(b, k)
  {
    hide Geometry.TotalClusters, Geometry.Limit, Geometry.Fits, VolumeOf, Flatten, CardByte, RestOf;
    EntryPosition(a, g, c);
    EntryPosition(b, g, c);
    var x, y := Flatten(a[g.fatStart..g.dataStart]), Flatten(b[g.fatStart..g.dataStart]);
    FourDigits(x[4 * c], x[4 * c + 1], x[4 * c + 2], x[4 * c + 3], y[4 * c], y[4 * c + 1], y[4 * c + 2], y[4 * c + 3]);
    var j := k - 512 * g.fatStart;
    assert x[j] == y[j];
    FlatByte(a, g.fatStart, g.dataStart, j);
    FlatByte(b, g.fatStart, g.dataStart, j);
  }

  lemma InPiece(x: seq<byte>, y: seq<byte>, at: nat, n: nat, j: nat)
    requires at + n <= |x| && at + n <= |y| && x[at..at + n] == y[at..at + n] && at <= j < at + n
    ensures x[j] == y[j]
  {
    assert x[j] == x[at..at + n][j - at] && y[j] == y[at..at + n][j - at];
  }

  lemma DataByte(a: seq<SC.Sector>, b: seq<SC.Sector>, g: Geometry, c: nat, k: nat)
    requires g.Fits() && |a| == |b| == SC.CARD && 2 <= c < g.Limit() && VolumeOf(a, g).data[c] == VolumeOf(b, g).data[c]
    requires var lo := 512 * g.dataStart + 512 * ((c - 2) * g.spc); lo <= k < lo + 512 * g.spc
    ensures 0 <= k < 512 * SC.CARD && CardByte(a, k) == CardByte(b, k)
  {
    hide Geometry.TotalClusters, Geometry.Limit, Geometry.Fits, VolumeOf, Flatten, CardByte, RestOf;
    ClusterPosition(a, g, c);
    ClusterPosition(b, g, c);
    var x, y, n := Flatten(a[g.dataStart..]), Flatten(b[g.dataStart..]), (c - 2) * g.spc;
    var at, j := 512 * n, k - 512 * g.dataStart;
    InPiece(x, y, at, 512 * g.spc, j);
    assert a[g.dataStart..] == a[g.dataStart..|a|] && b[g.dataStart..] == b[g.dataStart..|b|];
    FlatByte(a, g.dataStart, |a|, j);
    FlatByte(b, g.dataStart, |b|, j);
  }

  lemma RestByte(a: seq<SC.Sector>, b: seq<SC.Sector>, g: Geometry, k: nat)
    requires |a| == |b| && RestOf(a, g) == RestOf(b, g) && k < 512 * |a| && !Seen(g, k)
    ensures CardByte(a, k) == CardByte(b, k)
  {
    assert RestOf(a, g)[k] == RestOf(b, g)[k];
  }

  /** Which piece of the data region byte `j` of it belongs to. */
  lemma PieceOf(j: nat, n: nat, k: nat) returns (c: nat)
    requires k > 0 && j < 512 * (n * k)
    ensures c < n && 512 * (c * k) <= j < 512 * (c * k) + 512 * k
  {
    c := j / 512 / k;
    Quotient(j / 512, k);
    if c >= n { Products(n, c, k); }
  }

  lemma Quotient(x: nat, k: nat)
    requires k > 0
    ensures x / k >= 0 && x / k * k <= x < x / k * k + k
  {
  }

  lemma Products(n: nat, c: nat, k: nat)
    requires n <= c
    ensures n * k <= c * k
  {
    if n < c { ProductGap(n, c, k); }
  }

  /** Two cards with the same volume are the same card: a volume leaves nothing out. */
  lemma VolumeDetermines(a: seq<SC.Sector>, b: seq<SC.Sector>, g: Geometry)
    requires g.Fits() && |a| == |b| == SC.CARD && VolumeOf(a, g) == VolumeOf(b, g)
    ensures a == b
  {
    hide VolumeOf, RestOf;
    forall i | 0 <= i < SC.CARD ensures a[i] == b[i] {
      forall j | 0 <= j < 512 ensures a[i][j] == b[i][j] {
        SameByte(a, b, g, 512 * i + j, SC.CARD);
        assert (512 * i + j) / 512 == i && (512 * i + j) % 512 == j;
      }
    }
  }

  /** Byte `k` is the same on two cards whose volumes differ at most in the link of cluster `but`,
      unless it belongs to that link. */
  lemma SameByte(a: seq<SC.Sector>, b: seq<SC.Sector>, g: Geometry, k: nat, but: nat)
    requires g.Fits() && |a| == |b| == SC.CARD && k < 512 * SC.CARD
    requires VolumeOf(a, g).rest == VolumeOf(b, g).rest && VolumeOf(a, g).data == VolumeOf(b, g).data
    requires forall c :: 0 <= c < g.Limit() && c != but ==> VolumeOf(a, g).fat[c] == VolumeOf(b, g).fat[c]
    requires !(512 * g.fatStart + 4 * but <= k < 512 * g.fatStart + 4 * but + 4) || but >= g.Limit()
    ensures CardByte(a, k) == CardByte(b, k)
  {
    hide VolumeOf, RestOf, CardByte, Geometry.Fits, Geometry.TotalClusters;
    if 512 * g.fatStart <= k < 512 * g.fatStart + 4 * g.Limit() {
      EntryByte(a, b, g, (k - 512 * g.fatStart) / 4, k);
    } else if Seen(g, k) {
      SomeSpc(g);
      var c := PieceOf(k - 512 * g.dataStart, g.TotalClusters(), g.spc);
      LimitIs(g);
      DataByte(a, b, g, c + 2, k);
    } else {
      RestByte(a, b, g, k);
    }
  }

  /** Writing a link changes no byte of the card but the four of its entry. */
  lemma LinkBytes(a: seq<SC.Sector>, b: seq<SC.Sector>, g: Geometry, c: nat, value: u32)
    requires g.Fits() && |a| == |b| == SC.CARD && c < g.Limit() && VolumeOf(b, g) == PutLink(VolumeOf(a, g), c, value)
    ensures forall k :: 0 <= k < 512 * SC.CARD && !(512 * g.fatStart + 4 * c <= k < 512 * g.fatStart + 4 * c + 4) ==> CardByte(b, k) == CardByte(a, k)
  {
    hide VolumeOf, RestOf, CardByte, Geometry.Fits, Geometry.Limit, Merge;
    forall k | 0 <= k < 512 * SC.CARD && !(512 * g.fatStart + 4 * c <= k < 512 * g.fatStart + 4 * c + 4) ensures CardByte(b, k) == CardByte(a, k) {
      SameByte(a, b, g, k, c);
    }
  }

  lemma SomeSpc(g: Geometry)
    requires g.Fits()
    ensures g.spc >= 1
  {
  }

  lemma LimitIs(g: Geometry)
    ensures g.Limit() == g.TotalClusters() + 2
  {
  }

  // ----- how far the scans reach -----

  /** The geometry `fat32_init` makes for a partition that starts at sector `first`. */
  predicate Made(g: Geometry, first: nat) {
    && g.fatStart == first + g.rsvdSecCnt && g.dataStart == g.fatStart + g.numFats * g.fatSz32
    && 0 <= g.totSec32 - (first - g.hiddSec) < TWO32
  }

  /** The cluster count is that of all sectors of the partition, reserved and FAT sectors included. */
  lemma ClusterCount(g: Geometry, first: nat)
    requires Made(g, first) && g.spc > 0
    ensures var n := g.totSec32 - (first - g.hiddSec); g.TotalClusters() * g.spc <= n < (g.TotalClusters() + 1) * g.spc
  {
    var n, t := g.totSec32 - (first - g.hiddSec), g.TotalClusters();
    assert t == n / g.spc;
    hide Geometry.TotalClusters;
    Quotient(n, g.spc);
    assert (t + 1) * g.spc == t * g.spc + g.spc;
  }

  /** So the last cluster the scans visit lies inside a partition whose start agrees with its boot
      sector if and only if the reserved and FAT sectors fit the sectors left over. */
  lemma ScansInside(g: Geometry)
    requires Made(g, g.hiddSec) && g.spc > 0
    ensures g.dataStart + g.TotalClusters() * g.spc <= g.hiddSec + g.totSec32 <==> g.rsvdSecCnt + g.numFats * g.fatSz32 <= g.totSec32 % g.spc
  {
    var n, t := g.totSec32, g.TotalClusters();
    assert t == n / g.spc;
    assert n == t * g.spc + n % g.spc;
  }
}
