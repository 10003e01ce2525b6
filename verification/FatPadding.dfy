// The bytes a create leaves in the new clusters (lib/src/pifat.c, lines 499-517): the data, zeros up
// to the end of its last sector, and behind that what the clusters held before.
module FatPadding {
  import opened Bytes
  import opened FatVolume
  import opened FatChains
  import opened FatFamily
  import opened FatContent
  import opened FatDir
  import opened FatDirLaws
  import opened FatCreate
  import opened FatRoundTrip

  /** The last of `n` clusters is needed. */
  ghost predicate Needed(n: nat, cb: nat, d: nat) {
    n > 0 && d <= n * cb && (n == 1 || (n - 1) * cb < d)
  }

  /** Bytes written for `d` bytes of data: whole sectors, at least one. */
  function Whole(d: nat): (n: nat)
    ensures d <= n
  {
    if d == 0 then 512 else (d + 511) / 512 * 512
  }

  lemma PaddedIs(data: seq<byte>)
    ensures Padded(data) == data + Zeros(Whole(|data|) - |data|)
  {
  }

  lemma WholeLater(d: nat, cb: nat)
    requires cb > 0 && cb % 512 == 0 && cb < d
    ensures Whole(d) == cb + Whole(d - cb)
  {
    var q := cb / 512;
    assert cb == 512 * q;
    assert (d + 511) / 512 == q + (d - cb + 511) / 512;
  }

  lemma WholeCluster(cb: nat)
    requires cb > 0 && cb % 512 == 0
    ensures Whole(cb) == cb
  {
    assert cb == cb / 512 * 512;
  }

  lemma PaddedLater(data: seq<byte>, cb: nat)
    requires cb > 0 && cb % 512 == 0 && cb < |data|
    ensures Padded(data[..cb]) == data[..cb] && Padded(data) == data[..cb] + Padded(data[cb..])
  {
    PaddedIs(data);
    PaddedIs(data[..cb]);
    PaddedIs(data[cb..]);
    WholeLater(|data|, cb);
    WholeCluster(cb);
    hide Padded, Whole, Zeros;
    var z := Zeros(Whole(|data|) - |data|);
    assert Zeros(0) == [];
    assert data == data[..cb] + data[cb..];
    assert data[..cb] + data[cb..] + z == data[..cb] + (data[cb..] + z);
  }

  lemma SpliceWhole(d: seq<byte>, rest: seq<byte>, a: seq<byte>, b: seq<byte>)
    requires |a| == |d| && |b| <= |rest|
    ensures Splice(d, 0, a) == a && Splice(d + rest, 0, a + b) == a + Splice(rest, 0, b)
  {
    var x, y := Splice(d + rest, 0, a + b), a + Splice(rest, 0, b);
    hide Splice;
    assert |x| == |y|;
    forall k | 0 <= k < |x| ensures x[k] == y[k] {}
    assert Splice(d, 0, a) == a;
  }

  lemma NeededRest(n: nat, cb: nat, d: nat)
    requires Needed(n, cb, d) && n > 1
    ensures cb < d && Needed(n - 1, cb, d - cb)
  {
    assert (n - 1) * cb == (n - 2) * cb + cb && n * cb == (n - 1) * cb + cb;
    if n > 2 { assert (n - 2) * cb >= cb * 0; }
  }

  lemma ShapeParts(v: Volume, cb: nat, cl: seq<nat>)
    requires VolumeShape(v, cb) && FatContent.Fits(v, cl) && cl != []
    ensures cb > 0 && cb % 512 == 0 && 2 <= cl[0] < |v.data| && |v.data[cl[0]]| == cb && FatContent.Fits(v, cl[1..])
  {
  }

  lemma OthersFrame(v: Volume, v1: Volume, cb: nat, cl: seq<nat>, b: seq<byte>)
    requires VolumeShape(v, cb) && FatContent.Fits(v, cl) && cl != [] && Distinct(cl) && |b| <= |v.data[cl[0]]| && v1 == PutBytes(v, cl[0], 0, b)
    ensures FatContent.Fits(v, cl[1..]) && FatContent.Fits(v1, cl[1..]) && Content(v1, cl[1..]) == Content(v, cl[1..])
  {
    forall c | c in cl[1..] ensures v.data[c] == v1.data[c] {}
    ContentFrame(v, v1, cl[1..]);
  }

  lemma OneCluster(v: Volume, cb: nat, cl: seq<nat>, data: seq<byte>)
    requires VolumeShape(v, cb) && FatContent.Fits(v, cl) && |cl| == 1 && |data| <= cb
    ensures FatContent.Fits(WriteNew(v, cb, cl, data), cl) && |Padded(data)| <= |Content(v, cl)|
    ensures Content(WriteNew(v, cb, cl, data), cl) == Splice(Content(v, cl), 0, Padded(data))
  {
    hide Padded, Splice;
    assert data[..|data|] == data && data[|data|..] == [];
    var v1 := PutBytes(v, cl[0], 0, Padded(data));
    PutBytesShape(v, cb, cl[0], 0, Padded(data));
    assert WriteNew(v, cb, cl, data) == WriteNew(v1, cb, [], []) == v1;
    assert cl[1..] == [] && Content(v, []) == [] && Content(v1, []) == [];
    ContentFirst(v, cl);
    ContentFirst(v1, cl);
  }

  /** The clusters hold the padded data in front and are otherwise as before. */
  lemma {:induction false} WriteNewExact(v: Volume, cb: nat, cl: seq<nat>, data: seq<byte>)
    requires VolumeShape(v, cb) && FatContent.Fits(v, cl) && Distinct(cl) && Needed(|cl|, cb, |data|)
    ensures FatContent.Fits(WriteNew(v, cb, cl, data), cl) && |Padded(data)| <= |Content(v, cl)|
    ensures Content(WriteNew(v, cb, cl, data), cl) == Splice(Content(v, cl), 0, Padded(data))
    decreases |cl|
  {
    hide *;
    NeededSome(|cl|, cb, |data|);
    if |cl| == 1 {
      OneCluster(v, cb, cl, data);
    } else {
      NeededRest(|cl|, cb, |data|);
      ShapeParts(v, cb, cl);
      PaddedLater(data, cb);
      MinIs(cb, |data|);
      WriteNewTurn(v, cb, cl, data, cb, data[..cb]);
      FirstDistinct(cl);
      var v1 := PutBytes(v, cl[0], 0, data[..cb]);
      OthersFrame(v, v1, cb, cl, data[..cb]);
      WriteNewExact(v1, cb, cl[1..], data[cb..]);
      WriteNewKeeps(v1, cb, cl[1..], data[cb..]);
      var w := WriteNew(v1, cb, cl[1..], data[cb..]);
      KeptOne(v1, w, cl[0], cl[1..]);
      ContentFirst(w, cl);
      ContentFirst(v, cl);
      SpliceWhole(v.data[cl[0]], Content(v, cl[1..]), data[..cb], Padded(data[cb..]));
    }
  }

  lemma NeededSome(n: nat, cb: nat, d: nat)
    requires Needed(n, cb, d)
    ensures n > 0 && (n == 1 ==> d <= cb)
  {
  }

  lemma MinIs(cb: nat, d: nat)
    requires cb < d
    ensures Min(cb, d) == cb
  {
  }

  /** The clusters a create takes are all needed. */
  lemma TakenNeeded(size: u32, cb: nat)
    requires cb > 0 && size <= ClustersFor(size, cb) * cb
    ensures Needed(ClustersFor(size, cb), cb, size)
  {
    var n, x := ClustersFor(size, cb), U32(size + cb - 1);
    assert n == (if x / cb == 0 then 1 else x / cb);
    hide ClustersFor, U32;
    if n > 1 {
      SumKept(size, cb);
      Ceiling(x, cb);
    }
  }

  lemma SumKept(size: u32, cb: nat)
    requires cb > 0 && U32(size + cb - 1) >= cb
    ensures U32(size + cb - 1) <= size + cb - 1
  {
  }

  lemma Ceiling(x: nat, cb: nat)
    requires cb > 0
    ensures x / cb * cb <= x && (x / cb - 1) * cb == x / cb * cb - cb
  {
  }

  /** After a successful create the new chain holds the data, zeros up to a whole sector, at least
      one, and from there on what its clusters held before. */
  lemma CreateBytes(v: Volume, cb: nat, dch: seq<nat>, data: seq<byte>, name: seq<byte>)
    requires CanCreate(v, cb, dch, data, name)
    ensures var w, cl := Create(v, cb, dch, data, name).vol, NewFile(v, cb, |data|); FatContent.Fits(v, cl) && FatContent.Fits(w, cl)
    ensures var n, cl := if |data| == 0 then 512 else (|data| + 511) / 512 * 512, NewFile(v, cb, |data|); |data| <= n <= |Content(v, cl)| && Content(Create(v, cb, dch, data, name).vol, cl) == data + Zeros(n - |data|) + Content(v, cl)[n..]
  {
    hide *;
    CanCreateParts(v, cb, dch, data, name);
    CreateInserts(v, cb, dch, data, name);
    NewDirIs(v, cb, dch, data);
    var cl := NewFile(v, cb, |data|);
    var w := Filled(v, cb, cl, data);
    FilledKeeps(v, cb, dch, cl, data);
    NewFileSize(v, cb, |data|);
    FilledExact(v, cb, dch, cl, data);
    NewFileApart(v, cb, dch, data, name);
    InsertKeeps(w, cb, dch, NewEntry(name, cl[0], |data|));
    AwayFrom(w, Create(v, cb, dch, data, name).vol, cl, NewDir(v, cb, dch, data));
    SpliceFront(Content(v, cl), data);
  }

  lemma NewFileSize(v: Volume, cb: nat, size: u32)
    requires |v.fat| >= 2 && cb > 0 && |FreeList(v.fat)| >= ClustersFor(size, cb)
    ensures |NewFile(v, cb, size)| == ClustersFor(size, cb)
  {
  }

  lemma SpliceFront(s: seq<byte>, data: seq<byte>)
    requires |Padded(data)| <= |s|
    ensures var n := if |data| == 0 then 512 else (|data| + 511) / 512 * 512; |data| <= n <= |s| && Splice(s, 0, Padded(data)) == data + Zeros(n - |data|) + s[n..]
  {
    PaddedIs(data);
    hide Padded;
    assert s[..0] == [];
  }

  lemma FilledExact(v: Volume, cb: nat, dch: seq<nat>, cl: seq<nat>, data: seq<byte>)
    requires VolumeShape(v, cb) && IsChain(v.fat, dch) && |data| < TWO32 && |data| <= |cl| * cb && |cl| == ClustersFor(|data|, cb)
    requires |cl| <= |FreeList(v.fat)| && cl == FreeList(v.fat)[..|cl|] && cl != []
    ensures FatContent.Fits(v, cl) && FatContent.Fits(Filled(v, cb, cl, data), cl) && |Padded(data)| <= |Content(v, cl)|
    ensures Content(Filled(v, cb, cl, data), cl) == Splice(Content(v, cl), 0, Padded(data))
  {
    hide LinkNew, WriteNew, Content, FreeList, Distinct, Splice, Padded, ClustersFor;
    NewClusters(v.fat, cl);
    TakenNeeded(|data|, cb);
    var v1 := v.(fat := LinkNew(v.fat, cl, |cl|));
    WriteNewExact(v1, cb, cl, data);
    ContentFrame(v1, v, cl);
  }
}
