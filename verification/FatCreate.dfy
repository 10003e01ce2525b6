// Creating, updating and unlinking files (lib/src/pifat.c, lines 474-533 and 592-662) on
// volumes as values: the round trip, and what everything else keeps.
module FatCreate {
  import opened Bytes
  import opened FatVolume
  import opened FatChains
  import opened FatFamily
  import opened FatContent
  import opened FatDir
  import opened FatDirLaws
  import FatTable

  /** Lines 476-478, with the code's 32-bit sum. */
  function ClustersFor(size: u32, cb: nat): (n: nat)
    requires cb > 0
    ensures n >= 1
  {
    QuotientNonneg(U32(size + cb - 1), cb);
    var n := U32(size + cb - 1) / cb;
    if n == 0 then 1 else n
  }

  /** The sectors one cluster receives: at least one, the last one zero-padded. */
  function Padded(chunk: seq<byte>): (b: seq<byte>)
    ensures |chunk| <= |b| && |b| % 512 == 0 && b[..|chunk|] == chunk
    ensures forall cb: nat :: |chunk| <= cb && cb > 0 && cb % 512 == 0 ==> |b| <= cb
  {
    var n := if |chunk| == 0 then 512 else (|chunk| + 511) / 512 * 512;
    chunk + Zeros(n - |chunk|)
  }

  /** Lines 500-517: the clusters filled one after the other. */
  ghost function WriteNew(v: Volume, cb: nat, cl: seq<nat>, data: seq<byte>): Volume
    requires VolumeShape(v, cb) && FatContent.Fits(v, cl)
    decreases |cl|
  {
    if cl == [] then v
    else
      var k := Min(cb, |data|);
      WriteNew(PutBytes(v, cl[0], 0, Padded(data[..k])), cb, cl[1..], data[k..])
  }

  lemma {:induction false} WriteNewKeeps(v: Volume, cb: nat, cl: seq<nat>, data: seq<byte>)
    requires VolumeShape(v, cb) && FatContent.Fits(v, cl)
    ensures VolumeShape(WriteNew(v, cb, cl, data), cb)
    ensures WriteNew(v, cb, cl, data).fat == v.fat
    ensures Keeps(v, WriteNew(v, cb, cl, data), cl)
    decreases |cl|
  {
    if cl != [] {
      var k := Min(cb, |data|);
      var v1 := PutBytes(v, cl[0], 0, Padded(data[..k]));
      PutBytesShape(v, cb, cl[0], 0, Padded(data[..k]));
      WriteNewKeeps(v1, cb, cl[1..], data[k..]);
      KeepsStep(v, v1, WriteNew(v1, cb, cl[1..], data[k..]), cl[0], cl[1..]);
      assert [cl[0]] + cl[1..] == cl;
    }
  }

  /** What is left of `d` bytes after the first of `n` clusters fits the others. */
  lemma RestFits(n: nat, cb: nat, d: nat)
    requires d <= n * cb && n > 0
    ensures d - Min(cb, d) <= (n - 1) * cb
  {
    assert (n - 1) * cb == n * cb - cb;
  }

  lemma FirstDistinct(cl: seq<nat>)
    requires Distinct(cl) && cl != []
    ensures Distinct(cl[1..]) && cl[0] !in cl[1..]
  {
  }

  /** One turn of the writing loop. */
  lemma WriteNewTurn(v: Volume, cb: nat, cl: seq<nat>, data: seq<byte>, k: nat, b: seq<byte>)
    requires VolumeShape(v, cb) && FatContent.Fits(v, cl) && cl != [] && k == Min(cb, |data|) && b == Padded(data[..k])
    ensures 2 <= cl[0] < |v.fat| == |v.data| && k <= |b| <= |v.data[cl[0]]| == cb && b[..k] == data[..k]
    ensures var v1 := PutBytes(v, cl[0], 0, b); VolumeShape(v1, cb) && FatContent.Fits(v1, cl[1..]) && v1.data[cl[0]] == Splice(v.data[cl[0]], 0, b)
    ensures |PutBytes(v, cl[0], 0, b).fat| == |v.fat|
    ensures WriteNew(v, cb, cl, data) == WriteNew(PutBytes(v, cl[0], 0, b), cb, cl[1..], data[k..])
  {
    PutBytesShape(v, cb, cl[0], 0, b);
  }

  lemma WriteNewNone(v: Volume, cb: nat, data: seq<byte>)
    requires VolumeShape(v, cb) && data == []
    ensures FatContent.Fits(WriteNew(v, cb, [], data), []) && data <= Content(WriteNew(v, cb, [], data), [])
  {
  }

  lemma ContentFirst(w: Volume, cl: seq<nat>)
    requires cl != [] && FatContent.Fits(w, cl[1..]) && 2 <= cl[0] < |w.data|
    ensures FatContent.Fits(w, cl) && Content(w, cl) == w.data[cl[0]] + Content(w, cl[1..])
  {
  }

  /** The new clusters hold the data, front to back. */
  lemma {:induction false} WriteNewContent(v: Volume, cb: nat, cl: seq<nat>, data: seq<byte>)
    requires VolumeShape(v, cb) && FatContent.Fits(v, cl) && Distinct(cl) && |data| <= |cl| * cb
    ensures FatContent.Fits(WriteNew(v, cb, cl, data), cl)
    ensures data <= Content(WriteNew(v, cb, cl, data), cl)
    decreases |cl|
  {
    hide VolumeShape, FatContent.Fits, WriteNew, Content, Distinct, Padded, Keeps, PutBytes, Splice;
    if cl == [] {
      WriteNewNone(v, cb, data);
    } else {
      var k := Min(cb, |data|);
      var b := Padded(data[..k]);
      WriteNewTurn(v, cb, cl, data, k, b);
      FirstDistinct(cl);
      RestFits(|cl|, cb, |data|);
      var v1 := PutBytes(v, cl[0], 0, b);
      WriteNewContent(v1, cb, cl[1..], data[k..]);
      WriteNewKeeps(v1, cb, cl[1..], data[k..]);
      var w := WriteNew(v1, cb, cl[1..], data[k..]);
      KeptOne(v1, w, cl[0], cl[1..]);
      FirstChunk(v, w, cl[0], b, data, k, Content(w, cl[1..]), cb);
      ContentFirst(w, cl);
    }
  }

  lemma FirstChunk(v: Volume, w: Volume, c: nat, b: seq<byte>, data: seq<byte>, k: nat, rest: seq<byte>, cb: nat)
    requires c < |v.data| == |w.data| && |b| <= |v.data[c]| == cb && w.data[c] == Splice(v.data[c], 0, b)
    requires k == Min(cb, |data|) && k <= |b| && b[..k] == data[..k] && data[k..] <= rest
    ensures data <= w.data[c] + rest
  {
    var all := w.data[c] + rest;
    forall i | 0 <= i < |data| ensures all[i] == data[i] {
      if i < k {
        assert b[..k][i] == data[..k][i];
      } else {
        assert k == cb;
        assert data[k..][i - k] == rest[i - k];
      }
    }
  }

  /** `fat32_write_file_create`: 0 done, 2 no space, 3 fewer bytes written than asked for. */
  ghost function Create(v: Volume, cb: nat, dch: seq<nat>, data: seq<byte>, name: seq<byte>): Outcome
    requires VolumeShape(v, cb) && IsChain(v.fat, dch) && |data| < TWO32 && |name| >= 11
  {
    var n := ClustersFor(|data|, cb);
    if |FreeList(v.fat)| < n then Outcome(v, 2)
    else
      var cl := FreeList(v.fat)[..n];
      var w := Filled(v, cb, cl, data);
      if |data| > n * cb then Outcome(w, 3)
      else
        FilledKeeps(v, cb, dch, cl, data);
        DirInsert(w, cb, dch, NewEntry(name, cl[0], |data|))
  }

  /** The volume once the new chain is linked and its clusters are written. */
  ghost function Filled(v: Volume, cb: nat, cl: seq<nat>, data: seq<byte>): Volume
    requires VolumeShape(v, cb) && |cl| <= |FreeList(v.fat)| && cl == FreeList(v.fat)[..|cl|]
  {
    WriteNew(v.(fat := LinkNew(v.fat, cl, |cl|)), cb, cl, data)
  }

  lemma NewClusters(fat: Fat, cl: seq<nat>)
    requires 2 <= |fat| && |cl| <= |FreeList(fat)| && cl == FreeList(fat)[..|cl|]
    ensures Distinct(cl)
    ensures forall i :: 0 <= i < |cl| ==> 2 <= cl[i] < |fat| && IsFree(fat, cl[i])
  {
    forall i, j | 0 <= i < j < |cl| ensures cl[i] != cl[j] {
      FreeFromAscending(fat, 2, i, j);
    }
  }

  lemma FilledKeeps(v: Volume, cb: nat, dch: seq<nat>, cl: seq<nat>, data: seq<byte>)
    requires VolumeShape(v, cb) && IsChain(v.fat, dch)
    requires |cl| <= |FreeList(v.fat)| && cl == FreeList(v.fat)[..|cl|] && cl != []
    ensures VolumeShape(Filled(v, cb, cl, data), cb) && Keeps(v, Filled(v, cb, cl, data), cl)
    ensures Filled(v, cb, cl, data).fat == LinkNew(v.fat, cl, |cl|)
    ensures IsChain(Filled(v, cb, cl, data).fat, dch) && IsChain(Filled(v, cb, cl, data).fat, cl)
    ensures Apart(dch, cl)
  {
    NewClusters(v.fat, cl);
    LinkNewChain(v.fat, cl);
    var v1 := v.(fat := LinkNew(v.fat, cl, |cl|));
    WriteNewKeeps(v1, cb, cl, data);
    forall c | c in dch ensures c !in cl {
      ChainUsed(v.fat, dch, c);
    }
    LinkTop(v.fat, cl, |cl|);
    hide LinkNew, WriteNew;
    ChainFrame(v.fat, v1.fat, dch);
  }

  lemma {:induction false} LinkTop(fat: Fat, cl: seq<nat>, n: nat)
    requires |fat| <= EOC && n <= |cl| && forall i :: 0 <= i < |cl| ==> cl[i] < |fat|
    ensures forall c :: 0 <= c < |fat| ==> LinkNew(fat, cl, n)[c] / TWO28 == fat[c] / TWO28
  {
    if n > 0 { LinkTop(fat, cl, n - 1); }
  }

  // ----- the error codes -----

  lemma CeilingCovers(size: nat, cb: nat)
    requires cb > 0
    ensures size <= (size + cb - 1) / cb * cb
  {
    var x := size + cb - 1;
    assert x == x / cb * cb + x % cb;
  }

  lemma ClustersCover(size: u32, cb: nat)
    requires 0 < cb <= 255 * 512
    ensures size <= ClustersFor(size, cb) * cb <==> size + cb - 1 < TWO32
  {
    if size + cb - 1 < TWO32 {
      CeilingCovers(size, cb);
      assert U32(size + cb - 1) == size + cb - 1;
      if (size + cb - 1) / cb == 0 { assert size <= 0 * cb; }
    } else {
      assert U32(size + cb - 1) == size + cb - 1 - TWO32 < cb;
      assert ClustersFor(size, cb) == 1;
    }
  }

  /** Error 3 ("written bytes do not match") happens exactly when the rounding sum wraps. */
  lemma ErrorThree(v: Volume, cb: nat, dch: seq<nat>, data: seq<byte>, name: seq<byte>)
    requires VolumeShape(v, cb) && cb <= 255 * 512 && IsChain(v.fat, dch) && |data| < TWO32 && |name| >= 11
    ensures Create(v, cb, dch, data, name).code == 3 <==>
              |FreeList(v.fat)| >= ClustersFor(|data|, cb) && |data| + cb - 1 >= TWO32
  {
    ClustersCover(|data|, cb);
    var n := ClustersFor(|data|, cb);
    if |FreeList(v.fat)| >= n && |data| <= n * cb {
      var cl := FreeList(v.fat)[..n];
      FilledKeeps(v, cb, dch, cl, data);
      InsertCode(Filled(v, cb, cl, data), cb, dch, NewEntry(name, cl[0], |data|));
    }
  }
}
