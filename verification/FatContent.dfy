// A chain as one byte sequence, and what an offset write does to it
// (lib/src/pifat.c, lines 535-590) on volumes as values.
module FatContent {
  import opened Bytes
  import opened FatVolume
  import opened FatChains
  import FatTable

  ghost predicate Fits(v: Volume, ch: seq<nat>) {
    forall i :: 0 <= i < |ch| ==> 2 <= ch[i] < |v.data|
  }

  /** The bytes of the clusters of `ch`, front to back. */
  function Content(v: Volume, ch: seq<nat>): seq<byte>
    requires Fits(v, ch)
  {
    if ch == [] then [] else v.data[ch[0]] + Content(v, ch[1..])
  }

  lemma {:induction false} ContentLength(v: Volume, cb: nat, ch: seq<nat>)
    requires VolumeShape(v, cb) && Fits(v, ch)
    ensures |Content(v, ch)| == |ch| * cb
  {
    if ch != [] {
      ContentLength(v, cb, ch[1..]);
      assert |ch| * cb == cb + (|ch| - 1) * cb;
    }
  }

  /** Clusters outside the chain do not show in its content. */
  lemma {:induction false} ContentFrame(v: Volume, w: Volume, ch: seq<nat>)
    requires Fits(v, ch) && |v.data| == |w.data|
    requires forall c :: c in ch ==> v.data[c] == w.data[c]
    ensures Fits(w, ch) && Content(v, ch) == Content(w, ch)
  {
    if ch != [] {
      assert ch[0] in ch;
      ContentFrame(v, w, ch[1..]);
    }
  }

  // ----- the offset write as a function of the volume -----

  datatype Written = Written(vol: Volume, count: nat)

  /** The loop of lines 548-588 from cluster `ch[0]` on, `ch` being the chain from there. */
  ghost function WriteChain(v: Volume, cb: nat, ch: seq<nat>, input: seq<byte>, off: nat): Written
    requires VolumeShape(v, cb) && IsChain(v.fat, ch) && off < cb
    decreases |input|
  {
    if input == [] then Written(v, 0)
    else
      var k := Min(cb - off, |input|);
      var v1 := PutBytes(v, ch[0], off, input[..k]);
      if |ch| > 1 then
        ChainTail(v.fat, ch);
        var r := WriteChain(v1, cb, ch[1..], input[k..], 0);
        Written(r.vol, k + r.count)
      else if k == |input| || FreeList(v.fat) == [] then Written(v1, k)
      else
        var f := FreeList(v.fat)[0];
        ExtendChain(v.fat, ch, f);
        FreshChain(v.fat, ch[0], f);
        var r := WriteChain(FatTable.Given(v1, ch[0], f), cb, [f], input[k..], 0);
        Written(r.vol, k + r.count)
  }

  lemma FreshChain(fat: Fat, tail: nat, f: nat)
    requires 2 <= tail < |fat| <= EOC && 2 <= f < |fat| && tail != f
    ensures IsChain(Extend(fat, tail, f), [f])
  {
  }

  /** The chain grows only at its tail, by the first clusters of the free scan; a short
      count means the volume is full. */
  ghost predicate GrowsBy(v: Volume, ch: seq<nat>, w: Volume, ext: seq<nat>) {
    && |w.fat| == |v.fat| && 2 <= |v.fat| <= EOC
    && IsChain(v.fat, ch) && IsChain(w.fat, ch + ext)
    && |ext| <= |FreeList(v.fat)| && ext == FreeList(v.fat)[..|ext|]
    && FreeList(w.fat) == FreeList(v.fat)[|ext|..]
  }

  /** Every cluster outside `used` keeps its entry and its bytes, every entry its top bits. */
  ghost predicate Keeps(v: Volume, w: Volume, used: seq<nat>) {
    && |w.fat| == |v.fat| == |v.data| == |w.data| && w.rest == v.rest
    && (forall c :: 0 <= c < |v.fat| && c !in used ==> w.fat[c] == v.fat[c] && w.data[c] == v.data[c])
    && (forall c :: 0 <= c < |v.fat| ==> w.fat[c] / TWO28 == v.fat[c] / TWO28)
  }

  ghost predicate Overwrites(v: Volume, w: Volume, ch: seq<nat>, off: nat, bytes: seq<byte>) {
    && Fits(v, ch) && Fits(w, ch) && off + |bytes| <= |Content(v, ch)|
    && Content(w, ch) == Splice(Content(v, ch), off, bytes)
  }

  /** `w` is `v` with input[..k] written at `off` of the chain, grown by `ext`. */
  ghost predicate WriteMeans(v: Volume, cb: nat, ch: seq<nat>, input: seq<byte>, off: nat, w: Volume, k: nat, ext: seq<nat>)
  {
    && VolumeShape(w, cb) && GrowsBy(v, ch, w, ext) && Keeps(v, w, ch + ext)
    && k <= |input| && (k == |input| || FreeList(w.fat) == [])
    && Overwrites(v, w, ch + ext, off, input[..k])
  }

  lemma SpliceJoin(a: seq<byte>, b: seq<byte>, off: nat, x: seq<byte>, y: seq<byte>)
    requires off + |x| == |a| && |y| <= |b|
    ensures Splice(a, off, x) + Splice(b, 0, y) == Splice(a + b, off, x + y)
  {
  }

  lemma Halves(input: seq<byte>, k: nat, m: nat)
    requires k + m <= |input|
    ensures input[..k] + input[k..][..m] == input[..k + m]
  {
  }

  lemma PutBytesShape(v: Volume, cb: nat, c: nat, off: nat, bytes: seq<byte>)
    requires VolumeShape(v, cb) && 2 <= c < |v.data| && off + |bytes| <= cb
    ensures VolumeShape(PutBytes(v, c, off, bytes), cb)
    ensures Keeps(v, PutBytes(v, c, off, bytes), [c])
  {
  }

  lemma PrependChain(fat: Fat, c: nat, rest: seq<nat>)
    requires IsChain(fat, rest) && 2 <= c < |fat| && Next(fat, c) == rest[0]
    ensures IsChain(fat, [c] + rest)
  {
    var e := [c] + rest;
    forall i | 0 <= i < |e| - 1 ensures Next(fat, e[i]) == e[i + 1] {
      if i > 0 { assert Next(fat, rest[i - 1]) == rest[i - 1 + 1]; }
    }
  }

  /** The bytes of cluster `c` followed by those of the rest of the chain. */
  lemma OverwritesStep(v: Volume, v1: Volume, w: Volume, c: nat, rest: seq<nat>, off: nat, x: seq<byte>, y: seq<byte>)
    requires Fits(v, rest) && 2 <= c < |v.data| && off + |x| == |v.data[c]| && c !in rest
    requires Overwrites(v1, w, rest, 0, y)
    requires |v.data| == |v1.data| == |w.data|
    requires forall d :: d in rest ==> v1.data[d] == v.data[d]
    requires w.data[c] == Splice(v.data[c], off, x)
    ensures Overwrites(v, w, [c] + rest, off, x + y)
  {
    assert ([c] + rest)[1..] == rest;
    assert forall d :: d in rest ==> d in [c] + rest;
    ContentFrame(v1, v, rest);
    SpliceJoin(v.data[c], Content(v, rest), off, x, y);
  }

  lemma OverwritesFirst(v: Volume, cb: nat, ch: seq<nat>, off: nat, x: seq<byte>)
    requires VolumeShape(v, cb) && Fits(v, ch) && ch != [] && ch[0] !in ch[1..] && off + |x| <= cb
    ensures Overwrites(v, PutBytes(v, ch[0], off, x), ch, off, x)
  {
    var w, rest := PutBytes(v, ch[0], off, x), ch[1..];
    ContentFrame(v, w, rest);
    var a, b := v.data[ch[0]], Content(v, rest);
    assert Splice(a, off, x) + b == Splice(a + b, off, x);
  }

  /** The free scan after one cluster was given out. */
  lemma GivenFree(v: Volume, c: nat, f: nat)
    requires 2 <= c < |v.fat| <= EOC && !IsFree(v.fat, c) && FreeList(v.fat) != [] && f == FreeList(v.fat)[0]
    ensures FreeList(FatTable.Given(v, c, f).fat) == FreeList(v.fat)[1..]
  {
    FreeFromTaken(v.fat, FatTable.Given(v, c, f).fat, 2);
  }

  /** Everything fits in the first cluster, or nothing can be added behind it. */
  lemma MeansInside(v: Volume, cb: nat, ch: seq<nat>, input: seq<byte>, off: nat, k: nat)
    requires VolumeShape(v, cb) && IsChain(v.fat, ch) && off + k <= cb && k <= |input|
    requires k == |input| || FreeList(v.fat) == []
    ensures WriteMeans(v, cb, ch, input, off, PutBytes(v, ch[0], off, input[..k]), k, [])
  {
    NotInRest(v.fat, ch, []);
    assert ch[1..] + [] == ch[1..];
    PutBytesShape(v, cb, ch[0], off, input[..k]);
    OverwritesFirst(v, cb, ch, off, input[..k]);
    assert ch + [] == ch;
  }

  lemma NotInRest(fat: Fat, ch: seq<nat>, ext: seq<nat>)
    requires 2 <= |fat| <= EOC && IsChain(fat, ch)
    requires |ext| <= |FreeList(fat)| && ext == FreeList(fat)[..|ext|]
    ensures ch[0] !in ch[1..] + ext
  {
    if ch[0] in ch[1..] {
      var i :| 0 <= i < |ch[1..]| && ch[1..][i] == ch[0];
      ChainDistinct(fat, ch, 0, i + 1);
    }
    if ch[0] in ext {
      ChainUsed(fat, ch, ch[0]);
    }
  }

  lemma KeepsStep(v: Volume, v1: Volume, w: Volume, c: nat, rest: seq<nat>)
    requires Keeps(v, v1, [c]) && Keeps(v1, w, rest)
    ensures Keeps(v, w, [c] + rest)
  {
    forall d | 0 <= d < |v.fat| && d !in [c] + rest ensures w.fat[d] == v.fat[d] && w.data[d] == v.data[d] {
      assert d !in [c] && d !in rest;
    }
  }

  lemma GrowsNext(v: Volume, v1: Volume, ch: seq<nat>, w: Volume, ext: seq<nat>)
    requires IsChain(v.fat, ch) && |ch| > 1 && v1.fat == v.fat
    requires GrowsBy(v1, ch[1..], w, ext) && Keeps(v1, w, ch[1..] + ext)
    ensures GrowsBy(v, ch, w, ext) && ch[0] !in ch[1..] + ext
    ensures ch + ext == [ch[0]] + (ch[1..] + ext)
  {
    hide IsChain;
    GrowsParts(v1, ch[1..], w, ext);
    NotInRest(v.fat, ch, ext);
    FirstLink(v, w, ch, ch[1..] + ext);
    hide Keeps;
    PrependChain(w.fat, ch[0], ch[1..] + ext);
    assert [ch[0]] + (ch[1..] + ext) == ch + ext;
  }

  lemma GrowsParts(v: Volume, ch: seq<nat>, w: Volume, ext: seq<nat>)
    requires GrowsBy(v, ch, w, ext)
    ensures 2 <= |v.fat| == |w.fat| <= EOC && |ext| <= |FreeList(v.fat)| && ext == FreeList(v.fat)[..|ext|] && IsChain(w.fat, ch + ext)
    ensures FreeList(w.fat) == FreeList(v.fat)[|ext|..]
  {
    hide IsChain;
  }

  /** The link of the first cluster is as before. */
  lemma FirstLink(v: Volume, w: Volume, ch: seq<nat>, rest: seq<nat>)
    requires IsChain(v.fat, ch) && |ch| > 1 && |w.fat| == |v.fat| && ch[0] !in rest && forall c :: 0 <= c < |v.fat| && c !in rest ==> w.fat[c] == v.fat[c]
    ensures 2 <= ch[0] < |w.fat| && Next(w.fat, ch[0]) == ch[1]
  {
    assert Next(v.fat, ch[0]) == ch[0 + 1];
  }

  lemma MeansNext(v: Volume, cb: nat, ch: seq<nat>, input: seq<byte>, off: nat, k: nat, w: Volume, m: nat, ext: seq<nat>)
    requires VolumeShape(v, cb) && IsChain(v.fat, ch) && |ch| > 1 && off + k == cb && k <= |input|
    requires WriteMeans(PutBytes(v, ch[0], off, input[..k]), cb, ch[1..], input[k..], 0, w, m, ext)
    ensures WriteMeans(v, cb, ch, input, off, w, k + m, ext)
  {
    var x, y := input[..k], input[k..][..m];
    var v1, c, rest := PutBytes(v, ch[0], off, x), ch[0], ch[1..] + ext;
    PutBytesShape(v, cb, c, off, x);
    GrowsNext(v, v1, ch, w, ext);
    KeepsStep(v, v1, w, c, rest);
    BytesNext(v, cb, v1, w, c, rest, off, x, y);
    Halves(input, k, m);
    hide *;
  }

  lemma BytesNext(v: Volume, cb: nat, v1: Volume, w: Volume, c: nat, rest: seq<nat>, off: nat, x: seq<byte>, y: seq<byte>)
    requires VolumeShape(v, cb) && 2 <= c < |v.fat| && off + |x| == cb && c !in rest
    requires |v1.data| == |v.data| && v1.data == PutBytes(v, c, off, x).data
    requires Keeps(v1, w, rest) && Overwrites(v1, w, rest, 0, y)
    ensures Overwrites(v, w, [c] + rest, off, x + y)
  {
    assert Fits(v, rest);
    OverwritesStep(v, v1, w, c, rest, off, x, y);
  }

  /** Cluster `c` filled up to its end and the first free cluster linked behind it. */
  ghost function Grown(v: Volume, c: nat, off: nat, x: seq<byte>): Volume
    requires c < |v.fat| == |v.data| && 2 <= |v.fat| <= 0x0FFF_FFF8 && FreeList(v.fat) != [] && off + |x| <= |v.data[c]|
  {
    FatTable.Given(PutBytes(v, c, off, x), c, FreeList(v.fat)[0])
  }

  lemma PrefixCons(s: seq<nat>, ext: seq<nat>)
    requires s != [] && |ext| <= |s[1..]| && ext == s[1..][..|ext|]
    ensures [s[0]] + ext == s[..1 + |ext|]
    ensures s[1..][|ext|..] == s[1 + |ext|..]
  {
  }

  lemma GrowsExtend(v: Volume, v1: Volume, c: nat, w: Volume, ext: seq<nat>)
    requires IsChain(v.fat, [c]) && v1.fat == v.fat && 2 <= |v.fat| <= EOC && FreeList(v.fat) != []
    requires GrowsBy(FatTable.Given(v1, c, FreeList(v.fat)[0]), [FreeList(v.fat)[0]], w, ext)
    requires Keeps(FatTable.Given(v1, c, FreeList(v.fat)[0]), w, [FreeList(v.fat)[0]] + ext)
    ensures GrowsBy(v, [c], w, [FreeList(v.fat)[0]] + ext)
    ensures c !in [FreeList(v.fat)[0]] + ext
  {
    var f := FreeList(v.fat)[0];
    var rest := [f] + ext;
    UsedHead(v.fat, c);
    GivenFree(v1, c, f);
    PrefixCons(FreeList(v.fat), ext);
    hide FreeList;
    NotInRest(v.fat, [c], rest);
    assert [c][1..] + rest == rest;
    GivenLink(v1, w, c, f, rest);
    hide IsChain;
    PrependChain(w.fat, c, rest);
  }

  lemma UsedHead(fat: Fat, c: nat)
    requires IsChain(fat, [c])
    ensures 2 <= c < |fat| && !IsFree(fat, c)
  {
    assert [c][0] == c;
  }

  lemma GivenLink(v1: Volume, w: Volume, c: nat, f: nat, rest: seq<nat>)
    requires 2 <= c < |v1.fat| <= EOC && 2 <= f < |v1.fat| && c !in rest && f in rest
    requires Keeps(FatTable.Given(v1, c, f), w, rest)
    ensures Next(w.fat, c) == f
  {
    assert c != f;
    assert w.fat[c] == FatTable.Given(v1, c, f).fat[c];
  }

  lemma MeansExtend(v: Volume, cb: nat, c: nat, input: seq<byte>, off: nat, k: nat, w: Volume, m: nat, ext: seq<nat>)
    requires VolumeShape(v, cb) && IsChain(v.fat, [c]) && off + k == cb && k <= |input|
    requires FreeList(v.fat) != []
    requires WriteMeans(Grown(v, c, off, input[..k]), cb, [FreeList(v.fat)[0]], input[k..], 0, w, m, ext)
    ensures WriteMeans(v, cb, [c], input, off, w, k + m, [FreeList(v.fat)[0]] + ext)
  {
    var f, x, y := FreeList(v.fat)[0], input[..k], input[k..][..m];
    var v1, rest := PutBytes(v, c, off, x), [f] + ext;
    var v2 := FatTable.Given(v1, c, f);
    PutBytesShape(v, cb, c, off, x);
    GrowsExtend(v, v1, c, w, ext);
    KeepsGiven(v, v1, c, f, w, rest);
    BytesNext(v, cb, v2, w, c, rest, off, x, y);
    Halves(input, k, m);
    hide *;
  }

  lemma KeepsGiven(v: Volume, v1: Volume, c: nat, f: nat, w: Volume, rest: seq<nat>)
    requires Keeps(v, v1, [c]) && c < |v.fat| <= EOC && f < |v.fat| && f in rest
    requires Keeps(FatTable.Given(v1, c, f), w, rest)
    ensures Keeps(v, w, [c] + rest)
  {
    forall d | 0 <= d < |v.fat| && d !in [c] + rest ensures w.fat[d] == v.fat[d] && w.data[d] == v.data[d] {
      assert d !in [c] && d !in rest;
    }
  }

  // The three ways one turn of the loop goes on.

  lemma TurnInside(v: Volume, cb: nat, ch: seq<nat>, input: seq<byte>, off: nat, k: nat)
    requires VolumeShape(v, cb) && IsChain(v.fat, ch) && off < cb && off + k <= cb && k <= |input|
    requires k == |input| || (k == cb - off && |ch| == 1 && FreeList(v.fat) == [])
    ensures WriteChain(v, cb, ch, input, off) == Written(PutBytes(v, ch[0], off, input[..k]), k)
  {
    if input == [] {
      assert Splice(v.data[ch[0]], off, []) == v.data[ch[0]];
    }
  }

  lemma TurnNext(v: Volume, cb: nat, ch: seq<nat>, input: seq<byte>, off: nat, k: nat)
    requires VolumeShape(v, cb) && IsChain(v.fat, ch) && |ch| > 1 && off < cb && k == cb - off < |input|
    ensures VolumeShape(PutBytes(v, ch[0], off, input[..k]), cb) && PutBytes(v, ch[0], off, input[..k]).fat == v.fat
    ensures IsChain(v.fat, ch[1..])
    ensures var r := WriteChain(PutBytes(v, ch[0], off, input[..k]), cb, ch[1..], input[k..], 0); WriteChain(v, cb, ch, input, off) == Written(r.vol, k + r.count)
  {
    ChainTail(v.fat, ch);
  }

  lemma TurnExtend(v: Volume, cb: nat, c: nat, input: seq<byte>, off: nat, k: nat)
    requires VolumeShape(v, cb) && IsChain(v.fat, [c]) && off < cb && k == cb - off < |input| && FreeList(v.fat) != []
    ensures c < |v.fat| == |v.data| && 2 <= |v.fat| <= 0x0FFF_FFF8 && |v.data[c]| == cb
    ensures VolumeShape(Grown(v, c, off, input[..k]), cb)
    ensures IsChain(Grown(v, c, off, input[..k]).fat, [FreeList(v.fat)[0]])
    ensures var r := WriteChain(Grown(v, c, off, input[..k]), cb, [FreeList(v.fat)[0]], input[k..], 0); WriteChain(v, cb, [c], input, off) == Written(r.vol, k + r.count)
  {
    var f := FreeList(v.fat)[0];
    UsedHead(v.fat, c);
    FreshChain(v.fat, c, f);
  }

  /** The offset write refines the overwrite of one byte sequence: the count, the new chain,
      its bytes, and everything that stays. */
  lemma {:induction false} WriteRefines(v: Volume, cb: nat, ch: seq<nat>, input: seq<byte>, off: nat) returns (ext: seq<nat>)
    requires VolumeShape(v, cb) && IsChain(v.fat, ch) && off < cb
    ensures WriteMeans(v, cb, ch, input, off, WriteChain(v, cb, ch, input, off).vol, WriteChain(v, cb, ch, input, off).count, ext)
    decreases |input|, 1
  {
    hide *;
    HeadShape(v, cb, ch);
    if |input| <= cb - off || (|ch| == 1 && FreeList(v.fat) == []) {
      var k := if |input| <= cb - off then |input| else cb - off;
      ext := [];
      TurnInside(v, cb, ch, input, off, k);
      MeansInside(v, cb, ch, input, off, k);
    } else if |ch| > 1 {
      var k := cb - off;
      TurnNext(v, cb, ch, input, off, k);
      ext := WriteRefines(PutBytes(v, ch[0], off, input[..k]), cb, ch[1..], input[k..], 0);
      var r := WriteChain(PutBytes(v, ch[0], off, input[..k]), cb, ch[1..], input[k..], 0);
      MeansNext(v, cb, ch, input, off, k, r.vol, r.count, ext);
    } else {
      assert ch == [ch[0]];
      ext := WriteRefinesExtend(v, cb, ch[0], input, off);
    }
  }

  lemma {:induction false} WriteRefinesExtend(v: Volume, cb: nat, c: nat, input: seq<byte>, off: nat) returns (ext: seq<nat>)
    requires VolumeShape(v, cb) && IsChain(v.fat, [c]) && off < cb && cb - off < |input| && FreeList(v.fat) != []
    ensures WriteMeans(v, cb, [c], input, off, WriteChain(v, cb, [c], input, off).vol, WriteChain(v, cb, [c], input, off).count, ext)
    decreases |input|, 0
  {
    hide *;
    var k, f := cb - off, FreeList(v.fat)[0];
    TurnExtend(v, cb, c, input, off, k);
    var v2 := Grown(v, c, off, input[..k]);
    ext := WriteRefines(v2, cb, [f], input[k..], 0);
    var r := WriteChain(v2, cb, [f], input[k..], 0);
    MeansExtend(v, cb, c, input, off, k, r.vol, r.count, ext);
    ext := [f] + ext;
  }

  lemma ChainNonempty(fat: Fat, ch: seq<nat>)
    requires IsChain(fat, ch)
    ensures ch != []
  {
  }

  lemma HeadShape(v: Volume, cb: nat, ch: seq<nat>)
    requires VolumeShape(v, cb) && IsChain(v.fat, ch)
    ensures ch != [] && 2 <= |v.fat| && ch[0] < |v.data| && |v.data[ch[0]]| == cb
  {
  }

  // ----- an offset anywhere inside the chain -----

  lemma DropOne(n: nat, cb: nat, offset: nat)
    requires cb > 0 && n > 0 && cb <= offset < n * cb
    ensures n > 1 && offset - cb < (n - 1) * cb
  {
    assert (n - 1) * cb == n * cb - cb;
  }

  /** Lines 538-542 and the write loop: whole clusters are skipped first. */
  ghost function OffsetWrite(v: Volume, cb: nat, ch: seq<nat>, input: seq<byte>, offset: nat): Written
    requires VolumeShape(v, cb) && IsChain(v.fat, ch) && offset < |ch| * cb
    decreases offset
  {
    if offset >= cb then
      DropOne(|ch|, cb, offset);
      ChainTail(v.fat, ch);
      OffsetWrite(v, cb, ch[1..], input, offset - cb)
    else WriteChain(v, cb, ch, input, offset)
  }

  lemma SkipBytes(v: Volume, w: Volume, c: nat, rest: seq<nat>, off: nat, bytes: seq<byte>)
    requires 2 <= c < |v.data| == |w.data| && w.data[c] == v.data[c] && Overwrites(v, w, rest, off, bytes)
    ensures Overwrites(v, w, [c] + rest, |v.data[c]| + off, bytes)
  {
    assert ([c] + rest)[1..] == rest;
    var a, b := v.data[c], Content(v, rest);
    assert a + Splice(b, off, bytes) == Splice(a + b, |a| + off, bytes);
  }

  lemma MeansSkip(v: Volume, cb: nat, ch: seq<nat>, input: seq<byte>, off: nat, w: Volume, k: nat, ext: seq<nat>)
    requires VolumeShape(v, cb) && IsChain(v.fat, ch) && |ch| > 1
    requires WriteMeans(v, cb, ch[1..], input, off, w, k, ext)
    ensures WriteMeans(v, cb, ch, input, cb + off, w, k, ext)
  {
    hide *;
    HeadCluster(v, cb, ch);
    MeansParts(v, cb, ch[1..], input, off, w, k, ext);
    GrowsNext(v, v, ch, w, ext);
    KeptOne(v, w, ch[0], ch[1..] + ext);
    SkipBytes(v, w, ch[0], ch[1..] + ext, off, input[..k]);
    MeansMake(v, cb, ch, input, cb + off, w, k, ext);
  }

  lemma MeansParts(v: Volume, cb: nat, ch: seq<nat>, input: seq<byte>, off: nat, w: Volume, k: nat, ext: seq<nat>)
    requires WriteMeans(v, cb, ch, input, off, w, k, ext)
    ensures VolumeShape(w, cb) && GrowsBy(v, ch, w, ext) && Keeps(v, w, ch + ext)
    ensures 2 <= |w.fat| == |w.data| == |v.fat| == |v.data| && k <= |input| && (k == |input| || FreeList(w.fat) == [])
    ensures Overwrites(v, w, ch + ext, off, input[..k])
  {
  }

  lemma MeansMake(v: Volume, cb: nat, ch: seq<nat>, input: seq<byte>, off: nat, w: Volume, k: nat, ext: seq<nat>)
    requires VolumeShape(w, cb) && GrowsBy(v, ch, w, ext) && Keeps(v, w, ch + ext)
    requires 2 <= |w.fat| && k <= |input| && (k == |input| || FreeList(w.fat) == [])
    requires Overwrites(v, w, ch + ext, off, input[..k])
    ensures WriteMeans(v, cb, ch, input, off, w, k, ext)
  {
  }

  lemma KeptOne(v: Volume, w: Volume, c: nat, rest: seq<nat>)
    requires Keeps(v, w, rest) && c !in rest && c < |v.fat|
    ensures |w.data| == |v.data| && c < |v.data| && w.data[c] == v.data[c]
    ensures Keeps(v, w, [c] + rest)
  {
  }

  lemma HeadCluster(v: Volume, cb: nat, ch: seq<nat>)
    requires VolumeShape(v, cb) && IsChain(v.fat, ch)
    ensures ch != [] && 2 <= ch[0] < |v.data| == |v.fat| && |v.data[ch[0]]| == cb
  {
  }

  lemma {:induction false} OffsetWriteRefines(v: Volume, cb: nat, ch: seq<nat>, input: seq<byte>, offset: nat) returns (ext: seq<nat>)
    requires VolumeShape(v, cb) && IsChain(v.fat, ch) && offset < |ch| * cb
    ensures WriteMeans(v, cb, ch, input, offset, OffsetWrite(v, cb, ch, input, offset).vol, OffsetWrite(v, cb, ch, input, offset).count, ext)
    decreases offset
  {
    hide WriteMeans;
    if offset >= cb {
      DropOne(|ch|, cb, offset);
      ChainTail(v.fat, ch);
      ext := OffsetWriteRefines(v, cb, ch[1..], input, offset - cb);
      var r := OffsetWrite(v, cb, ch[1..], input, offset - cb);
      MeansSkip(v, cb, ch, input, offset - cb, r.vol, r.count, ext);
    } else {
      ext := WriteRefines(v, cb, ch, input, offset);
    }
  }
}
