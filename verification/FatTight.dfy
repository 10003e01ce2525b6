// An offset write takes no cluster it does not write to (lib/src/pifat.c, lines 576-587).
module FatTight {
  import opened Bytes
  import opened FatVolume
  import opened FatChains
  import opened FatContent

  /** How many free clusters are gone. */
  ghost function Taken(v: Volume, w: Volume): int
    requires 2 <= |v.fat| == |w.fat|
  {
    |FreeList(v.fat)| - |FreeList(w.fat)|
  }

  /** The last cluster taken, if any, holds at least one byte written. */
  ghost predicate Tight(v: Volume, w: Volume, cb: nat, n: nat, off: nat, count: nat) {
    && 2 <= |v.fat| == |w.fat| && Taken(v, w) >= 0
    && (Taken(v, w) > 0 ==> off + count > (n + Taken(v, w) - 1) * cb)
  }

  lemma Plus(n: int, cb: nat)
    ensures (n + 1) * cb == n * cb + cb
  {
  }

  lemma TightInside(v: Volume, w: Volume, cb: nat, n: nat, off: nat, count: nat)
    requires 2 <= |v.fat| && w.fat == v.fat
    ensures Tight(v, w, cb, n, off, count)
  {
  }

  lemma TightNext(v: Volume, v1: Volume, w: Volume, cb: nat, n: nat, off: nat, k: nat, m: nat)
    requires n > 1 && off + k == cb && v1.fat == v.fat && Tight(v1, w, cb, n - 1, 0, m)
    ensures Tight(v, w, cb, n, off, k + m)
  {
    Plus(n - 1 + Taken(v, w) - 1, cb);
  }

  lemma TightExtend(v: Volume, v2: Volume, w: Volume, cb: nat, off: nat, k: nat, m: nat)
    requires off + k == cb && 2 <= |v.fat| == |v2.fat| && FreeList(v.fat) != [] && FreeList(v2.fat) == FreeList(v.fat)[1..]
    requires Tight(v2, w, cb, 1, 0, m) && m > 0
    ensures Tight(v, w, cb, 1, off, k + m)
  {
    Plus(1 + Taken(v2, w) - 1, cb);
    Plus(0, cb);
    assert Taken(v, w) == Taken(v2, w) + 1;
  }

  lemma GrownFree(v: Volume, cb: nat, c: nat, off: nat, x: seq<byte>)
    requires VolumeShape(v, cb) && IsChain(v.fat, [c]) && FreeList(v.fat) != [] && 2 <= |v.fat| <= 0x0FFF_FFF8 && off + |x| <= cb
    requires c < |v.fat| == |v.data| && |v.data[c]| == cb
    ensures |Grown(v, c, off, x).fat| == |v.fat| && FreeList(Grown(v, c, off, x).fat) == FreeList(v.fat)[1..]
  {
    UsedHead(v.fat, c);
    GivenFree(PutBytes(v, c, off, x), c, FreeList(v.fat)[0]);
  }

  lemma TableSize(v: Volume, cb: nat, ch: seq<nat>)
    requires VolumeShape(v, cb) && IsChain(v.fat, ch)
    ensures 2 <= |v.fat| == |v.data| && ch != []
  {
    assert 2 <= ch[0] < |v.fat|;
  }

  lemma {:induction false} WriteTight(v: Volume, cb: nat, ch: seq<nat>, input: seq<byte>, off: nat)
    requires VolumeShape(v, cb) && IsChain(v.fat, ch) && off < cb
    ensures var r := WriteChain(v, cb, ch, input, off); Tight(v, r.vol, cb, |ch|, off, r.count) && (input != [] ==> r.count > 0)
    decreases |input|, 1
  {
    hide *;
    TableSize(v, cb, ch);
    if |input| <= cb - off || (|ch| == 1 && FreeList(v.fat) == []) {
      var k := if |input| <= cb - off then |input| else cb - off;
      SameFat(v, cb, ch, off, input[..k]);
      TurnInside(v, cb, ch, input, off, k);
      TightInside(v, PutBytes(v, ch[0], off, input[..k]), cb, |ch|, off, k);
    } else if |ch| > 1 {
      var k := cb - off;
      SameFat(v, cb, ch, off, input[..k]);
      TurnNext(v, cb, ch, input, off, k);
      var v1 := PutBytes(v, ch[0], off, input[..k]);
      WriteTight(v1, cb, ch[1..], input[k..], 0);
      var r := WriteChain(v1, cb, ch[1..], input[k..], 0);
      TightNext(v, v1, r.vol, cb, |ch|, off, k, r.count);
    } else {
      assert ch == [ch[0]];
      WriteTightExtend(v, cb, ch[0], input, off);
    }
  }

  lemma SameFat(v: Volume, cb: nat, ch: seq<nat>, off: nat, x: seq<byte>)
    requires VolumeShape(v, cb) && IsChain(v.fat, ch) && off + |x| <= cb
    ensures ch != [] && ch[0] < |v.data| && off + |x| <= |v.data[ch[0]]| && PutBytes(v, ch[0], off, x).fat == v.fat
  {
    HeadCluster(v, cb, ch);
  }

  lemma WriteTightExtend(v: Volume, cb: nat, c: nat, input: seq<byte>, off: nat)
    requires VolumeShape(v, cb) && IsChain(v.fat, [c]) && off < cb && cb - off < |input| && 2 <= |v.fat| && FreeList(v.fat) != []
    ensures var r := WriteChain(v, cb, [c], input, off); Tight(v, r.vol, cb, 1, off, r.count) && r.count > 0
    decreases |input|, 0
  {
    hide *;
    var k, f := cb - off, FreeList(v.fat)[0];
    TurnExtend(v, cb, c, input, off, k);
    GrownFree(v, cb, c, off, input[..k]);
    var v2 := Grown(v, c, off, input[..k]);
    WriteTight(v2, cb, [f], input[k..], 0);
    var r := WriteChain(v2, cb, [f], input[k..], 0);
    TightExtend(v, v2, r.vol, cb, off, k, r.count);
  }

  /** An offset write with at least one byte to write writes at least one, and each cluster it appends
      is needed: without the last one the chain would be too short. */
  lemma {:induction false} OffsetWriteTight(v: Volume, cb: nat, ch: seq<nat>, input: seq<byte>, offset: nat)
    requires VolumeShape(v, cb) && IsChain(v.fat, ch) && offset < |ch| * cb
    ensures var r := OffsetWrite(v, cb, ch, input, offset); Tight(v, r.vol, cb, |ch|, offset, r.count) && (input != [] ==> r.count > 0)
    decreases offset
  {
    hide VolumeShape, IsChain, WriteChain, Tight, FreeList;
    if offset >= cb {
      DropOne(|ch|, cb, offset);
      ChainTail(v.fat, ch);
      OffsetWriteTight(v, cb, ch[1..], input, offset - cb);
      var r := OffsetWrite(v, cb, ch[1..], input, offset - cb);
      TightSkip(v, r.vol, cb, |ch|, offset, r.count);
    } else {
      WriteTight(v, cb, ch, input, offset);
    }
  }

  lemma TightSkip(v: Volume, w: Volume, cb: nat, n: nat, offset: nat, count: nat)
    requires n > 1 && offset >= cb && Tight(v, w, cb, n - 1, offset - cb, count)
    ensures Tight(v, w, cb, n, offset, count)
  {
    Plus(n - 1 + Taken(v, w) - 1, cb);
  }
}
