// Reading and writing a file's clusters in place (lib/src/pifat.c, lines 186-246 and 535-590).
module FatFile {
  import opened Bytes
  import opened FatVolume
  import opened FatChains
  import opened FatContent
  import opened FatStore
  import FatTable

  /** The first `n` elements, or all of them if there are fewer. */
  function Upto<T>(s: seq<T>, n: nat): seq<T> {
    if n < |s| then s[..n] else s
  }

  /** The loop variable `clus` stands at the head of `ch`, or at an end mark. */
  ghost predicate At(fat: Fat, c: nat, ch: seq<nat>) {
    if ch == [] then c >= 0x0FFF_FFF8 else IsChain(fat, ch) && c == ch[0]
  }

  lemma AtNext(fat: Fat, c: nat, ch: seq<nat>)
    requires |fat| <= 0x0FFF_FFF8 && At(fat, c, ch) && c < 0x0FFF_FFF8
    ensures ch != [] && 2 <= c < |fat| && c == ch[0] && IsChain(fat, ch)
    ensures At(fat, Next(fat, c), ch[1..]) && Next(fat, c) == Low28(fat[c])
    ensures |ch| == 1 <==> Next(fat, c) >= 0x0FFF_FFF8
  {
    ChainEnds(fat, ch);
    if |ch| > 1 { ChainTail(fat, ch); }
  }

  lemma AtEnd(fat: Fat, c: nat, ch: seq<nat>)
    requires |fat| <= 0x0FFF_FFF8 && At(fat, c, ch) && c >= 0x0FFF_FFF8
    ensures ch == []
  {
  }

  lemma AtStart(fat: Fat, ch: seq<nat>)
    requires IsChain(fat, ch)
    ensures ch != [] && At(fat, ch[0], ch) && ch[0] < |fat|
  {
  }

  /** What a read of `size` bytes still has to deliver: the chain's bytes from `off` on. */
  ghost function Wanted(v: Volume, ch: seq<nat>, off: nat, size: nat): seq<byte> {
    if FatContent.Fits(v, ch) && off <= |Content(v, ch)| then Upto(Content(v, ch)[off..], size) else []
  }

  lemma WantedStep(v: Volume, cb: nat, ch: seq<nat>, off: nat, size: nat, k: nat)
    requires VolumeShape(v, cb) && IsChain(v.fat, ch) && off <= cb && k == Min(cb - off, size)
    ensures off + k <= |v.data[ch[0]]|
    ensures Wanted(v, ch, off, size) == v.data[ch[0]][off..off + k] + Wanted(v, ch[1..], 0, size - k)
  {
    var a, b := v.data[ch[0]], Content(v, ch[1..]);
    assert Content(v, ch) == a + b;
    assert (a + b)[off..] == a[off..] + b;
    assert b[0..] == b;
    if k == size {
      assert Upto(a[off..] + b, size) == a[off..off + k];
    } else {
      assert a[off..] == a[off..off + k];
      assert Upto(a[off..] + b, size) == a[off..] + Upto(b, size - k);
    }
  }

  lemma WantedDone(v: Volume, ch: seq<nat>, off: nat, size: nat)
    requires size == 0 || (ch == [] && off == 0)
    ensures Wanted(v, ch, off, size) == []
  {
  }

  ghost predicate Inside(off: nat, ch: seq<nat>, cb: nat) {
    off < |ch| * cb
  }

  /** Where skipping whole clusters ends: the rest of the chain and the offset left over. */
  ghost function SkipTo(ch: seq<nat>, cb: nat, off: nat): (seq<nat>, nat) {
    if cb > 0 && off >= cb && |ch| > 1 then SkipTo(ch[1..], cb, off - cb) else (ch, off)
  }

  lemma SkipStep(fat: Fat, ch: seq<nat>, cb: nat, off: nat)
    requires IsChain(fat, ch) && Inside(off, ch, cb) && 0 < cb <= off
    ensures SkipTo(ch, cb, off) == SkipTo(ch[1..], cb, off - cb)
    ensures Inside(off - cb, ch[1..], cb) && |ch| > 1
  {
    DropOne(|ch|, cb, off);
  }

  lemma SkipStop(fat: Fat, ch: seq<nat>, cb: nat, off: nat)
    requires off < cb
    ensures SkipTo(ch, cb, off) == (ch, off)
  {
  }

  /** Lines 223-227 and 538-542: the skip loop both file operations start with. */
  method SkipClusters(fs: Store, start: nat, offset: nat, ghost ch: seq<nat>)
    returns (c: nat, off: nat, ghost rest: seq<nat>)
    requires fs.Valid() && IsChain(fs.Vol().fat, ch) && start == ch[0] && Inside(offset, ch, fs.g.ClusterBytes())
    modifies fs.cache.data, fs.cache.tag, fs.cache.valid
    ensures fs.Valid() && fs.Vol() == old(fs.Vol())
    ensures IsChain(fs.Vol().fat, rest) && c == rest[0] && c < |fs.Vol().fat| && off < fs.g.ClusterBytes()
    ensures (rest, off) == SkipTo(ch, fs.g.ClusterBytes(), offset)
  {
    hide *;
    ghost var v := fs.Vol();
    c, off, rest := start, offset, ch;
    AtStart(v.fat, ch);
    while off >= fs.g.ClusterBytes()
      invariant fs.Valid() && fs.Vol() == v
      invariant rest != [] && At(v.fat, c, rest) && IsChain(v.fat, rest) && c < |v.fat|
      invariant Inside(off, rest, fs.g.ClusterBytes())
      invariant SkipTo(rest, fs.g.ClusterBytes(), off) == SkipTo(ch, fs.g.ClusterBytes(), offset)
      decreases off
    {
      AtNext(v.fat, c, rest);
      SkipStep(v.fat, rest, fs.g.ClusterBytes(), off);
      var next := fs.NextCluster(c);
      AtStartOf(v.fat, next, rest[1..]);
      c, off, rest := next, off - fs.g.ClusterBytes(), rest[1..];
    }
    AtNext(v.fat, c, rest);
    SkipStop(v.fat, rest, fs.g.ClusterBytes(), off);
  }

  lemma AtStartOf(fat: Fat, c: nat, ch: seq<nat>)
    requires |fat| <= 0x0FFF_FFF8 && At(fat, c, ch) && ch != []
    ensures IsChain(fat, ch) && c == ch[0] && c < |fat|
  {
  }

  lemma {:induction false} SkipWanted(v: Volume, cb: nat, ch: seq<nat>, off: nat, size: nat)
    requires VolumeShape(v, cb) && IsChain(v.fat, ch) && Inside(off, ch, cb)
    ensures Wanted(v, ch, off, size) == Wanted(v, SkipTo(ch, cb, off).0, SkipTo(ch, cb, off).1, size)
    decreases off
  {
    hide Wanted, VolumeShape, FatContent.Fits;
    if off >= cb {
      SkipOne(v, cb, ch, off, size);
      ChainTail(v.fat, ch);
      hide IsChain;
      SkipWanted(v, cb, ch[1..], off - cb, size);
    }
  }

  /** `fat32_read_file_with_offset`: the `size` bytes at `offset`, or as many as the chain has.
      Caller buffers lie below the user top 0xC0000000, so the 32-bit sums do not wrap. */
  method ReadFileWithOffset(fs: Store, start: nat, size: nat, offset: nat, ghost ch: seq<nat>) returns (output: seq<byte>)
    requires fs.Valid() && IsChain(fs.Vol().fat, ch) && start == ch[0] && Inside(offset, ch, fs.g.ClusterBytes())
    requires size <= 0xC000_0000
    modifies fs.cache.data, fs.cache.tag, fs.cache.valid
    ensures fs.Valid() && fs.Vol() == old(fs.Vol())
    ensures output == Wanted(fs.Vol(), ch, offset, size)
  {
    hide *;
    ghost var v := fs.Vol();
    var c: nat, off: nat;
    ghost var rest: seq<nat>;
    SkipWanted(v, fs.g.ClusterBytes(), ch, offset, size);
    c, off, rest := SkipClusters(fs, start, offset, ch);
    AtStart(v.fat, rest);
    output := [];
    while c < 0x0FFF_FFF8 && |output| < size
      invariant fs.Valid() && fs.Vol() == v
      invariant At(v.fat, c, rest) && off <= fs.g.ClusterBytes() && (rest == [] ==> off == 0) && |output| <= size
      invariant output + Wanted(v, rest, off, size - |output|) == Wanted(v, ch, offset, size)
      decreases |rest|
    {
      AtNext(v.fat, c, rest);
      var buf := fs.ReadCluster(c);
      var toCopy := fs.g.ClusterBytes() - off;
      NoWrap(|output|, toCopy, size);
      if U32(|output| + toCopy) > size { toCopy := size - |output|; }
      WantedTurn(v, fs.g.ClusterBytes(), rest, off, size, output, toCopy);
      output := output + buf[off..off + toCopy];
      off := 0;
      var next := fs.NextCluster(c);
      c, rest := next, rest[1..];
    }
    if c >= 0x0FFF_FFF8 { AtEnd(v.fat, c, rest); }
    WantedDone(v, rest, off, size - |output|);
    assert output + [] == output;
  }

  /** `fat32_read_file`: the first `size` bytes of the chain; the buffer is one allocator block
      of at most 16 MB. The inner loop makes one turn per cluster. */
  method ReadFile(fs: Store, start: nat, size: nat, ghost ch: seq<nat>) returns (output: seq<byte>)
    requires fs.Valid() && At(fs.Vol().fat, start, ch) && size <= 0x100_0000
    modifies fs.cache.data, fs.cache.tag, fs.cache.valid
    ensures fs.Valid() && fs.Vol() == old(fs.Vol())
    ensures output == Wanted(fs.Vol(), ch, 0, size)
  {
    hide *;
    ghost var v := fs.Vol();
    var c: nat := start;
    ghost var rest := ch;
    output := [];
    while c < 0x0FFF_FFF8 && |output| < size
      invariant fs.Valid() && fs.Vol() == v
      invariant At(v.fat, c, rest) && |output| <= size
      invariant output + Wanted(v, rest, 0, size - |output|) == Wanted(v, ch, 0, size)
      decreases |rest|
    {
      AtNext(v.fat, c, rest);
      var inCluster := 0;
      while inCluster < fs.g.ClusterBytes() && |output| < size
        invariant fs.Valid() && fs.Vol() == v && |output| <= size
        invariant inCluster == 0 || inCluster == fs.g.ClusterBytes() || |output| == size
        invariant inCluster == 0 ==> |output| < size
        invariant output + Wanted(v, if inCluster == 0 then rest else rest[1..], 0, size - |output|) == Wanted(v, ch, 0, size)
        decreases size - |output|
      {
        var buf := fs.ReadCluster(c);
        var toCopy := fs.g.ClusterBytes();
        NoWrap(|output|, toCopy, size);
        if U32(|output| + toCopy) > size { toCopy := size - |output|; }
        WantedTurn(v, fs.g.ClusterBytes(), rest, 0, size, output, toCopy);
        output := output + buf[0..0 + toCopy];
        inCluster := inCluster + toCopy;
      }
      var next := fs.NextCluster(c);
      c, rest := next, rest[1..];
    }
    if c >= 0x0FFF_FFF8 { AtEnd(v.fat, c, rest); }
    WantedDone(v, rest, 0, size - |output|);
    assert output + [] == output;
  }

  lemma WantedTurn(v: Volume, cb: nat, rest: seq<nat>, off: nat, size: nat, output: seq<byte>, k: nat)
    requires VolumeShape(v, cb) && IsChain(v.fat, rest) && off <= cb && |output| <= size
    requires k == if |output| + (cb - off) > size then size - |output| else cb - off
    ensures off + k <= |v.data[rest[0]]| == cb
    ensures output + Wanted(v, rest, off, size - |output|)
         == (output + v.data[rest[0]][off..off + k]) + Wanted(v, rest[1..], 0, size - |output| - k)
  {
    hide VolumeShape, IsChain, Wanted;
    HeadIn(v, cb, rest);
    WantedStep(v, cb, rest, off, size - |output|, k);
    Chained(output, v.data[rest[0]][off..off + k], Wanted(v, rest[1..], 0, size - |output| - k));
  }

  lemma Chained(a: seq<byte>, b: seq<byte>, c: seq<byte>)
    ensures a + (b + c) == (a + b) + c
  {
  }

  lemma HeadIn(v: Volume, cb: nat, rest: seq<nat>)
    requires VolumeShape(v, cb) && IsChain(v.fat, rest)
    ensures rest != [] && rest[0] < |v.data| && |v.data[rest[0]]| == cb
  {
  }

  lemma SkipOne(v: Volume, cb: nat, ch: seq<nat>, off: nat, size: nat)
    requires VolumeShape(v, cb) && IsChain(v.fat, ch) && cb <= off && Inside(off, ch, cb)
    ensures |ch| > 1 && Inside(off - cb, ch[1..], cb)
    ensures Wanted(v, ch, off, size) == Wanted(v, ch[1..], off - cb, size)
  {
    DropOne(|ch|, cb, off);
    var a, b := v.data[ch[0]], Content(v, ch[1..]);
    assert Content(v, ch) == a + b && |a| == cb;
    ContentLength(v, cb, ch[1..]);
    assert (a + b)[off..] == b[off - cb..];
  }

  // ----- writing -----

  /** From here the write loop still produces `total`: `bw` bytes are written, `rest` is the
      chain from the current cluster, `off` the offset into it. */
  ghost predicate Pending(v: Volume, cb: nat, c: nat, rest: seq<nat>, input: seq<byte>, bw: nat, off: nat, total: Written) {
    && VolumeShape(v, cb) && bw <= |input|
    && if bw == |input| then total == Written(v, bw)
       else off < cb && IsChain(v.fat, rest) && c == rest[0] && (var r := WriteChain(v, cb, rest, input[bw..], off); total == Written(r.vol, bw + r.count))
  }

  lemma PendingHead(v: Volume, cb: nat, c: nat, rest: seq<nat>, input: seq<byte>, bw: nat, off: nat, total: Written)
    requires Pending(v, cb, c, rest, input, bw, off, total) && bw < |input|
    ensures off < cb && |v.fat| == |v.data| && rest != [] && c == rest[0] && 2 <= c < |v.data| && |v.data[c]| == cb
    ensures |rest| > 1 <==> Next(v.fat, c) < 0x0FFF_FFF8
    ensures |rest| > 1 ==> Next(v.fat, c) == rest[1]
    ensures Next(v.fat, c) == Low28(v.fat[c])
  {
    ChainEnds(v.fat, rest);
  }

  lemma PendingInside(v: Volume, cb: nat, c: nat, rest: seq<nat>, input: seq<byte>, bw: nat, off: nat, total: Written, next: nat)
    requires Pending(v, cb, c, rest, input, bw, off, total) && bw < |input|
    requires |input| - bw <= cb - off
    ensures c < |v.data| && off + |input[bw..]| <= |v.data[c]|
    ensures Pending(PutBytes(v, c, off, input[bw..]), cb, next, [], input, |input|, 0, total)
  {
    TurnInside(v, cb, rest, input[bw..], off, |input| - bw);
    assert input[bw..][..|input| - bw] == input[bw..];
    PutBytesShape(v, cb, c, off, input[bw..]);
  }

  lemma PendingNext(v: Volume, cb: nat, c: nat, rest: seq<nat>, input: seq<byte>, bw: nat, off: nat, total: Written, k: nat)
    requires Pending(v, cb, c, rest, input, bw, off, total)
    requires k == cb - off < |input| - bw && |rest| > 1
    ensures c < |v.data| && off + k <= |v.data[c]|
    ensures Pending(PutBytes(v, c, off, input[bw..bw + k]), cb, rest[1], rest[1..], input, bw + k, 0, total)
  {
    assert input[bw..][..k] == input[bw..bw + k] && input[bw..][k..] == input[bw + k..];
    TurnNext(v, cb, rest, input[bw..], off, k);
  }

  lemma PendingFull(v: Volume, cb: nat, c: nat, rest: seq<nat>, input: seq<byte>, bw: nat, off: nat, total: Written, k: nat)
    requires Pending(v, cb, c, rest, input, bw, off, total)
    requires k == cb - off < |input| - bw && |rest| == 1 && FreeList(v.fat) == []
    ensures c < |v.data| && off + k <= |v.data[c]|
    ensures total == Written(PutBytes(v, c, off, input[bw..bw + k]), bw + k)
  {
    assert input[bw..][..k] == input[bw..bw + k];
    TurnInside(v, cb, rest, input[bw..], off, k);
  }

  lemma PendingExtend(v: Volume, cb: nat, c: nat, rest: seq<nat>, input: seq<byte>, bw: nat, off: nat, total: Written, k: nat)
    requires Pending(v, cb, c, rest, input, bw, off, total)
    requires k == cb - off < |input| - bw && |rest| == 1 && FreeList(v.fat) != []
    ensures 0 < c < |v.data| == |v.fat| && 2 <= |v.fat| <= 0x0FFF_FFF8 && off + k <= |v.data[c]|
    ensures FreeList(v.fat)[0] < |v.fat|
    ensures Pending(Grown(v, c, off, input[bw..bw + k]), cb, FreeList(v.fat)[0], [FreeList(v.fat)[0]], input, bw + k, 0, total)
  {
    assert input[bw..][..k] == input[bw..bw + k] && input[bw..][k..] == input[bw + k..];
    assert rest == [c];
    TurnExtend(v, cb, c, input[bw..], off, k);
  }

  /** Lines 550-571: one cluster, read first unless it is replaced whole. */
  method WriteInCluster(fs: Store, c: nat, off: nat, chunk: seq<byte>)
    requires fs.Valid() && 2 <= c < fs.g.Limit() && off + |chunk| <= fs.g.ClusterBytes()
    modifies fs.cache.card, fs.cache.data, fs.cache.tag, fs.cache.valid
    ensures fs.Valid()
    ensures fs.Vol() == PutBytes(old(fs.Vol()), c, off, chunk)
  {
    hide Store.Valid, Store.Vol, VolumeShape;
    ghost var v := fs.Vol();
    var buf: seq<byte>;
    if off > 0 || |chunk| < fs.g.ClusterBytes() {
      buf := fs.ReadCluster(c);
      buf := Splice(buf, off, chunk);
    } else {
      buf := chunk;
      assert chunk == Splice(v.data[c], off, chunk);
    }
    fs.WriteCluster(c, buf);
  }

  /** `fat32_write_with_offset`. */
  method WriteWithOffset(fs: Store, start: nat, input: seq<byte>, offset: nat, ghost ch: seq<nat>) returns (written: nat)
    requires fs.Valid() && IsChain(fs.Vol().fat, ch) && start == ch[0] && Inside(offset, ch, fs.g.ClusterBytes())
    requires |input| <= 0xC000_0000
    modifies fs.cache.card, fs.cache.data, fs.cache.tag, fs.cache.valid
    ensures fs.Valid()
    ensures Written(fs.Vol(), written) == OffsetWrite(old(fs.Vol()), fs.g.ClusterBytes(), ch, input, offset)
  {
    hide *;
    ghost var v := fs.Vol();
    ghost var cb := fs.g.ClusterBytes();
    var c: nat, off: nat;
    ghost var rest: seq<nat>;
    c, off, rest := SkipClusters(fs, start, offset, ch);
    ghost var total := StartPending(v, cb, ch, offset, rest, off, input);
    written := 0;
    while c < 0x0FFF_FFF8 && written < |input|
      invariant fs.Valid() && fs.g.ClusterBytes() == cb
      invariant Pending(fs.Vol(), cb, c, rest, input, written, off, total)
      invariant written <= |input| && (written < |input| ==> c < 0x0FFF_FFF8)
      decreases |input| - written
    {
      PendingHead(fs.Vol(), cb, c, rest, input, written, off, total);
      var count := fs.g.ClusterBytes() - off;
      NoWrap(written, count, |input|);
      if U32(written + count) > |input| { count := |input| - written; }
      var full: bool;
      c, full, rest := WriteTurn(fs, c, off, input, written, count, rest, total);
      off := 0;
      written := written + count;
      if full { return; }
    }
    PendingDone(fs.Vol(), cb, c, rest, input, written, off, total);
  }

  lemma NoWrap(written: nat, count: nat, size: nat)
    requires written <= size <= 0xC000_0000 && count <= 255 * 512
    ensures U32(written + count) == written + count
  {
  }

  lemma StartPending(v: Volume, cb: nat, ch: seq<nat>, offset: nat, rest: seq<nat>, off: nat, input: seq<byte>) returns (total: Written)
    requires VolumeShape(v, cb) && IsChain(v.fat, ch) && Inside(offset, ch, cb)
    requires (rest, off) == SkipTo(ch, cb, offset) && IsChain(v.fat, rest) && off < cb
    ensures total == OffsetWrite(v, cb, ch, input, offset)
    ensures Pending(v, cb, rest[0], rest, input, 0, off, total)
  {
    total := OffsetWrite(v, cb, ch, input, offset);
    SkipWrite(v, cb, ch, input, offset);
    assert input[0..] == input;
    if input == [] { assert total == Written(v, 0); }
  }

  lemma {:induction false} SkipWrite(v: Volume, cb: nat, ch: seq<nat>, input: seq<byte>, off: nat)
    requires VolumeShape(v, cb) && IsChain(v.fat, ch) && Inside(off, ch, cb)
    ensures IsChain(v.fat, SkipTo(ch, cb, off).0) && SkipTo(ch, cb, off).1 < cb
    ensures OffsetWrite(v, cb, ch, input, off) == WriteChain(v, cb, SkipTo(ch, cb, off).0, input, SkipTo(ch, cb, off).1)
    decreases off
  {
    if off >= cb {
      DropOne(|ch|, cb, off);
      ChainTail(v.fat, ch);
      SkipWrite(v, cb, ch[1..], input, off - cb);
    }
  }

  lemma PendingDone(v: Volume, cb: nat, c: nat, rest: seq<nat>, input: seq<byte>, bw: nat, off: nat, total: Written)
    requires Pending(v, cb, c, rest, input, bw, off, total) && bw == |input|
    ensures total == Written(v, bw)
  {
  }

  lemma PutBytesFat(v: Volume, c: nat, off: nat, x: seq<byte>)
    requires c < |v.data| && off + |x| <= |v.data[c]|
    ensures PutBytes(v, c, off, x).fat == v.fat
  {
  }

  lemma GrownIs(v: Volume, c: nat, off: nat, x: seq<byte>)
    requires c < |v.fat| == |v.data| && 2 <= |v.fat| <= 0x0FFF_FFF8 && FreeList(v.fat) != [] && off + |x| <= |v.data[c]|
    ensures FreeList(v.fat)[0] < |v.fat|
    ensures c < |PutBytes(v, c, off, x).fat| == |v.fat|
    ensures Grown(v, c, off, x) == FatTable.Given(PutBytes(v, c, off, x), c, FreeList(v.fat)[0])
  {
  }

  /** Lines 550-587: one cluster written, then on to the next one, a new one, or out of space. */
  method WriteTurn(fs: Store, c: nat, off: nat, input: seq<byte>, bw: nat, k: nat, ghost rest: seq<nat>, ghost total: Written)
    returns (next: nat, full: bool, ghost rest': seq<nat>)
    requires fs.Valid() && bw < |input| && c < 0x0FFF_FFF8
    requires Pending(fs.Vol(), fs.g.ClusterBytes(), c, rest, input, bw, off, total)
    requires off < fs.g.ClusterBytes()
    requires k == if |input| - bw < fs.g.ClusterBytes() - off then |input| - bw else fs.g.ClusterBytes() - off
    modifies fs.cache.card, fs.cache.data, fs.cache.tag, fs.cache.valid
    ensures fs.Valid()
    ensures full ==> total == Written(fs.Vol(), bw + k)
    ensures !full ==> Pending(fs.Vol(), fs.g.ClusterBytes(), next, rest', input, bw + k, 0, total)
    ensures !full && bw + k < |input| ==> next < 0x0FFF_FFF8
  {
    hide *;
    ghost var v, cb := fs.Vol(), fs.g.ClusterBytes();
    PendingHead(v, cb, c, rest, input, bw, off, total);
    WriteInCluster(fs, c, off, input[bw..bw + k]);
    PutBytesFat(v, c, off, input[bw..bw + k]);
    next := fs.NextCluster(c);
    full := false;
    if bw + k == |input| {
      assert input[bw..bw + k] == input[bw..];
      PendingInside(v, cb, c, rest, input, bw, off, total, next);
      rest' := [];
    } else if next < 0x0FFF_FFF8 {
      PendingNext(v, cb, c, rest, input, bw, off, total, k);
      rest' := rest[1..];
    } else {
      rest' := [];
      ghost var f0 := FreeList(v.fat);
      if f0 != [] { PendingExtend(v, cb, c, rest, input, bw, off, total, k); GrownIs(v, c, off, input[bw..bw + k]); }
      else { PendingFull(v, cb, c, rest, input, bw, off, total, k); }
      next := FatTable.GiveNextFreeCluster(fs, c);
      full := next >= 0x0FFF_FFF8;
      if !full { rest' := [next]; }
    }
  }
}
