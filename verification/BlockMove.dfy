// Block moves over byte memory with their word-at-a-time phases (lib/src/mem.c, lines 30-147).
// Memory is an array indexed by address.
module BlockMove {
  import opened Bytes

  /** Memory after the n bytes at `src` have been put at `dst`, all read before any is written. */
  function Moved(m: seq<byte>, dst: nat, src: nat, n: nat): (r: seq<byte>)
    requires dst + n <= |m| && src + n <= |m|
    ensures |r| == |m|
  {
    Splice(m, dst, m[src..src + n])
  }

  /** All but the first `left` of the n bytes moved. */
  function MovedBack(m: seq<byte>, dst: nat, src: nat, n: nat, left: nat): (r: seq<byte>)
    requires dst + n <= |m| && src + n <= |m| && left <= n
    ensures |r| == |m|
  {
    Moved(m, dst + left, src + left, n - left)
  }

  /** Going up, the next `w` source bytes are still the old ones when the destination lies below
      the source or does not overlap it. */
  lemma ForwardStep(m: seq<byte>, dst: nat, src: nat, k: nat, w: nat, n: nat)
    requires dst + n <= |m| && src + n <= |m| && k + w <= n
    requires dst <= src || src + n <= dst
    ensures Moved(Moved(m, dst, src, k), dst + k, src + k, w) == Moved(m, dst, src, k + w)
  {
    hide Moved;
    var a, b := Moved(Moved(m, dst, src, k), dst + k, src + k, w), Moved(m, dst, src, k + w);
    forall i | 0 <= i < |m| ensures a[i] == b[i] {
      MovedMeans(Moved(m, dst, src, k), dst + k, src + k, w, i);
      MovedMeans(m, dst, src, k + w, i);
      MovedMeans(m, dst, src, k, if dst + k <= i < dst + k + w then src + (i - dst) else i);
    }
  }

  /** Going down, likewise when the destination lies above the source. */
  lemma BackwardStep(m: seq<byte>, dst: nat, src: nat, n: nat, left: nat, w: nat)
    requires dst + n <= |m| && src + n <= |m| && w <= left <= n && src <= dst
    ensures Moved(MovedBack(m, dst, src, n, left), dst + left - w, src + left - w, w) == MovedBack(m, dst, src, n, left - w)
  {
    hide Moved;
    var a, b := Moved(MovedBack(m, dst, src, n, left), dst + left - w, src + left - w, w), MovedBack(m, dst, src, n, left - w);
    forall i | 0 <= i < |m| ensures a[i] == b[i] {
      MovedMeans(MovedBack(m, dst, src, n, left), dst + left - w, src + left - w, w, i);
      MovedMeans(m, dst + (left - w), src + (left - w), n - (left - w), i);
      MovedMeans(m, dst + left, src + left, n - left, if dst + left - w <= i < dst + left then src + (i - dst) else i);
    }
  }

  lemma MoveNothing(m: seq<byte>, dst: nat, src: nat)
    requires dst <= |m| && src <= |m|
    ensures Moved(m, dst, src, 0) == m
  {
  }

  lemma MoveInPlace(m: seq<byte>, at: nat, n: nat)
    requires at + n <= |m|
    ensures Moved(m, at, at, n) == m
  {
  }

  predicate Aligned(p: nat) {
    p % 4 == 0
  }

  lemma NextAligned(p: nat)
    requires Aligned(p)
    ensures Aligned(p + 4) && (p >= 4 ==> Aligned(p - 4))
  {
  }

  /** One byte: `*d = *s`. */
  method CopyByte(m: array<byte>, d: nat, s: nat)
    requires d < m.Length && s < m.Length
    modifies m
    ensures m[..] == Moved(old(m[..]), d, s, 1)
  {
    ghost var before := m[..];
    m[d] := m[s];
    assert m[..] == before[d := before[s]];
    assert before[s..s + 1] == [before[s]];
  }

  /** One aligned word: four bytes loaded, then stored. */
  method CopyWord(m: array<byte>, d: nat, s: nat)
    requires Aligned(d) && Aligned(s) && d + 4 <= m.Length && s + 4 <= m.Length
    modifies m
    ensures m[..] == Moved(old(m[..]), d, s, 4)
  {
    ghost var before := m[..];
    var b0, b1, b2, b3 := m[s], m[s + 1], m[s + 2], m[s + 3];
    m[d], m[d + 1], m[d + 2], m[d + 3] := b0, b1, b2, b3;
    FourMoved(before, m[..], d, s);
  }

  lemma FourMoved(before: seq<byte>, after: seq<byte>, d: nat, s: nat)
    requires |after| == |before| && d + 4 <= |before| && s + 4 <= |before|
    requires after[d] == before[s] && after[d + 1] == before[s + 1] && after[d + 2] == before[s + 2] && after[d + 3] == before[s + 3]
    requires forall k :: 0 <= k < |before| && !(d <= k < d + 4) ==> after[k] == before[k]
    ensures after == Moved(before, d, s, 4)
  {
    var r := Moved(before, d, s, 4);
    forall k | 0 <= k < |r| ensures after[k] == r[k] {
      if d <= k < d + 4 { assert before[s..s + 4][k - d] == before[s + (k - d)]; }
    }
  }

  /** The three upward phases shared by lines 67-86 and 130-146: bytes until both pointers are
      aligned, whole words, the remaining bytes. */
  method CopyUp(m: array<byte>, dst: nat, src: nat, n: nat)
    requires dst + n <= m.Length && src + n <= m.Length
    requires dst <= src || src + n <= dst
    modifies m
    ensures m[..] == Moved(old(m[..]), dst, src, n)
  {
    hide *;
    ghost var before := m[..];
    var d, s, left := dst, src, n;
    MoveNothing(before, dst, src);
    while (!Aligned(d) || !Aligned(s)) && left > 0
      invariant 0 <= left <= n && d == dst + (n - left) && s == src + (n - left)
      invariant m[..] == Moved(before, dst, src, n - left)
      decreases left
    {
      ForwardStep(before, dst, src, n - left, 1, n);
      CopyByte(m, d, s);
      d, s, left := d + 1, s + 1, left - 1;
    }
    while left >= 4
      invariant 0 <= left <= n && d == dst + (n - left) && s == src + (n - left)
      invariant left == 0 || (Aligned(d) && Aligned(s))
      invariant m[..] == Moved(before, dst, src, n - left)
      decreases left
    {
      ForwardStep(before, dst, src, n - left, 4, n);
      NextAligned(d);
      NextAligned(s);
      CopyWord(m, d, s);
      d, s, left := d + 4, s + 4, left - 4;
    }
    while left > 0
      invariant 0 <= left <= n && d == dst + (n - left) && s == src + (n - left)
      invariant m[..] == Moved(before, dst, src, n - left)
      decreases left
    {
      ForwardStep(before, dst, src, n - left, 1, n);
      CopyByte(m, d, s);
      d, s, left := d + 1, s + 1, left - 1;
    }
  }

  /** Bytes downwards: to the first aligned pair of pointers (lines 94-98), or to the start (112-113). */
  method BytesDown(m: array<byte>, ghost before: seq<byte>, dst: nat, src: nat, ghost n: nat, start: nat, align: bool)
    returns (left: nat)
    requires |before| == m.Length && dst + n <= m.Length && src + n <= m.Length && src <= dst && start <= n
    requires m[..] == MovedBack(before, dst, src, n, start)
    modifies m
    ensures left <= start && m[..] == MovedBack(before, dst, src, n, left)
    ensures left == 0 || (align && Aligned(dst + left) && Aligned(src + left))
  {
    hide *;
    left := start;
    while !(align && Aligned(dst + left) && Aligned(src + left)) && left > 0
      invariant left <= start && m[..] == MovedBack(before, dst, src, n, left)
    {
      BackwardStep(before, dst, src, n, left, 1);
      left := left - 1;
      CopyByte(m, dst + left, src + left);
    }
  }

  /** Whole words downwards (lines 103-107). */
  method WordsDown(m: array<byte>, ghost before: seq<byte>, dst: nat, src: nat, ghost n: nat, start: nat)
    returns (left: nat)
    requires |before| == m.Length && dst + n <= m.Length && src + n <= m.Length && src <= dst && start <= n
    requires m[..] == MovedBack(before, dst, src, n, start)
    requires start == 0 || (Aligned(dst + start) && Aligned(src + start))
    modifies m
    ensures left <= start && m[..] == MovedBack(before, dst, src, n, left)
  {
    hide *;
    left := start;
    while left >= 4
      invariant left <= start && m[..] == MovedBack(before, dst, src, n, left)
      invariant left == 0 || (Aligned(dst + left) && Aligned(src + left))
    {
      BackwardStep(before, dst, src, n, left, 4);
      NextAligned(dst + left);
      NextAligned(src + left);
      left := left - 4;
      CopyWord(m, dst + left, src + left);
    }
  }

  /** Lines 90-113: the same phases from the ends downwards. */
  method CopyDown(m: array<byte>, dst: nat, src: nat, n: nat)
    requires dst + n <= m.Length && src + n <= m.Length && src <= dst
    modifies m
    ensures m[..] == Moved(old(m[..]), dst, src, n)
  {
    hide *;
    ghost var before := m[..];
    BackEnds(before, dst, src, n);
    var left := BytesDown(m, before, dst, src, n, n, true);
    left := WordsDown(m, before, dst, src, n, left);
    left := BytesDown(m, before, dst, src, n, left, false);
  }

  lemma BackEnds(m: seq<byte>, dst: nat, src: nat, n: nat)
    requires dst + n <= |m| && src + n <= |m|
    ensures MovedBack(m, dst, src, n, n) == m && MovedBack(m, dst, src, n, 0) == Moved(m, dst, src, n)
  {
  }

  /** `memmove_fast`: for every overlap, direction, length and alignment the destination gets the
      source's old bytes and nothing else changes. */
  method MemmoveFast(m: array<byte>, dst: nat, src: nat, n: nat)
    requires dst + n <= m.Length && src + n <= m.Length
    modifies m
    ensures m[..] == Moved(old(m[..]), dst, src, n)
  {
    if dst == src || n == 0 {
      MoveInPlace(m[..], dst, n);
      MoveNothing(m[..], dst, src);
      return;
    }
    if dst < src {
      CopyUp(m, dst, src, n);
    } else {
      CopyDown(m, dst, src, n);
    }
  }

  /** `memcpy`: null pointers are ignored; a destination inside the source is the caller's fault. */
  method Memcpy(m: array<byte>, dst: nat, src: nat, n: nat)
    requires dst + n <= m.Length && src + n <= m.Length
    requires dst == 0 || src == 0 || dst <= src || src + n <= dst
    modifies m
    ensures m[..] == if dst == 0 || src == 0 then old(m[..]) else Moved(old(m[..]), dst, src, n)
  {
    if dst == 0 || src == 0 {
      return;
    }
    CopyUp(m, dst, src, n);
  }

  /** What "moved" means byte by byte: the move is faithful even where the ranges overlap. */
  lemma MovedMeans(m: seq<byte>, dst: nat, src: nat, n: nat, i: nat)
    requires dst + n <= |m| && src + n <= |m| && i < |m|
    ensures Moved(m, dst, src, n)[i] == if dst <= i < dst + n then m[src + (i - dst)] else m[i]
  {
  }

  // ----- memset_fast -----

  function Filled(m: seq<byte>, at: nat, value: byte, n: nat): (r: seq<byte>)
    requires at + n <= |m|
    ensures |r| == |m|
  {
    Splice(m, at, seq(n, _ => value))
  }

  /** `memset_fast`, lines 30-53. */
  method MemsetFast(m: array<byte>, at: nat, value: byte, num: nat)
    requires at + num <= m.Length
    modifies m
    ensures m[..] == Filled(old(m[..]), at, value, num)
  {
    hide *;
    ghost var before := m[..];
    FilledNone(before, at, value);
    var p, left := at, num;
    while !Aligned(p) && left > 0
      invariant 0 <= left <= num && p == at + (num - left)
      invariant m[..] == Filled(before, at, value, num - left)
      decreases left
    {
      FilledMore(before, at, value, num - left, 1);
      m[p] := value;
      p, left := p + 1, left - 1;
    }
    while left >= 4
      invariant 0 <= left <= num && p == at + (num - left)
      invariant m[..] == Filled(before, at, value, num - left)
      decreases left
    {
      FilledMore(before, at, value, num - left, 4);
      SetWord(m, p, value);
      p, left := p + 4, left - 4;
    }
    while left > 0
      invariant 0 <= left <= num && p == at + (num - left)
      invariant m[..] == Filled(before, at, value, num - left)
      decreases left
    {
      FilledMore(before, at, value, num - left, 1);
      m[p] := value;
      p, left := p + 1, left - 1;
    }
  }

  method SetWord(m: array<byte>, p: nat, value: byte)
    requires p + 4 <= m.Length
    modifies m
    ensures m[..] == Filled(old(m[..]), p, value, 4)
  {
    m[p], m[p + 1], m[p + 2], m[p + 3] := value, value, value, value;
  }

  lemma FilledNone(m: seq<byte>, at: nat, value: byte)
    requires at <= |m|
    ensures Filled(m, at, value, 0) == m
  {
  }

  lemma FilledMore(m: seq<byte>, at: nat, value: byte, k: nat, w: nat)
    requires at + k + w <= |m|
    ensures Filled(Filled(m, at, value, k), at + k, value, w) == Filled(m, at, value, k + w)
    ensures w == 1 ==> Filled(m, at, value, k)[at + k := value] == Filled(m, at, value, k + w)
  {
  }
}
