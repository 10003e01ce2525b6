// `load_elf` in place (final/src/elf.c): segments into the process's memory, then its first stack.
module ElfLoader {
  import opened Bytes
  import opened UserMemory
  import opened Elf
  import ElfFormat

  const STACK_TOP: int := 0xBFFF_FFF0
  const STACK_PAGE: int := 0xBFFF_F000

  // ----- where the strings go -----

  function AlignDown8(x: int): int { x - x % 8 }

  /** The stack pointer after the strings `ss` have been put below `sp`, each with its NUL and
      aligned down to 8. */
  function Below(sp: int, ss: seq<seq<byte>>): (r: int)
    ensures r <= sp
  {
    if ss == [] then sp else AlignDown8(Below(sp, ss[..|ss| - 1]) - (|ss[|ss| - 1]| + 1))
  }

  /** At entry the stack pointer is aligned to 8 bytes if and only if the number of argument and
      environment strings is odd. */
  lemma StackAligned(args: seq<seq<byte>>, envs: seq<seq<byte>>)
    ensures FinalSp(args, envs) % 8 == 0 <==> (|args| + |envs|) % 2 == 1
  {
    hide Below;
    Multiple8(AlignDown8(Below(Below(STACK_TOP, args), envs)), |args| + |envs|);
  }

  /** Without strings the stack takes 132 bytes; each string takes its length, its NUL and the gap to a
      multiple of 8, and each pointer 4 bytes. */
  lemma StackHeight(args: seq<seq<byte>>, envs: seq<seq<byte>>, s: seq<byte>)
    ensures FinalSp([], []) == 0xBFFF_FF6C
    ensures var low := Below(Below(STACK_TOP, args), envs); var sp := Below(Below(STACK_TOP, args), envs + [s]); sp % 8 == 0 && low - (|s| + 1) - 8 < sp <= low - (|s| + 1)
    ensures FinalSp(args, envs + [s]) == Below(Below(STACK_TOP, args), envs + [s]) - 132 - 4 * (|args| + |envs| + 1)
  {
    hide Below, AlignDown8, FinalSp;
    var top := Below(STACK_TOP, args);
    BelowMore(top, envs, s);
    AlignGap(Below(top, envs) - (|s| + 1));
    AlignedAlready(Below(top, envs + [s]));
    NoBelow();
    SpIs(args, envs + [s]);
  }

  lemma BelowMore(top: int, ss: seq<seq<byte>>, s: seq<byte>)
    ensures Below(top, ss + [s]) == AlignDown8(Below(top, ss) - (|s| + 1))
  {
    hide AlignDown8;
    assert (ss + [s])[..|ss|] == ss;
  }

  lemma SpIs(args: seq<seq<byte>>, envs: seq<seq<byte>>)
    ensures FinalSp(args, envs) == AlignDown8(Below(Below(STACK_TOP, args), envs)) - 132 - 4 * (|args| + |envs|)
  {
    hide Below, AlignDown8;
  }

  lemma AlignGap(x: int)
    ensures AlignDown8(x) % 8 == 0 && x - 8 < AlignDown8(x) <= x
  {
  }

  lemma AlignedAlready(x: int)
    ensures x % 8 == 0 ==> AlignDown8(x) == x
  {
  }

  lemma NoBelow()
    ensures FinalSp([], []) == 0xBFFF_FF6C
  {
  }

  lemma Multiple8(top: int, n: nat)
    requires top % 8 == 0
    ensures (top - 132 - 4 * n) % 8 == 0 <==> n % 2 == 1
  {
    var q, h := top / 8, n / 2;
    assert top == 8 * q && n == 2 * h + n % 2;
    if n % 2 == 1 { assert top - 132 - 4 * n == 8 * (q - 17 - h); }
    else { assert top - 132 - 4 * n == 8 * (q - 17 - h) + 4; }
  }

  lemma BelowNext(sp: int, ss: seq<seq<byte>>, i: nat)
    requires i < |ss|
    ensures Below(sp, ss[..i + 1]) == AlignDown8(Below(sp, ss[..i]) - (|ss[i]| + 1)) <= Below(sp, ss[..i])
  {
    assert ss[..i + 1][..i] == ss[..i];
  }

  lemma {:induction false} BelowPrefix(sp: int, ss: seq<seq<byte>>, i: nat)
    requires i <= |ss|
    ensures Below(sp, ss) <= Below(sp, ss[..i])
    decreases |ss|
  {
    if i == |ss| {
      assert ss[..i] == ss;
    } else {
      var init := ss[..|ss| - 1];
      BelowPrefix(sp, init, i);
      assert init[..i] == ss[..i];
    }
  }

  function Reversed(s: seq<int>): (r: seq<int>)
    ensures |r| == |s| && forall i :: 0 <= i < |s| ==> r[i] == s[|s| - 1 - i]
  {
    seq(|s|, i requires 0 <= i < |s| => s[|s| - 1 - i])
  }

  ghost predicate StringsAt(m: Mem, ps: seq<int>, ss: seq<seq<byte>>, lo: int, hi: int) {
    |ps| == |ss| && forall i :: 0 <= i < |ps| ==> lo <= ps[i] < hi && StrAt(m, ps[i], ss[i])
  }

  /** The auxiliary vector: key and value pairs up to AT_NULL. */
  function Auxv(elf: seq<byte>, tableVa: int, random: int): (ws: seq<int>)
    requires |elf| >= 52
    ensures |ws| == 26
  {
    [6, 4096, 3, tableVa, 4, 32, 5, PhNum(elf), 9, Entry(elf), 11, 0, 12, 0, 13, 0, 14, 0, 16, 0x197, 26, 0, 25, random, 0, 0]
  }

  /** The words a new process finds from its stack pointer on. */
  function StackWords(args: seq<int>, envs: seq<int>, aux: seq<int>): seq<int> {
    [|args|] + args + [0] + Reversed(envs) + [0] + aux
  }

  /** The lowest address the stack reaches. */
  function FinalSp(args: seq<seq<byte>>, envs: seq<seq<byte>>): int {
    AlignDown8(Below(Below(STACK_TOP, args), envs)) - 16 - 4 * 26 - 4 - 4 * |envs| - 4 - 4 * |args| - 4
  }

  /** `n` bytes of `s` from `from` on, at address `p`. */
  ghost predicate Copied(m: Mem, p: int, s: seq<byte>, from: nat, n: nat)
    requires from + n <= |s|
  {
    forall a :: p <= a < p + n ==> At(m, a) == s[from + (a - p)]
  }

  lemma CopiedMore(m: Mem, p: int, s: seq<byte>, from: nat, i: nat)
    requires from + i < |s| && Copied(m, p, s, from, i)
    ensures Copied(m[p + i := s[from + i]], p, s, from, i + 1)
  {
    hide At;
    var m' := m[p + i := s[from + i]];
    forall a | p <= a < p + i + 1 ensures At(m', a) == s[from + (a - p)] {
      SetAt(m, p + i, s[from + i], a);
    }
  }

  ghost predicate Filled(m: Mem, p: int, n: nat, x: int) {
    forall a :: p <= a < p + n ==> At(m, a) == x
  }

  lemma FilledMore(m: Mem, p: int, i: nat, x: int)
    requires Filled(m, p, i, x)
    ensures Filled(m[p + i := x], p, i + 1, x)
  {
    hide At;
    var m' := m[p + i := x];
    forall a | p <= a < p + i + 1 ensures At(m', a) == x {
      SetAt(m, p + i, x, a);
    }
  }

  /** Addresses a 32-bit word can hold. */
  predicate Word32(v: int) { 0 <= v < 0x1_0000_0000 }

  predicate Words32(ws: seq<int>) {
    forall i :: 0 <= i < |ws| ==> Word32(ws[i])
  }

  /** What an accepted image needs: headers inside the file, disjoint segments that stay off the
      stack page, and arguments that fit that page. */
  ghost predicate Loadable(elf: seq<byte>, args: seq<seq<byte>>, envs: seq<seq<byte>>) {
    && TableInside(elf) && WellFormed(elf) && FinalSp(args, envs) >= STACK_PAGE
    && forall i: nat :: Loads(elf, i) ==> OffStack(PhAt(elf, i))
  }

  predicate OffStack(ph: Phdr) {
    ph.vaddr + ph.memsz <= STACK_PAGE || ph.vaddr >= STACK_PAGE + 4096
  }

  lemma SegmentStays(elf: seq<byte>, m0: Mem, pages0: set<int>, m: Mem, m': Mem, ph: Phdr)
    requires SegmentOk(elf, ph) && Placed(m0, pages0, m, elf, ph) && OffStack(ph) && OnlyIn(m, m', STACK_PAGE, STACK_PAGE + 4096)
    ensures Placed(m0, pages0, m', elf, ph)
  {
    hide At, SegmentOk, PlacedByte;
    forall k | 0 <= k < ph.memsz ensures At(m', ph.vaddr + k) == PlacedByte(elf, ph, m0, pages0, k) {
      assert At(m, ph.vaddr + k) == PlacedByte(elf, ph, m0, pages0, k);
    }
  }

  /** The process image: every segment is placed; outside the segments and the stack page bytes are
      as before, or zero on pages mapped by the loader. */
  ghost predicate Image(elf: seq<byte>, m0: Mem, pages0: set<int>, m: Mem, pages: set<int>)
    requires TableInside(elf) && WellFormed(elf)
  {
    && pages == pages0 + SegPages(elf, PhNum(elf)) + {0xBFFFF}
    && (forall i: nat :: Loads(elf, i) ==> Placed(m0, pages0, m, elf, PhAt(elf, i)))
    && (forall a :: Outside(elf, PhNum(elf), a) && !(STACK_PAGE <= a < STACK_PAGE + 4096) ==> At(m, a) == if a / 4096 in pages && a / 4096 !in pages0 then 0 else At(m0, a))
  }

  lemma LoadsBelow(elf: seq<byte>, i: nat)
    requires TableInside(elf) && Loads(elf, i)
    ensures i < PhNum(elf)
  {
  }

  lemma ImageDone(elf: seq<byte>, args: seq<seq<byte>>, envs: seq<seq<byte>>, m0: Mem, pages0: set<int>, m: Mem, pages: set<int>, m': Mem)
    requires Loadable(elf, args, envs) && ImageUpTo(elf, PhNum(elf), m0, pages0, m, pages) && OnlyIn(m, m', STACK_PAGE, STACK_PAGE + 4096)
    ensures Image(elf, m0, pages0, m', pages + {0xBFFFF})
  {
    hide PhAt, SegmentOk, Placed, Outside, SegPages, PhNum, OffStack, At, FinalSp;
    forall i: nat | Loads(elf, i) ensures Placed(m0, pages0, m', elf, PhAt(elf, i)) {
      LoadsBelow(elf, i);
      SegmentStays(elf, m0, pages0, m, m', PhAt(elf, i));
    }
    forall a | Outside(elf, PhNum(elf), a) && !(STACK_PAGE <= a < STACK_PAGE + 4096)
      ensures At(m', a) == if a / 4096 in pages + {0xBFFFF} && a / 4096 !in pages0 then 0 else At(m0, a)
    {
      OffPage(a);
    }
  }

  /** A segment of a loaded image reads as its file bytes and zeros if and only if it is not at
      address 0, or what its pages held before is the same. */
  lemma SegmentLoaded(elf: seq<byte>, m0: Mem, pages0: set<int>, m: Mem, pages: set<int>, i: nat)
    requires TableInside(elf) && WellFormed(elf) && Image(elf, m0, pages0, m, pages) && Loads(elf, i)
    ensures SegmentOk(elf, PhAt(elf, i)) && (Loaded(m, elf, PhAt(elf, i)) <==> Copyable(elf, PhAt(elf, i), m0, pages0))
  {
    hide PhAt, Placed, SegPages, Outside, Copyable, Loaded;
    SegmentFits(elf, i);
    LoadedExactly(m0, pages0, m, elf, PhAt(elf, i));
  }

  /** A shared object of 84 bytes, headers only: its one segment is at address 0. */
  function NullByte(i: nat): byte {
    if i == 0 then 0x7F else if i == 1 then 0x45 else if i == 2 then 0x4C else if i == 3 then 0x46
    else if i == 4 || i == 5 || i == 6 || i == 20 || i == 44 || i == 52 then 1
    else if i == 16 then 3 else if i == 18 then 40 else if i == 42 then 32
    else if i == 28 || i == 40 then 52
    else if i == 68 || i == 72 then 84
    else if i == 76 then 5 else 0
  }

  function NullImage(): (elf: seq<byte>)
    ensures |elf| == 84 && forall i :: 0 <= i < 84 ==> elf[i] == NullByte(i)
  {
    seq(84, i requires 0 <= i < 84 => NullByte(i))
  }

  lemma NullWord(p: nat)
    requires p + 4 <= 84 && NullByte(p + 1) == NullByte(p + 2) == NullByte(p + 3) == 0
    ensures ReadU32(NullImage(), p) == NullByte(p)
  {
    hide NullImage, NullByte;
  }

  lemma NullHeaders()
    ensures var elf := NullImage(); |elf| == 84 && Accepted(elf) && TableInside(elf) && PhNum(elf) == 1
    ensures PhAt(NullImage(), 0) == Phdr(1, 0, 0, 84, 84, 5) && NullImage()[0] == 0x7F
  {
    NullWord(28);
    NullWord(52);
    NullWord(56);
    NullWord(60);
    NullWord(68);
    NullWord(72);
    NullWord(76);
    hide NullImage, ReadU32;
  }

  /** It is accepted and loadable, and a fresh process finds zeros in place of its bytes. */
  lemma NullSegment(m: Mem, pages: set<int>)
    ensures var elf := NullImage(); Accepted(elf) && Loadable(elf, [], []) && Loads(elf, 0) && SegmentOk(elf, PhAt(elf, 0))
    ensures Image(NullImage(), map[], {}, m, pages) ==> At(m, 0) == 0 != NullImage()[0] && !Loaded(m, NullImage(), PhAt(NullImage(), 0))
  {
    hide NullImage, Accepted;
    NullHeaders();
    var elf := NullImage();
    hide TableInside, PhOff, PhNum, PhAt;
    OneSegment(elf);
    if Image(elf, map[], {}, m, pages) {
      hide Loadable, WellFormed, Image, Placed, Loaded;
      FirstByte(elf, m, pages);
    }
  }

  lemma OneSegment(elf: seq<byte>)
    requires TableInside(elf) && PhNum(elf) == 1 && PhAt(elf, 0) == Phdr(1, 0, 0, 84, 84, 5) && |elf| == 84
    ensures Loadable(elf, [], []) && Loads(elf, 0) && SegmentOk(elf, PhAt(elf, 0))
  {
    hide PhOff, PhNum, PhAt;
  }

  lemma FirstByte(elf: seq<byte>, m: Mem, pages: set<int>)
    requires TableInside(elf) && WellFormed(elf) && Image(elf, map[], {}, m, pages) && Loads(elf, 0) && PhAt(elf, 0) == Phdr(1, 0, 0, 84, 84, 5)
    requires |elf| == 84 && elf[0] != 0 && SegmentOk(elf, PhAt(elf, 0))
    ensures At(m, 0) == 0 && !Loaded(m, elf, PhAt(elf, 0))
  {
    hide PhOff, PhNum, PhAt, SegPages, Outside, WellFormed, At;
    var ph := PhAt(elf, 0);
    assert Placed(map[], {}, m, elf, ph);
    assert At(m, ph.vaddr + 0) == PlacedByte(elf, ph, map[], {}, 0) == 0;
    assert SegByte(elf, ph, 0) == elf[0];
  }

  lemma OffPage(a: int)
    requires !(STACK_PAGE <= a < STACK_PAGE + 4096)
    ensures a / 4096 != 0xBFFFF
  {
  }

  // ----- in place -----

  /** The fields of a thread that loading sets, and its memory. */
  class Process {
    var mem: Mem
    var pages: set<int>
    var tlsBase: int
    var brkMin: int
    var brk: int
    var userSp: int

    /** `make_sure_user_space` as the process sees it. */
    method MakeSure(start: int, size: int)
      modifies `mem, `pages
      ensures mem == Mapped(old(mem), old(pages), start / 4096, (start + size + 4095) % 0x1_0000_0000 / 4096)
      ensures pages == old(pages) + PageSet(start / 4096, (start + size + 4095) % 0x1_0000_0000 / 4096)
    {
      var lo, hi := start / 4096, (start + size + 4095) % 0x1_0000_0000 / 4096;
      mem := Mapped(mem, pages, lo, hi);
      pages := pages + PageSet(lo, hi);
    }

    /** `memcpy` from the file or the kernel (lib/src/mem.c, lines 124-147): nothing at address 0. */
    method CopyIn(dest: int, s: seq<byte>, from: nat, n: nat)
      requires from + n <= |s|
      modifies `mem
      ensures OnlyIn(old(mem), mem, dest, dest + n)
      ensures if dest == 0 then mem == old(mem) else Copied(mem, dest, s, from, n)
    {
      if dest == 0 { return; }
      ghost var m := mem;
      for i := 0 to n
        invariant OnlyIn(m, mem, dest, dest + i)
        invariant Copied(mem, dest, s, from, i)
      {
        OnlySet(m, mem, dest, dest + i, s[from + i]);
        CopiedMore(mem, dest, s, from, i);
        mem := mem[dest + i := s[from + i]];
      }
    }

    /** `memset`. */
    method Fill(dest: int, n: nat, x: byte)
      modifies `mem
      ensures OnlyIn(old(mem), mem, dest, dest + n)
      ensures Filled(mem, dest, n, x)
    {
      ghost var m := mem;
      for i := 0 to n
        invariant OnlyIn(m, mem, dest, dest + i)
        invariant Filled(mem, dest, i, x)
      {
        OnlySet(m, mem, dest, dest + i, x);
        FilledMore(mem, dest, i, x);
        mem := mem[dest + i := x];
      }
    }

    /** Lines 52-62. */
    method LoadSegment(elf: seq<byte>, ph: Phdr)
      requires SegmentOk(elf, ph)
      modifies `mem, `pages
      ensures SegmentStep(elf, ph, old(mem), old(pages), mem)
      ensures pages == old(pages) + PageSet(FirstPage(ph), EndPage(ph))
    {
      hide *;
      ghost var m, ps := mem, pages;
      var vaStart := ph.vaddr - ph.vaddr % 4096;
      var up := (ph.vaddr + ph.memsz + 4095) % 0x1_0000_0000;
      var vaEnd := up - up % 4096;
      SegmentRange(elf, ph);
      SegmentBounds(elf, ph);
      MakeSure(vaStart, vaEnd - vaStart);
      CopyIn(ph.vaddr, elf, ph.offset, ph.filesz);
      ghost var m1 := mem;
      Fill(ph.vaddr + ph.filesz, ph.memsz - ph.filesz, 0);
      SegmentDone(elf, ph, m, ps, m1, mem);
    }

    lemma SegmentBounds(elf: seq<byte>, ph: Phdr)
      requires SegmentOk(elf, ph)
      ensures 0 <= ph.filesz <= ph.memsz && 0 <= ph.offset && ph.offset + ph.filesz <= |elf|
    {
    }

    lemma SegmentDone(elf: seq<byte>, ph: Phdr, m: Mem, ps: set<int>, m1: Mem, m': Mem)
      requires SegmentOk(elf, ph)
      requires if ph.vaddr == 0 then m1 == Mapped(m, ps, FirstPage(ph), EndPage(ph)) else Copied(m1, ph.vaddr, elf, ph.offset, ph.filesz)
      requires OnlyIn(m1, m', ph.vaddr + ph.filesz, ph.vaddr + ph.memsz)
      requires Filled(m', ph.vaddr + ph.filesz, ph.memsz - ph.filesz, 0)
      requires OnlyIn(Mapped(m, ps, FirstPage(ph), EndPage(ph)), m1, ph.vaddr, ph.vaddr + ph.filesz)
      ensures SegmentStep(elf, ph, m, ps, m')
    {
      hide Mapped, FirstPage, EndPage, At;
      forall k | 0 <= k < ph.memsz ensures At(m', ph.vaddr + k) == PlacedByte(elf, ph, m, ps, k) {
        SegmentPage(elf, ph, ph.vaddr + k);
      }
    }

    lemma SegmentRange(elf: seq<byte>, ph: Phdr)
      requires SegmentOk(elf, ph)
      ensures var start, up := ph.vaddr - ph.vaddr % 4096, (ph.vaddr + ph.memsz + 4095) % 0x1_0000_0000; start / 4096 == FirstPage(ph) && (start + (up - up % 4096 - start) + 4095) % 0x1_0000_0000 / 4096 == EndPage(ph)
    {
      var up := (ph.vaddr + ph.memsz + 4095) % 0x1_0000_0000;
      assert up == ph.vaddr + ph.memsz + 4095;
      var q := up / 4096;
      assert up - up % 4096 == 4096 * q;
      assert 4096 * q + 4095 < 0x1_0000_0000;
      assert (4096 * q + 4095) / 4096 == q;
    }

    /** Lines 45-69. */
    method LoadSegments(elf: seq<byte>) returns (maxRwEnd: int)
      requires TableInside(elf) && WellFormed(elf)
      modifies `mem, `pages
      ensures ImageUpTo(elf, PhNum(elf), old(mem), old(pages), mem, pages)
      ensures maxRwEnd == RwEnd(elf, PhNum(elf))
    {
      hide PhAt, WellFormed, ImageUpTo, SegmentOk, FirstPage, EndPage, SegmentStep, PhNum, PhOff;
      ghost var m0, ps0 := mem, pages;
      maxRwEnd := 0;
      ImageNone(elf, m0, ps0);
      for i := 0 to PhNum(elf)
        invariant ImageUpTo(elf, i, m0, ps0, mem, pages) && maxRwEnd == RwEnd(elf, i)
      {
        var ph := PhAt(elf, i);
        if ph.kind != 1 {
          ImageSkip(elf, i, m0, ps0, mem, pages);
        } else {
          ghost var m, ps := mem, pages;
          SegmentFine(elf, i);
          LoadSegment(elf, ph);
          ImageNext(elf, i, m0, ps0, m, ps, mem);
          if ph.flags / 2 % 2 == 1 && ph.vaddr + ph.memsz > maxRwEnd { maxRwEnd := ph.vaddr + ph.memsz; }
        }
      }
    }

    lemma SegmentFine(elf: seq<byte>, i: nat)
      requires TableInside(elf) && WellFormed(elf) && i < PhNum(elf) && PhAt(elf, i).kind == 1
      ensures Loads(elf, i) && SegmentOk(elf, PhAt(elf, i))
    {
      hide PhAt, SegmentOk;
    }

    lemma ImageNone(elf: seq<byte>, m: Mem, ps: set<int>)
      requires TableInside(elf) && WellFormed(elf)
      ensures ImageUpTo(elf, 0, m, ps, m, ps) && RwEnd(elf, 0) == 0
    {
      hide PhAt, SegmentOk;
    }

    // ----- the first stack -----

    /** `PUSH`. */
    method Push(sp: int, v: int, ghost ws: seq<int>) returns (below: int)
      requires Word32(v) && WordsAt(mem, sp, ws)
      modifies `mem
      ensures below == sp - 4 && OnlyIn(old(mem), mem, below, sp) && WordsAt(mem, below, [v] + ws)
    {
      below := sp - 4;
      PutGet(mem, below, v);
      WordsPush(mem, sp, ws, v);
      mem := PutWord(mem, below, v);
    }

    /** Lines 106-110: a string with its NUL below `sp`. */
    method PutString(sp: int, s: seq<byte>) returns (p: int)
      requires AlignDown8(sp - (|s| + 1)) > 0
      modifies `mem
      ensures p == AlignDown8(sp - (|s| + 1)) && StrAt(mem, p, s) && OnlyIn(old(mem), mem, p, sp)
    {
      p := AlignDown8(sp - (|s| + 1));
      var z: seq<byte> := [0];
      CopyIn(p, s + z, 0, |s| + 1);
      StringIs(mem, p, s, s + z);
    }

    static lemma StringIs(m: Mem, p: int, s: seq<byte>, t: seq<byte>)
      requires |t| == |s| + 1 && t[..|s|] == s && t[|s|] == 0 && Copied(m, p, t, 0, |s| + 1)
      ensures StrAt(m, p, s)
    {
      hide At;
      forall k | 0 <= k < |s| ensures At(m, p + k) == s[k] { assert t[..|s|][k] == t[k]; }
    }

    /** Lines 103-112 and 123-132: the strings downwards, their addresses into the pointer array. */
    method PutStrings(top: int, ss: seq<seq<byte>>, ptrs: array<int>) returns (sp: int)
      requires ptrs.Length == |ss| && Below(top, ss) > 0
      modifies `mem, ptrs
      ensures sp == Below(top, ss) && OnlyIn(old(mem), mem, sp, top) && StringsAt(mem, ptrs[..], ss, sp, top)
    {
      hide *;
      ghost var m := mem;
      sp := top;
      NoStrings(m, top, ss, ptrs[..0]);
      for i := 0 to |ss|
        invariant sp == Below(top, ss[..i]) && sp <= top && OnlyIn(m, mem, sp, top)
        invariant StringsAt(mem, ptrs[..i], ss[..i], sp, top)
      {
        ghost var m1, was := mem, ptrs[..i];
        BelowNext(top, ss, i);
        BelowPrefix(top, ss, i + 1);
        var p := PutString(sp, ss[i]);
        OnlyTrans(m, m1, mem, p, sp, top);
        StringsMore(m1, mem, was, ss, i, p, sp, top);
        ptrs[i] := p;
        sp := p;
        assert ptrs[..i + 1] == was + [p];
      }
      assert ss[..|ss|] == ss && ptrs[..|ss|] == ptrs[..];
    }

    static lemma NoStrings(m: Mem, top: int, ss: seq<seq<byte>>, ps: seq<int>)
      requires ps == []
      ensures Below(top, ss[..0]) == top && OnlyIn(m, m, top, top) && StringsAt(m, ps, ss[..0], top, top)
    {
    }

    static lemma StringsMore(m: Mem, m': Mem, ps: seq<int>, ss: seq<seq<byte>>, i: nat, p: int, sp: int, top: int)
      requires i < |ss| && StringsAt(m, ps, ss[..i], sp, top) && OnlyIn(m, m', p, sp) && p == AlignDown8(sp - (|ss[i]| + 1)) && sp <= top
      requires StrAt(m', p, ss[i])
      ensures StringsAt(m', ps + [p], ss[..i + 1], p, top)
    {
      hide StrAt;
      forall k | 0 <= k < i + 1 ensures p <= (ps + [p])[k] < top && StrAt(m', (ps + [p])[k], ss[..i + 1][k]) {
        if k < i { StrKept(m, m', p, sp, ps[k], ss[k]); }
      }
    }

    /** Lines 115-120: the pointers reversed in place. */
    static method Reverse(a: array<int>)
      modifies a
      ensures a[..] == Reversed(old(a[..]))
    {
      var n := a.Length;
      for i := 0 to n / 2
        invariant forall k :: 0 <= k < i ==> a[k] == old(a[n - 1 - k]) && a[n - 1 - k] == old(a[k])
        invariant forall k :: i <= k < n - i ==> a[k] == old(a[k])
      {
        a[i], a[n - 1 - i] := a[n - 1 - i], a[i];
      }
    }

    /** Lines 182-185 and 188-191: the pointers pushed from the first to the last. */
    method PushAll(top: int, ptrs: array<int>, ghost ws: seq<int>) returns (sp: int)
      requires WordsAt(mem, top, ws) && Words32(ptrs[..])
      modifies `mem
      ensures sp == top - 4 * ptrs.Length && OnlyIn(old(mem), mem, sp, top) && WordsAt(mem, sp, Reversed(ptrs[..]) + ws)
    {
      hide WordsAt, Reversed, Words32, OnlyIn;
      ghost var m, all := mem, ptrs[..];
      sp := top;
      ReversedNone(all, ws);
      OnlyNone(mem, top);
      for i := 0 to ptrs.Length
        invariant sp == top - 4 * i && OnlyIn(m, mem, sp, top) && WordsAt(mem, sp, Reversed(all[..i]) + ws)
      {
        ghost var m1 := mem;
        ReversedMore(all, i, ws);
        WordIn(all, i);
        sp := Push(sp, ptrs[i], Reversed(all[..i]) + ws);
        OnlyTrans(m, m1, mem, sp, sp + 4, top);
      }
      assert all[..|all|] == all;
    }

    static lemma OnlyNone(m: Mem, top: int)
      ensures OnlyIn(m, m, top, top)
    {
    }

    static lemma WordIn(ws: seq<int>, i: nat)
      requires Words32(ws) && i < |ws|
      ensures Word32(ws[i])
    {
    }

    static lemma ReversedNone(all: seq<int>, ws: seq<int>)
      ensures Reversed(all[..0]) + ws == ws
    {
    }

    static lemma ReversedMore(all: seq<int>, i: nat, ws: seq<int>)
      requires i < |all|
      ensures [all[i]] + (Reversed(all[..i]) + ws) == Reversed(all[..i + 1]) + ws
    {
      assert Reversed(all[..i + 1]) == [all[i]] + Reversed(all[..i]);
    }

    /** Lines 140-179: the auxiliary vector, last pair first. */
    method PushAux(top: int, elf: seq<byte>, tableVa: int, random: int) returns (sp: int)
      requires |elf| >= 52 && Word32(tableVa) && Word32(random)
      modifies `mem
      ensures sp == top - 4 * 26 && OnlyIn(old(mem), mem, sp, top) && WordsAt(mem, sp, Auxv(elf, tableVa, random))
    {
      hide WordsAt, OnlyIn, PhNum, Entry;
      ghost var m := mem;
      var aux := Auxv(elf, tableVa, random);
      sp := top;
      OnlyNone(mem, top);
      NoWords(mem, top);
      AuxWords(elf, tableVa, random);
      assert aux[26..] == [];
      var i := 26;
      while i > 0
        invariant 0 <= i <= 26 && sp == top - 4 * (26 - i) && OnlyIn(m, mem, sp, top) && WordsAt(mem, sp, aux[i..])
      {
        ghost var m1 := mem;
        i := i - 1;
        WordIn(aux, i);
        assert [aux[i]] + aux[i + 1..] == aux[i..];
        sp := Push(sp, aux[i], aux[i + 1..]);
        OnlyTrans(m, m1, mem, sp, sp + 4, top);
      }
      assert aux[0..] == aux;
    }

    static lemma NoWords(m: Mem, p: int)
      ensures WordsAt(m, p, [])
    {
    }

    static lemma AuxWords(elf: seq<byte>, tableVa: int, random: int)
      requires |elf| >= 52 && Word32(tableVa) && Word32(random)
      ensures Words32(Auxv(elf, tableVa, random))
    {
    }

    // ----- the whole loader -----

    /** Lines 84-94. */
    method FindTable(elf: seq<byte>) returns (va: int)
      requires TableInside(elf)
      ensures va == TableVa(elf, 0)
    {
      hide PhAt, PhOff, PhNum;
      var i := 0;
      while i < PhNum(elf)
        invariant i <= PhNum(elf) && TableVa(elf, i) == TableVa(elf, 0)
        decreases PhNum(elf) - i
      {
        var ph := PhAt(elf, i);
        if ph.kind == 1 && PhOff(elf) >= ph.offset && PhOff(elf) < ph.offset + ph.filesz {
          return (ph.vaddr + (PhOff(elf) - ph.offset)) % 0x1_0000_0000;
        }
        i := i + 1;
      }
      va := 0;
    }

    /** What the first stack looks like: the argument count, the argument pointers in their original
        order, the environment pointers in reverse, the auxiliary vector; behind the pointers the strings. */
    ghost predicate StackOk(elf: seq<byte>, tableVa: int, args: seq<seq<byte>>, envs: seq<seq<byte>>, ps: seq<int>, qs: seq<int>, random: int)
      requires |elf| >= 52
      reads this
    {
      && userSp == FinalSp(args, envs) && StringsAt(mem, ps, args, userSp, STACK_TOP) && StringsAt(mem, qs, envs, userSp, STACK_TOP)
      && WordsAt(mem, userSp, StackWords(ps, qs, Auxv(elf, tableVa, random))) && Filled(mem, random, 16, 0x11)
    }

    static lemma StringsKept(m: Mem, m': Mem, ps: seq<int>, ss: seq<seq<byte>>, low: int, lo: int, hi: int)
      requires StringsAt(m, ps, ss, lo, hi) && OnlyIn(m, m', low, lo)
      ensures StringsAt(m', ps, ss, lo, hi)
    {
      hide StrAt, OnlyIn;
      forall i | 0 <= i < |ps| ensures StrAt(m', ps[i], ss[i]) { StrKept(m, m', low, lo, ps[i], ss[i]); }
    }

    static lemma StringsWiden(m: Mem, ps: seq<int>, ss: seq<seq<byte>>, lo: int, hi: int, lo': int, hi': int)
      requires StringsAt(m, ps, ss, lo, hi) && lo' <= lo && hi <= hi'
      ensures StringsAt(m, ps, ss, lo', hi')
    {
    }

    static lemma Pointers(m: Mem, ps: seq<int>, ss: seq<seq<byte>>, lo: int, hi: int)
      requires StringsAt(m, ps, ss, lo, hi) && 0 <= lo && hi <= 0x1_0000_0000
      ensures |ps| == |ss| && Words32(ps) && Words32(Reversed(ps)) && Reversed(Reversed(ps)) == ps
    {
    }

    static lemma FilledKept(m: Mem, m': Mem, low: int, p: int, n: nat, x: int)
      requires Filled(m, p, n, x) && OnlyIn(m, m', low, p)
      ensures Filled(m', p, n, x)
    {
    }

    static lemma Room(args: seq<seq<byte>>, envs: seq<seq<byte>>)
      requires FinalSp(args, envs) >= STACK_PAGE
      ensures STACK_PAGE <= Below(Below(STACK_TOP, args), envs) <= Below(STACK_TOP, args) <= STACK_TOP
      ensures |args| < 4096 && |envs| < 4096
      ensures STACK_PAGE <= AlignDown8(Below(Below(STACK_TOP, args), envs)) - 16 <= Below(Below(STACK_TOP, args), envs) - 16
    {
      hide Below;
    }

    /** Lines 134-193: below the strings, everything the words need. */
    method PushWords(top: int, elf: seq<byte>, tableVa: int, argv: array<int>, envp: array<int>) returns (sp: int, random: int)
      requires |elf| >= 52 && Word32(tableVa) && Word32(top - 8 - 16) && top < 0x1_0000_0000
      requires Words32(argv[..]) && Words32(envp[..]) && argv.Length < 4096
      modifies `mem
      ensures sp == AlignDown8(top) - 16 - 4 * 26 - 4 - 4 * envp.Length - 4 - 4 * argv.Length - 4 && OnlyIn(old(mem), mem, sp, top)
      ensures WordsAt(mem, sp, StackWords(Reversed(argv[..]), envp[..], Auxv(elf, tableVa, random))) && Filled(mem, random, 16, 0x11)
    {
      hide WordsAt, OnlyIn, PhNum, Entry, Auxv, Reversed, Words32, Filled;
      ghost var m := mem;
      sp := AlignDown8(top) - 16;
      Fill(sp, 16, 0x11);
      random := sp;
      ghost var m1 := mem;
      sp := PushAux(sp, elf, tableVa, random);
      ghost var aux := Auxv(elf, tableVa, random);
      ghost var m2 := mem;
      sp := Push(sp, 0, aux);
      ghost var m3 := mem;
      sp := PushAll(sp, envp, [0] + aux);
      ghost var m4 := mem;
      sp := Push(sp, 0, Reversed(envp[..]) + ([0] + aux));
      ghost var m5, ws := mem, [0] + (Reversed(envp[..]) + ([0] + aux));
      sp := PushAll(sp, argv, ws);
      ghost var m6 := mem;
      sp := Push(sp, argv.Length, Reversed(argv[..]) + ws);
      WordsJoin(Reversed(argv[..]), envp[..], aux);
      SpanAll(m, m1, m2, m3, m4, m5, m6, mem, top, sp, random, argv.Length, envp.Length);
    }

    static lemma WordsJoin(ps: seq<int>, qs: seq<int>, aux: seq<int>)
      ensures [|ps|] + (ps + ([0] + (Reversed(qs) + ([0] + aux)))) == StackWords(ps, qs, aux)
    {
    }

    static lemma SpanAll(m: Mem, m1: Mem, m2: Mem, m3: Mem, m4: Mem, m5: Mem, m6: Mem, m7: Mem, top: int, sp: int, random: int, n: nat, k: nat)
      requires random == AlignDown8(top) - 16 && sp == random - 104 - 4 - 4 * k - 4 - 4 * n - 4
      requires OnlyIn(m, m1, random, random + 16) && OnlyIn(m1, m2, random - 104, random) && OnlyIn(m2, m3, random - 108, random - 104)
      requires OnlyIn(m3, m4, random - 108 - 4 * k, random - 108) && OnlyIn(m4, m5, random - 112 - 4 * k, random - 108 - 4 * k)
      requires OnlyIn(m5, m6, sp + 4, random - 112 - 4 * k) && OnlyIn(m6, m7, sp, sp + 4) && Filled(m1, random, 16, 0x11)
      ensures OnlyIn(m, m7, sp, top) && Filled(m7, random, 16, 0x11)
    {
      hide Filled;
      OnlyTrans(m5, m6, m7, sp, sp + 4, random - 112 - 4 * k);
      OnlyTrans(m4, m5, m7, sp, random - 112 - 4 * k, random - 108 - 4 * k);
      OnlyTrans(m3, m4, m7, sp, random - 108 - 4 * k, random - 108);
      OnlyTrans(m2, m3, m7, sp, random - 108, random - 104);
      OnlyTrans(m1, m2, m7, sp, random - 104, random);
      OnlyTrans(m, m1, m7, sp, random, random + 16);
      FilledKept(m1, m7, sp, random, 16, 0x11);
      OnlyWiden(m, m7, sp, random + 16, top);
    }

    static lemma OnlyWiden(m: Mem, m': Mem, lo: int, hi: int, hi': int)
      requires OnlyIn(m, m', lo, hi) && hi <= hi'
      ensures OnlyIn(m, m', lo, hi')
    {
    }

    /** Lines 96-195. */
    method BuildStack(elf: seq<byte>, tableVa: int, args: seq<seq<byte>>, argv: array<int>, envs: seq<seq<byte>>, envp: array<int>) returns (ghost random: int)
      requires |elf| >= 52 && Word32(tableVa) && argv.Length == |args| && envp.Length == |envs| && argv != envp
      requires FinalSp(args, envs) >= STACK_PAGE
      modifies `mem, `userSp, argv, envp
      ensures OnlyIn(old(mem), mem, userSp, STACK_TOP)
      ensures StackOk(elf, tableVa, args, envs, Reversed(argv[..]), envp[..], random)
    {
      hide WordsAt, OnlyIn, PhNum, Entry, Auxv, Reversed, Words32, Filled, StringsAt, Below;
      ghost var m := mem;
      Room(args, envs);
      var sp := PutStrings(STACK_TOP, args, argv);
      ghost var m1, ps, sp1 := mem, argv[..], sp;
      Pointers(mem, ps, args, sp, STACK_TOP);
      Reverse(argv);
      sp := PutStrings(sp, envs, envp);
      ghost var m2, qs, sp2 := mem, envp[..], sp;
      Pointers(mem, qs, envs, sp, sp1);
      var r;
      sp, r := PushWords(sp, elf, tableVa, argv, envp);
      userSp := sp;
      random := r;
      StringsKept(m1, m2, ps, args, sp2, sp1, STACK_TOP);
      StringsWiden(m2, ps, args, sp1, STACK_TOP, sp2, STACK_TOP);
      StringsKept(m2, mem, ps, args, sp, sp2, STACK_TOP);
      StringsKept(m2, mem, qs, envs, sp, sp2, sp1);
      StringsWiden(mem, ps, args, sp2, STACK_TOP, sp, STACK_TOP);
      StringsWiden(mem, qs, envs, sp2, sp1, sp, STACK_TOP);
      OnlyTrans(m, m1, m2, sp2, sp1, STACK_TOP);
      OnlyTrans(m, m2, mem, sp, sp2, STACK_TOP);
    }

    /** Lines 77-78: the stack page, mapped and cleared. */
    method ClearStackPage()
      modifies `mem, `pages
      ensures OnlyIn(old(mem), mem, STACK_PAGE, STACK_PAGE + 4096) && pages == old(pages) + {0xBFFFF}
    {
      ghost var m := mem;
      MakeSure(STACK_PAGE, 4096);
      ghost var m1 := mem;
      OnlyStack(m, old(pages), m1);
      assert PageSet(0xBFFFF, 0xC0000) == {0xBFFFF};
      Fill(STACK_PAGE, 4096, 0);
      OnlySame(m, m1, mem, STACK_PAGE, STACK_PAGE + 4096);
    }

    static lemma OnlyStack(m: Mem, pages: set<int>, m': Mem)
      requires m' == Mapped(m, pages, 0xBFFFF, 0xC0000)
      ensures OnlyIn(m, m', STACK_PAGE, STACK_PAGE + 4096)
    {
    }

    static lemma OnlySame(a: Mem, b: Mem, c: Mem, lo: int, hi: int)
      requires OnlyIn(a, b, lo, hi) && OnlyIn(b, c, lo, hi)
      ensures OnlyIn(a, c, lo, hi)
    {
    }

    /** `load_elf`. */
    method LoadElf(elf: seq<byte>, args: seq<seq<byte>>, argv: array<int>, envs: seq<seq<byte>>, envp: array<int>) returns (entry: int, ghost random: int)
      requires |elf| >= 52 && (Accepted(elf) ==> Loadable(elf, args, envs))
      requires argv.Length == |args| && envp.Length == |envs| && argv != envp
      modifies `mem, `pages, `tlsBase, `brkMin, `brk, `userSp, argv, envp
      ensures !Accepted(elf) ==> entry == ELF_ERR && mem == old(mem) && pages == old(pages) && userSp == old(userSp) && brk == brkMin == 0
      ensures tlsBase == 0
      ensures Accepted(elf) ==> entry == Entry(elf) && Image(elf, old(mem), old(pages), mem, pages)
      ensures Accepted(elf) ==> forall h: ElfFormat.Header :: |h.ident| == 16 && ElfFormat.HeaderBytes(h) <= elf ==> entry == h.entry
      ensures Accepted(elf) ==> StackOk(elf, TableVa(elf, 0), args, envs, Reversed(argv[..]), envp[..], random)
      ensures Accepted(elf) ==> brk == brkMin && brk % 4096 == 0 && RwEnd(elf, PhNum(elf)) <= brk < RwEnd(elf, PhNum(elf)) + 4096
    {
      hide Loadable, WellFormed, PhNum, PhOff, PhAt, Image, ImageUpTo, StackOk, FinalSp, RwEnd, TableVa, OnlyIn, Reversed, Entry;
      tlsBase, brkMin, brk := 0, 0, 0;
      random := 0;
      if !(elf[0] == 0x7F && elf[1] == 'E' as int && elf[2] == 'L' as int && elf[3] == 'F' as int) { return ELF_ERR, 0; }
      if elf[4] != 1 || elf[5] != 1 || U16At(elf, 18) != 40 || PhOff(elf) == 0 || PhNum(elf) == 0 { return ELF_ERR, 0; }
      IsLoadable(elf, args, envs);
      ghost var m0, ps0 := mem, pages;
      var maxRwEnd := LoadSegments(elf);
      ghost var m1, ps1 := mem, pages;
      BreakAbove(elf, PhNum(elf), 0);
      brkMin := (maxRwEnd + 4095) % 0x1_0000_0000;
      brkMin := brkMin - brkMin % 4096;
      brk := brkMin;
      ClearStackPage();
      ghost var m2 := mem;
      var tableVa := FindTable(elf);
      TableWord(elf, 0);
      random := BuildStack(elf, tableVa, args, argv, envs, envp);
      SpOf(elf, tableVa, args, envs, Reversed(argv[..]), envp[..], random);
      OnlyNarrow(m2, mem, userSp, STACK_TOP);
      OnlySame(m1, m2, mem, STACK_PAGE, STACK_PAGE + 4096);
      ImageDone(elf, args, envs, m0, ps0, m1, ps1, mem);
      entry := Entry(elf);
      EntryField(elf);
    }

    /** The entry point is the one of the file header the image starts with. */
    static lemma EntryField(elf: seq<byte>)
      requires |elf| >= 52
      ensures forall h: ElfFormat.Header :: |h.ident| == 16 && ElfFormat.HeaderBytes(h) <= elf ==> Entry(elf) == h.entry
    {
      forall h: ElfFormat.Header | |h.ident| == 16 && ElfFormat.HeaderBytes(h) <= elf ensures Entry(elf) == h.entry {
        hide *;
        ElfFormat.HeaderReads(h, elf);
      }
    }

    lemma SpOf(elf: seq<byte>, tableVa: int, args: seq<seq<byte>>, envs: seq<seq<byte>>, ps: seq<int>, qs: seq<int>, random: int)
      requires |elf| >= 52 && StackOk(elf, tableVa, args, envs, ps, qs, random)
      ensures userSp == FinalSp(args, envs)
    {
      hide FinalSp, WordsAt, StringsAt, Filled;
    }

    static lemma IsLoadable(elf: seq<byte>, args: seq<seq<byte>>, envs: seq<seq<byte>>)
      requires Loadable(elf, args, envs)
      ensures TableInside(elf) && WellFormed(elf) && FinalSp(args, envs) >= STACK_PAGE
    {
    }

    static lemma {:induction false} TableWord(elf: seq<byte>, i: nat)
      requires TableInside(elf) && i <= PhNum(elf)
      ensures Word32(TableVa(elf, i))
      decreases PhNum(elf) - i
    {
      hide PhAt, PhOff, ShowsTable;
      if i < PhNum(elf) { TableWord(elf, i + 1); }
    }

    static lemma OnlyNarrow(m: Mem, m': Mem, sp: int, top: int)
      requires OnlyIn(m, m', sp, top) && sp >= STACK_PAGE && top <= STACK_PAGE + 4096
      ensures OnlyIn(m, m', STACK_PAGE, STACK_PAGE + 4096)
    {
    }
  }
}
