// A process's memory and the page tables behind it: the byte memory the loader works on
// (final/src/elf.c) is what the tables of final/src/vm.c show, and stays so when
// `make_sure_user_space` maps more of it.
module ProcessView {
  import opened Arenas
  import opened Blocks
  import opened Frames
  import opened PageTables
  import opened Spaces
  import opened UserSpace
  import opened UserMap
  import LinkedList
  import UserMemory

  /** The byte at physical address `p`: words are little-endian. */
  function ByteAt(m: LinkedList.Mem, p: int): int {
    var w := LinkedList.Rd(m, p - p % 4);
    match p % 4
    case 0 => w % 0x100
    case 1 => w / 0x100 % 0x100
    case 2 => w / 0x1_0000 % 0x100
    case _ => w / 0x100_0000 % 0x100
  }

  /** The physical address of byte `a` of a mapped page. */
  function Physical(m: LinkedList.Mem, l1: int, a: nat): int {
    Pa(View(m, l1, a / 4096)) + a % 4096
  }

  /** The tables map exactly the pages `pages`, as small pages, and show the bytes `um` there. */
  ghost predicate Shows(m: LinkedList.Mem, l1: int, um: UserMemory.Mem, pages: set<int>) {
    && (forall v: nat :: if v in pages then Small(View(m, l1, v)) else Kind(View(m, l1, v)) == 0)
    && (forall a: nat :: a / 4096 in pages ==> UserMemory.At(um, a) == ByteAt(m, Physical(m, l1, a)))
  }

  /** An aligned word of the process's view is the word of memory behind it. */
  lemma ViewWord(m: LinkedList.Mem, l1: int, um: UserMemory.Mem, pages: set<int>, a: nat)
    requires Shows(m, l1, um, pages) && a % 4 == 0 && a / 4096 in pages && 0 <= LinkedList.Rd(m, Physical(m, l1, a)) < 0x1_0000_0000
    ensures UserMemory.Word(um, a) == LinkedList.Rd(m, Physical(m, l1, a))
  {
    hide View, Pa, Small, Kind, ByteAt, UserMemory.At;
    var p := Physical(m, l1, a);
    PhysicalAligned(m, l1, a);
    NextByte(m, l1, um, pages, a, 0);
    NextByte(m, l1, um, pages, a, 1);
    NextByte(m, l1, um, pages, a, 2);
    NextByte(m, l1, um, pages, a, 3);
    FourBytes(m, p);
  }

  lemma PhysicalAligned(m: LinkedList.Mem, l1: int, a: nat)
    requires a % 4 == 0
    ensures Physical(m, l1, a) % 4 == 0
  {
    hide View, Pa;
    PaAligned(View(m, l1, a / 4096));
    Multiples(Pa(View(m, l1, a / 4096)), a);
  }

  lemma Multiples(x: int, a: nat)
    requires x % 4096 == 0 && a % 4 == 0
    ensures (x + a % 4096) % 4 == 0
  {
    var k, q, l := x / 4096, a / 4096, a / 4;
    assert x == 4096 * k && a % 4096 == a - 4096 * q && a == 4 * l;
    FourTimes(1024 * k + l - 1024 * q);
  }

  lemma FourTimes(n: int)
    ensures 4 * n % 4 == 0
  {
  }

  lemma NextByte(m: LinkedList.Mem, l1: int, um: UserMemory.Mem, pages: set<int>, a: nat, j: nat)
    requires Shows(m, l1, um, pages) && a % 4 == 0 && a / 4096 in pages && j < 4
    ensures UserMemory.At(um, a + j) == ByteAt(m, Physical(m, l1, a) + j)
  {
    hide View, Pa, Small, Kind, ByteAt, UserMemory.At;
    SamePageOf(a, j);
  }

  lemma SamePageOf(a: nat, j: nat)
    requires a % 4 == 0 && j < 4
    ensures (a + j) / 4096 == a / 4096 && (a + j) % 4096 == a % 4096 + j
  {
    var q, l := a / 4096, a / 4;
    assert a == 4096 * q + a % 4096 && a == 4 * l;
    assert a % 4096 == 4 * (l - 1024 * q);
    PageAndRest(q, a % 4096 + j);
  }

  lemma PageAndRest(q: int, r: int)
    requires 0 <= r < 4096
    ensures (4096 * q + r) / 4096 == q && (4096 * q + r) % 4096 == r
  {
  }

  lemma FourBytes(m: LinkedList.Mem, p: int)
    requires p % 4 == 0 && 0 <= LinkedList.Rd(m, p) < 0x1_0000_0000
    ensures ByteAt(m, p) + 0x100 * ByteAt(m, p + 1) + 0x1_0000 * ByteAt(m, p + 2) + 0x100_0000 * ByteAt(m, p + 3) == LinkedList.Rd(m, p)
  {
    var w := LinkedList.Rd(m, p);
    hide ByteAt;
    ByteOf(m, p, 0);
    ByteOf(m, p, 1);
    ByteOf(m, p, 2);
    ByteOf(m, p, 3);
    Digits(w);
  }

  lemma ByteOf(m: LinkedList.Mem, p: int, j: nat)
    requires p % 4 == 0 && j < 4
    ensures var w := LinkedList.Rd(m, p); ByteAt(m, p + j) == if j == 0 then w % 0x100 else if j == 1 then w / 0x100 % 0x100 else if j == 2 then w / 0x1_0000 % 0x100 else w / 0x100_0000 % 0x100
  {
    assert (p + j) % 4 == j;
  }

  lemma Digits(w: int)
    requires 0 <= w < 0x1_0000_0000
    ensures w % 0x100 + 0x100 * (w / 0x100 % 0x100) + 0x1_0000 * (w / 0x1_0000 % 0x100) + 0x100_0000 * (w / 0x100_0000 % 0x100) == w
  {
    var q, r, s := w / 0x100, w / 0x1_0000, w / 0x100_0000;
    assert w == 0x100 * q + w % 0x100 && q == 0x100 * r + q % 0x100 && r == 0x100 * s + r % 0x100 && s % 0x100 == s;
  }

  lemma SamePageByte(m: LinkedList.Mem, m': LinkedList.Mem, p: int, q: int, o: nat)
    requires SamePage(m, m', p, q) && p % 4096 == 0 == q % 4096 && o < 4096
    ensures ByteAt(m', q + o) == ByteAt(m, p + o)
  {
    WordOf(p, o);
    WordOf(q, o);
    assert LinkedList.Rd(m', q + 4 * (o / 4)) == LinkedList.Rd(m, p + 4 * (o / 4));
  }

  lemma WordOf(p: int, o: nat)
    requires p % 4096 == 0
    ensures (p + o) % 4 == o % 4 && p + o - (p + o) % 4 == p + 4 * (o / 4)
  {
    var k := p / 4096;
    assert p + o == 4 * (1024 * k + o / 4) + o % 4;
  }

  lemma ZeroPageByte(m: LinkedList.Mem, p: int, o: nat)
    requires ZeroPage(m, p) && p % 4096 == 0 && o < 4096
    ensures ByteAt(m, p + o) == 0
  {
    WordOf(p, o);
    assert LinkedList.Rd(m, p + 4 * (o / 4)) == 0;
  }

  lemma PaAligned(e: int)
    ensures Pa(e) % 4096 == 0
  {
    var k := e / 4096;
    assert e - e % 4096 == 4096 * k;
  }

  /** Page `v` before and after: it keeps its bytes, or is new and zero. */
  lemma PageAfter(st0: State, st: State, l1: int, lo: nat, hi: nat, rows: set<nat>, pages: set<int>, v: nat)
    requires Inv(st0) && Space(st0, l1) && Mapped(st0, st, l1, lo, hi, rows)
    requires if v in pages then Small(View(st0.words, l1, v)) else Kind(View(st0.words, l1, v)) == 0
    ensures var e, e' := View(st0.words, l1, v), View(st.words, l1, v); v in pages ==> Small(e') && Pa(e') == Pa(e) && SamePage(st0.words, st.words, Pa(e), Pa(e'))
    ensures var e' := View(st.words, l1, v); v !in pages && lo <= v < hi ==> Small(e') && ZeroPage(st.words, Pa(e'))
    ensures var e' := View(st.words, l1, v); v !in pages && !(lo <= v < hi) ==> Kind(e') == 0
  {
    MappedPieces(st0, st, l1, lo, hi, rows);
    hide Inv, Space, Mapped, PagesSpared, SamePage, ZeroPage, View, Pa, Small, Kind;
    if lo <= v < hi {
      MappedPage(st0, st, l1, lo, hi, rows, v);
    } else {
      if v in pages { KeptPage(st0, st, l1, v); }
    }
  }

  lemma MappedPieces(st0: State, st: State, l1: int, lo: nat, hi: nat, rows: set<nat>)
    requires Mapped(st0, st, l1, lo, hi, rows)
    ensures PagesSpared(st0, st, l1) && ViewsMapped(st0, st, l1, lo, hi)
  {
  }

  /** Mapping a range through the tables is mapping it in the process's own view: what the loader
      assumes of `make_sure_user_space` is what it does. */
  lemma MappingRefines(st0: State, st: State, l1: int, lo: nat, hi: nat, rows: set<nat>, um: UserMemory.Mem, pages: set<int>)
    requires Inv(st0) && Space(st0, l1) && Mapped(st0, st, l1, lo, hi, rows) && Shows(st0.words, l1, um, pages)
    ensures Shows(st.words, l1, UserMemory.Mapped(um, pages, lo, hi), pages + UserMemory.PageSet(lo, hi))
  {
    hide Inv, Space, Mapped, View, Pa, Small, Kind, ZeroPage, SamePage, ByteAt, UserMemory.Mapped, UserMemory.PageSet, UserMemory.At;
    var um', pages' := UserMemory.Mapped(um, pages, lo, hi), pages + UserMemory.PageSet(lo, hi);
    forall v: nat ensures if v in pages' then Small(View(st.words, l1, v)) else Kind(View(st.words, l1, v)) == 0 {
      PageAfter(st0, st, l1, lo, hi, rows, pages, v);
    }
    forall a: nat | a / 4096 in pages' ensures UserMemory.At(um', a) == ByteAt(st.words, Physical(st.words, l1, a)) {
      var v := a / 4096;
      var e, e' := View(st0.words, l1, v), View(st.words, l1, v);
      PageAfter(st0, st, l1, lo, hi, rows, pages, v);
      PaAligned(e);
      PaAligned(e');
      if v in pages {
        SamePageByte(st0.words, st.words, Pa(e), Pa(e'), a % 4096);
      } else {
        ZeroPageByte(st.words, Pa(e'), a % 4096);
      }
    }
  }
}
