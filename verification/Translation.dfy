// What the processor's table walk makes of a page, sections of the kernel map included, and what
// `make_sure_user_space` (final/src/vm.c, lines 118-164) does to pages outside its range.
module Translation {
  import opened Arenas
  import opened LinkedList
  import opened Blocks
  import opened Frames
  import opened PageTables
  import opened Spaces
  import opened UserSpace

  /** A fault, a 1 MB section given by its root word, or a page given by its table entry. */
  datatype Translated = Fault | Section(word: int) | Page(entry: int)

  function Translate(m: Mem, l1: int, v: nat): Translated {
    var d := L1At(m, l1, v / 256);
    if Coarse(d) then
      var e := L2At(m, L2Base(d), v % 256);
      if Kind(e) == 0 then Fault else Page(e)
    else if Kind(d) == 2 then Section(d)
    else Fault
  }

  lemma TranslateView(m: Mem, l1: int, v: nat)
    requires v / 256 < 4095
    ensures RowAt(m, l1, v / 256) ==> Translate(m, l1, v) == (if Kind(View(m, l1, v)) == 0 then Fault else Page(View(m, l1, v)))
    ensures !RowAt(m, l1, v / 256) ==> Translate(m, l1, v) == (if Kind(L1At(m, l1, v / 256)) == 2 then Section(L1At(m, l1, v / 256)) else Fault)
  {
    hide L1At, L2At, L2Base;
  }

  /** A page outside the range keeps its translation, unless it lay in a section whose row got a
      table: then, and only then, the translation is lost. */
  lemma OutsideRange(st0: State, st: State, l1: int, lo: nat, hi: nat, rows: set<nat>, v: nat)
    requires Mapped(st0, st, l1, lo, hi, rows) && !(lo <= v < hi) && v / 256 < 4095
    ensures Translate(st.words, l1, v) == if v / 256 in rows && Translate(st0.words, l1, v).Section? then Fault else Translate(st0.words, l1, v)
  {
    hide PagesSpared, Grown, Frugal, RowAt, View, L1At, PageMapped, Kind;
    TranslateView(st0.words, l1, v);
    TranslateView(st.words, l1, v);
    NoRowNoView(st0.words, l1, v);
    assert View(st.words, l1, v) == View(st0.words, l1, v);
    assert RowAt(st.words, l1, v / 256) <==> RowAt(st0.words, l1, v / 256) || v / 256 in rows;
  }

  lemma NoRowNoView(m: Mem, l1: int, v: nat)
    ensures !RowAt(m, l1, v / 256) ==> Kind(View(m, l1, v)) == 0
  {
    hide RowAt, L2At;
  }

  /** The last megabyte, whose table belongs to no address space, translates as before. */
  lemma LastRow(st0: State, st: State, l1: int, lo: nat, hi: nat, rows: set<nat>, v: nat)
    requires Mapped(st0, st, l1, lo, hi, rows) && v / 256 == 4095 && 4095 !in rows
    requires var d := L1At(st0.words, l1, 4095); Coarse(d) ==> Owned(st0, L2_CLASS, L2Base(d)) && L2Base(d) !in SpaceBlocks(st0.words, l1)
    ensures Translate(st.words, l1, v) == Translate(st0.words, l1, v)
  {
    var d := L1At(st0.words, l1, 4095);
    assert L1At(st.words, l1, 4095) == d;
    if Coarse(d) {
      RequestClasses();
      SparedTable(st0, st, l1, L2Base(d));
      assert L2At(st.words, L2Base(d), v % 256) == L2At(st0.words, L2Base(d), v % 256);
    }
  }

  lemma SparedTable(st0: State, st: State, l1: int, l2: int)
    requires PagesSpared(st0, st, l1) && Owned(st0, L2_CLASS, l2) && l2 !in SpaceBlocks(st0.words, l1)
    ensures forall j: nat :: j < 256 ==> L2At(st.words, l2, j) == L2At(st0.words, l2, j)
  {
    RequestClasses();
    hide Owned, Inv, SpaceBlocks, BlockSize;
    assert SameBlock(st0.words, st.words, l2, BlockSize(L2_CLASS));
  }
}
