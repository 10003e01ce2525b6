// The first stack as a starting program reads it (final/src/elf.c, lines 96-195): count, argument
// strings, environment strings, and the values behind the keys of the auxiliary vector.
module ElfStart {
  import opened Bytes
  import opened UserMemory
  import opened Elf
  import opened ElfLoader

  /** Looking for `key` from the pair at `p` on, pair number `j` is the first with it, before any
      AT_NULL, and holds `value`. */
  ghost predicate AuxIs(m: Mem, p: int, j: nat, key: int, value: int) {
    && Word(m, p + 8 * j) == key && Word(m, p + 8 * j + 4) == value
    && forall i: nat :: i < j ==> Word(m, p + 8 * i) != key && Word(m, p + 8 * i) != 0
  }

  /** Where the strings behind a table of pointers are, and its closing 0. */
  ghost predicate TableOf(m: Mem, p: int, ss: seq<seq<byte>>) {
    && (forall i: nat :: i < |ss| ==> StrAt(m, Word(m, p + 4 * i), ss[i]))
    && Word(m, p + 4 * |ss|) == 0
  }

  function Backwards(ss: seq<seq<byte>>): (r: seq<seq<byte>>)
    ensures |r| == |ss| && forall i :: 0 <= i < |ss| ==> r[i] == ss[|ss| - 1 - i]
  {
    seq(|ss|, i requires 0 <= i < |ss| => ss[|ss| - 1 - i])
  }

  lemma WordsPart(m: Mem, p: int, a: seq<int>, b: seq<int>, c: seq<int>)
    requires WordsAt(m, p, a + b + c)
    ensures WordsAt(m, p + 4 * |a|, b)
  {
    hide Word;
    forall k | 0 <= k < |b| ensures Word(m, p + 4 * |a| + 4 * k) == b[k] {
      assert (a + b + c)[|a| + k] == b[k];
      assert Word(m, p + 4 * (|a| + k)) == b[k];
    }
  }

  lemma Table(m: Mem, p: int, qs: seq<int>, ss: seq<seq<byte>>, rest: seq<int>, lo: int, hi: int)
    requires WordsAt(m, p, [] + (qs + [0]) + rest) && StringsAt(m, qs, ss, lo, hi)
    ensures TableOf(m, p, ss)
  {
    hide Word, StrAt;
    WordsPart(m, p, [], qs + [0], rest);
    forall i: nat | i < |ss| ensures StrAt(m, Word(m, p + 4 * i), ss[i]) { assert (qs + [0])[i] == qs[i]; }
    assert (qs + [0])[|qs|] == 0;
  }

  lemma BackwardsAt(m: Mem, qs: seq<int>, ss: seq<seq<byte>>, lo: int, hi: int)
    requires StringsAt(m, qs, ss, lo, hi)
    ensures StringsAt(m, Reversed(qs), Backwards(ss), lo, hi)
  {
    hide StrAt;
  }

  /** Argument count, arguments in order, environment backwards, auxiliary vector. */
  lemma StackReads(t: Process, elf: seq<byte>, tableVa: int, args: seq<seq<byte>>, envs: seq<seq<byte>>, ps: seq<int>, qs: seq<int>, random: int)
    requires |elf| >= 52 && t.StackOk(elf, tableVa, args, envs, ps, qs, random)
    ensures var m, sp := t.mem, t.userSp; Word(m, sp) == |args| && TableOf(m, sp + 4, args)
    ensures TableOf(t.mem, t.userSp + 8 + 4 * |args|, Backwards(envs))
    ensures WordsAt(t.mem, t.userSp + 12 + 4 * |args| + 4 * |envs|, Auxv(elf, tableVa, random))
  {
    hide Auxv, FinalSp, Word, Filled, TableOf, Reversed, StringsAt, WordsAt, Backwards, Process.StackOk;
    StackParts(t, elf, tableVa, args, envs, ps, qs, random);
    var m, sp, aux, rs := t.mem, t.userSp, Auxv(elf, tableVa, random), Reversed(qs);
    BackwardsAt(m, qs, envs, sp, STACK_TOP);
    Counted(m, sp, args, envs, ps, qs, aux);
    Table(m, sp + 4, ps, args, rs + [0] + aux, sp, STACK_TOP);
    Table(m, sp + 8 + 4 * |ps|, rs, Backwards(envs), aux, sp, STACK_TOP);
  }

  lemma StackParts(t: Process, elf: seq<byte>, tableVa: int, args: seq<seq<byte>>, envs: seq<seq<byte>>, ps: seq<int>, qs: seq<int>, random: int)
    requires |elf| >= 52 && t.StackOk(elf, tableVa, args, envs, ps, qs, random)
    ensures StringsAt(t.mem, ps, args, t.userSp, STACK_TOP) && StringsAt(t.mem, qs, envs, t.userSp, STACK_TOP) && |ps| == |args| && |qs| == |envs|
    ensures WordsAt(t.mem, t.userSp, StackWords(ps, qs, Auxv(elf, tableVa, random))) && Filled(t.mem, random, 16, 0x11)
  {
    hide Auxv, FinalSp, Word, Filled, Reversed, WordsAt, StackWords, StrAt;
  }

  lemma Counted(m: Mem, sp: int, args: seq<seq<byte>>, envs: seq<seq<byte>>, ps: seq<int>, qs: seq<int>, aux: seq<int>)
    requires WordsAt(m, sp, StackWords(ps, qs, aux)) && |ps| == |args| && |qs| == |envs|
    ensures Word(m, sp) == |args|
    ensures WordsAt(m, sp + 4, [] + (ps + [0]) + (Reversed(qs) + [0] + aux))
    ensures WordsAt(m, sp + 8 + 4 * |args|, [] + (Reversed(qs) + [0]) + aux)
    ensures WordsAt(m, sp + 12 + 4 * |args| + 4 * |envs|, aux)
  {
    hide Word;
    var ws, n := StackWords(ps, qs, aux), [|ps|];
    Grouped(ps, Reversed(qs), aux);
    assert ws[0] == |ps| && Word(m, sp + 4 * 0) == ws[0];
    hide WordsAt, Reversed, StackWords;
    WordsPart(m, sp, n, [] + (ps + [0]) + (Reversed(qs) + [0] + aux), []);
    WordsPart(m, sp, n + (ps + [0]), [] + (Reversed(qs) + [0]) + aux, []);
    WordsPart(m, sp, n + (ps + [0]) + (Reversed(qs) + [0]), aux, []);
  }

  lemma Grouped(ps: seq<int>, rs: seq<int>, aux: seq<int>)
    ensures var ws, n := [|ps|] + ps + [0] + rs + [0] + aux, [|ps|]; ws == n + ([] + (ps + [0]) + (rs + [0] + aux)) + [] && ws == n + (ps + [0]) + ([] + (rs + [0]) + aux) + [] && ws == n + (ps + [0]) + (rs + [0]) + aux + []
  {
  }

  /** The auxiliary vector a program finds behind its environment: the value behind each key. */
  lemma AuxReads(m: Mem, p: int, elf: seq<byte>, tableVa: int, random: int)
    requires |elf| >= 52 && WordsAt(m, p, Auxv(elf, tableVa, random))
    ensures AuxIs(m, p, 0, 6, 4096)               // AT_PAGESZ
    ensures AuxIs(m, p, 1, 3, tableVa)            // AT_PHDR
    ensures AuxIs(m, p, 2, 4, 32)                 // AT_PHENT
    ensures AuxIs(m, p, 3, 5, PhNum(elf))         // AT_PHNUM
    ensures AuxIs(m, p, 4, 9, Entry(elf))         // AT_ENTRY
    ensures AuxIs(m, p, 5, 11, 0) && AuxIs(m, p, 6, 12, 0) && AuxIs(m, p, 7, 13, 0) && AuxIs(m, p, 8, 14, 0)   // user and group ids
    ensures AuxIs(m, p, 9, 16, 0x197) && AuxIs(m, p, 10, 26, 0)   // AT_HWCAP, AT_HWCAP2
    ensures AuxIs(m, p, 11, 25, random)           // AT_RANDOM
    ensures AuxIs(m, p, 12, 0, 0)                 // AT_NULL
  {
    hide Word, PhNum, Entry, AuxIs, WordsAt, Auxv, First;
    var ws := Auxv(elf, tableVa, random);
    KeysOnce(elf, tableVa, random);
    forall j: nat | j < 13 ensures AuxIs(m, p, j, ws[2 * j], ws[2 * j + 1]) { PairAt(m, p, ws, j); }
    ValuesFront(elf, tableVa, random);
    ValuesMiddle(elf, tableVa, random);
    ValuesBack(elf, tableVa, random);
    // the same with the positions computed
    forall j: nat, k: nat, l: nat | j < 13 && k == 2 * j && l == 2 * j + 1 ensures AuxIs(m, p, j, ws[k], ws[l]) {}
  }

  /** No earlier pair has the key of pair `j`, or ends the vector. */
  ghost predicate First(ws: seq<int>, j: nat) {
    2 * j + 2 <= |ws| && forall i: nat :: i < j ==> ws[2 * i] != ws[2 * j] && ws[2 * i] != 0
  }

  lemma KeysOnce(elf: seq<byte>, tableVa: int, random: int)
    requires |elf| >= 52
    ensures forall j: nat :: j < 13 ==> First(Auxv(elf, tableVa, random), j)
  {
    hide PhNum, Entry;
    var ws := Auxv(elf, tableVa, random);
    forall j: nat, i: nat | i < j < 13 ensures ws[2 * i] != ws[2 * j] && ws[2 * i] != 0 {}
  }

  lemma ValuesFront(elf: seq<byte>, tableVa: int, random: int)
    requires |elf| >= 52
    ensures var ws := Auxv(elf, tableVa, random); ws[0] == 6 && ws[1] == 4096 && ws[2] == 3 && ws[3] == tableVa && ws[4] == 4 && ws[5] == 32 && ws[6] == 5 && ws[7] == PhNum(elf)
  {
    hide PhNum, Entry;
  }

  lemma ValuesMiddle(elf: seq<byte>, tableVa: int, random: int)
    requires |elf| >= 52
    ensures var ws := Auxv(elf, tableVa, random); ws[8] == 9 && ws[9] == Entry(elf) && ws[10] == 11 && ws[11] == 0 && ws[12] == 12 && ws[13] == 0 && ws[14] == 13 && ws[15] == 0 && ws[16] == 14 && ws[17] == 0
  {
    hide PhNum, Entry;
  }

  lemma ValuesBack(elf: seq<byte>, tableVa: int, random: int)
    requires |elf| >= 52
    ensures var ws := Auxv(elf, tableVa, random); ws[18] == 16 && ws[19] == 0x197 && ws[20] == 26 && ws[21] == 0 && ws[22] == 25 && ws[23] == random && ws[24] == 0 && ws[25] == 0
  {
    hide PhNum, Entry;
  }

  /** Pair number `j` is found when no earlier one has its key or ends the vector. */
  lemma PairAt(m: Mem, p: int, ws: seq<int>, j: nat)
    requires WordsAt(m, p, ws) && First(ws, j)
    ensures 2 * j + 2 <= |ws| && AuxIs(m, p, j, ws[2 * j], ws[2 * j + 1])
  {
    hide Word;
    forall i: nat | i < j ensures Word(m, p + 8 * i) != ws[2 * j] && Word(m, p + 8 * i) != 0 {
      assert ws[2 * i] != ws[2 * j] && ws[2 * i] != 0;
      assert Word(m, p + 4 * (2 * i)) == ws[2 * i];
    }
    assert Word(m, p + 4 * (2 * j)) == ws[2 * j] && Word(m, p + 4 * (2 * j + 1)) == ws[2 * j + 1];
  }
}
