// An ELF image put together field by field (the layout of the ELF specification's file header and
// program headers, 32-bit class), and what the loader reads back from it (final/src/elf.c, 5-69).
module ElfFormat {
  import opened Bytes
  import opened Elf

  /** The file header's fields in the order they lie in: 52 bytes. */
  datatype Header = Header(
    ident: seq<byte>, kind: u16, machine: u16, version: u32, entry: u32, phoff: u32, shoff: u32, flags: u32,
    ehsize: u16, phentsize: u16, phnum: u16, shentsize: u16, shnum: u16, shstrndx: u16)

  /** A program header's fields in the order they lie in: 32 bytes. */
  datatype ProgramHeader = ProgramHeader(
    kind: u32, offset: u32, vaddr: u32, paddr: u32, filesz: u32, memsz: u32, flags: u32, align: u32)

  function HeaderBytes(h: Header): (s: seq<byte>)
    requires |h.ident| == 16
    ensures |s| == 52
  {
    h.ident + LittleEndian(h.kind, 2) + LittleEndian(h.machine, 2) + LittleEndian(h.version, 4)
    + LittleEndian(h.entry, 4) + LittleEndian(h.phoff, 4) + LittleEndian(h.shoff, 4) + LittleEndian(h.flags, 4)
    + LittleEndian(h.ehsize, 2) + LittleEndian(h.phentsize, 2) + LittleEndian(h.phnum, 2)
    + LittleEndian(h.shentsize, 2) + LittleEndian(h.shnum, 2) + LittleEndian(h.shstrndx, 2)
  }

  function ProgramBytes(p: ProgramHeader): (s: seq<byte>)
    ensures |s| == 32
  {
    LittleEndian(p.kind, 4) + LittleEndian(p.offset, 4) + LittleEndian(p.vaddr, 4) + LittleEndian(p.paddr, 4)
    + LittleEndian(p.filesz, 4) + LittleEndian(p.memsz, 4) + LittleEndian(p.flags, 4) + LittleEndian(p.align, 4)
  }

  // ----- reading a number behind a prefix -----

  lemma WordBehind(s: seq<byte>, p: seq<byte>, v: u32)
    requires p + LittleEndian(v, 4) <= s
    ensures |p| + 4 <= |s| && ReadU32(s, |p|) == v
  {
    hide LittleEndian, ReadU32;
    var b := s[|p| + 4..];
    assert s == p + LittleEndian(v, 4) + b;
    WordAt(p, v, b);
  }

  lemma HalfBehind(s: seq<byte>, p: seq<byte>, v: u16)
    requires p + LittleEndian(v, 2) <= s
    ensures |p| + 2 <= |s| && U16At(s, |p|) == v
  {
    hide LittleEndian;
    var b := s[|p| + 2..];
    assert s == p + LittleEndian(v, 2) + b;
    HalfAt(p, v, b);
  }

  lemma Longer(a: seq<byte>, b: seq<byte>, s: seq<byte>)
    requires a + b <= s
    ensures a <= s
  {
  }

  // ----- the file header -----

  /** The loader takes the entry point, the offset and the number of the program headers from their
      fields, and accepts exactly 32-bit little-endian ARM images with program headers. */
  lemma HeaderReads(h: Header, elf: seq<byte>)
    requires |h.ident| == 16 && HeaderBytes(h) <= elf
    ensures |elf| >= 52 && Entry(elf) == h.entry && PhOff(elf) == h.phoff && PhNum(elf) == h.phnum
    ensures Accepted(elf) <==> h.ident[..6] == [0x7F, 'E' as int, 'L' as int, 'F' as int, 1, 1] && h.machine == 40 && h.phoff != 0 && h.phnum != 0
  {
    hide LittleEndian, ReadU32, U16At;
    var p18 := h.ident + LittleEndian(h.kind, 2);
    var p24 := p18 + LittleEndian(h.machine, 2) + LittleEndian(h.version, 4);
    var p28 := p24 + LittleEndian(h.entry, 4);
    var p44 := p28 + LittleEndian(h.phoff, 4) + LittleEndian(h.shoff, 4) + LittleEndian(h.flags, 4) + LittleEndian(h.ehsize, 2) + LittleEndian(h.phentsize, 2);
    var p46 := p44 + LittleEndian(h.phnum, 2);
    HeaderGroups(h, p46, elf);
    hide HeaderBytes;
    WordBehind(elf, p24, h.entry);
    WordBehind(elf, p28, h.phoff);
    HalfBehind(elf, p18, h.machine);
    HalfBehind(elf, p44, h.phnum);
    IdentBytes(h.ident, elf);
  }

  lemma HeaderGroups(h: Header, p46: seq<byte>, elf: seq<byte>)
    requires |h.ident| == 16 && HeaderBytes(h) <= elf
    requires p46 == h.ident + LittleEndian(h.kind, 2) + LittleEndian(h.machine, 2) + LittleEndian(h.version, 4) + LittleEndian(h.entry, 4) + LittleEndian(h.phoff, 4) + LittleEndian(h.shoff, 4) + LittleEndian(h.flags, 4) + LittleEndian(h.ehsize, 2) + LittleEndian(h.phentsize, 2) + LittleEndian(h.phnum, 2)
    ensures p46 <= elf && h.ident + LittleEndian(h.kind, 2) + LittleEndian(h.machine, 2) <= elf && h.ident <= elf
    ensures var p24 := h.ident + LittleEndian(h.kind, 2) + LittleEndian(h.machine, 2) + LittleEndian(h.version, 4); p24 + LittleEndian(h.entry, 4) <= elf && p24 + LittleEndian(h.entry, 4) + LittleEndian(h.phoff, 4) <= elf
  {
    hide LittleEndian;
    Longer(p46, LittleEndian(h.shentsize, 2) + LittleEndian(h.shnum, 2) + LittleEndian(h.shstrndx, 2), HeaderBytes(h));
    hide HeaderBytes;
  }

  lemma IdentBytes(ident: seq<byte>, elf: seq<byte>)
    requires |ident| == 16 && ident <= elf
    ensures elf[0] == ident[0] && elf[1] == ident[1] && elf[2] == ident[2] && elf[3] == ident[3] && elf[4] == ident[4] && elf[5] == ident[5]
    ensures forall m: seq<byte> :: |m| == 6 ==> (ident[..6] == m <==> ident[0] == m[0] && ident[1] == m[1] && ident[2] == m[2] && ident[3] == m[3] && ident[4] == m[4] && ident[5] == m[5])
  {
    forall m: seq<byte> | |m| == 6 && ident[0] == m[0] && ident[1] == m[1] && ident[2] == m[2] && ident[3] == m[3] && ident[4] == m[4] && ident[5] == m[5]
      ensures ident[..6] == m
    {
      assert ident[..6] == [m[0], m[1], m[2], m[3], m[4], m[5]] == m;
    }
  }

  // ----- the program headers -----

  function TableBytes(ps: seq<ProgramHeader>): (s: seq<byte>)
    ensures |s| == 32 * |ps|
  {
    if ps == [] then [] else TableBytes(ps[..|ps| - 1]) + ProgramBytes(ps[|ps| - 1])
  }

  lemma {:induction false} TableEntry(ps: seq<ProgramHeader>, i: nat)
    requires i < |ps|
    ensures TableBytes(ps)[32 * i..32 * i + 32] == ProgramBytes(ps[i])
  {
    hide ProgramBytes;
    var n := |ps| - 1;
    if i < n {
      TableEntry(ps[..n], i);
      assert TableBytes(ps)[32 * i..32 * i + 32] == TableBytes(ps[..n])[32 * i..32 * i + 32];
    }
  }

  /** A program header is read back from its 32 bytes. */
  lemma ProgramReads(elf: seq<byte>, i: nat, p: ProgramHeader)
    requires TableInside(elf) && i < PhNum(elf) && elf[PhOff(elf) + 32 * i..PhOff(elf) + 32 * i + 32] == ProgramBytes(p)
    ensures PhAt(elf, i) == Phdr(p.kind, p.offset, p.vaddr, p.filesz, p.memsz, p.flags)
  {
    TableRoom(elf, i);
    hide LittleEndian, ReadU32, PhOff, PhNum;
    var at := PhOff(elf) + 32 * i;
    var q := elf[..at];
    var q8 := q + LittleEndian(p.kind, 4) + LittleEndian(p.offset, 4);
    var q16 := q8 + LittleEndian(p.vaddr, 4) + LittleEndian(p.paddr, 4);
    var q24 := q16 + LittleEndian(p.filesz, 4) + LittleEndian(p.memsz, 4);
    ProgramGroups(elf, at, p);
    hide ProgramBytes;
    WordBehind(elf, q, p.kind);
    WordBehind(elf, q + LittleEndian(p.kind, 4), p.offset);
    WordBehind(elf, q8, p.vaddr);
    WordBehind(elf, q16, p.filesz);
    WordBehind(elf, q16 + LittleEndian(p.filesz, 4), p.memsz);
    WordBehind(elf, q24, p.flags);
  }

  lemma TableRoom(elf: seq<byte>, i: nat)
    requires TableInside(elf) && i < PhNum(elf)
    ensures 0 <= PhOff(elf) && PhOff(elf) + 32 * i + 32 <= |elf|
  {
    hide ReadU32, U16At;
  }

  lemma ProgramGroups(elf: seq<byte>, at: nat, p: ProgramHeader)
    requires at + 32 <= |elf| && elf[at..at + 32] == ProgramBytes(p)
    ensures var q := elf[..at]; q + LittleEndian(p.kind, 4) <= elf && q + LittleEndian(p.kind, 4) + LittleEndian(p.offset, 4) <= elf
    ensures var q8 := elf[..at] + LittleEndian(p.kind, 4) + LittleEndian(p.offset, 4); q8 + LittleEndian(p.vaddr, 4) <= elf && q8 + LittleEndian(p.vaddr, 4) + LittleEndian(p.paddr, 4) + LittleEndian(p.filesz, 4) <= elf
    ensures var q20 := elf[..at] + LittleEndian(p.kind, 4) + LittleEndian(p.offset, 4) + LittleEndian(p.vaddr, 4) + LittleEndian(p.paddr, 4) + LittleEndian(p.filesz, 4); q20 + LittleEndian(p.memsz, 4) <= elf && q20 + LittleEndian(p.memsz, 4) + LittleEndian(p.flags, 4) <= elf
  {
    hide LittleEndian;
    var q28 := elf[..at] + LittleEndian(p.kind, 4) + LittleEndian(p.offset, 4) + LittleEndian(p.vaddr, 4) + LittleEndian(p.paddr, 4) + LittleEndian(p.filesz, 4) + LittleEndian(p.memsz, 4) + LittleEndian(p.flags, 4);
    assert elf == elf[..at] + elf[at..at + 32] + elf[at + 32..];
    Longer(q28, LittleEndian(p.align, 4), elf);
    hide ProgramBytes;
  }

  /** An image made of its file header, anything, the table the header points to, and anything: the
      loader finds just those headers. */
  lemma TableReads(h: Header, gap: seq<byte>, ps: seq<ProgramHeader>, rest: seq<byte>, i: nat)
    requires |h.ident| == 16 && h.phoff == 52 + |gap| && h.phnum == |ps| && i < |ps|
    ensures var elf := HeaderBytes(h) + gap + TableBytes(ps) + rest; TableInside(elf) && PhNum(elf) == |ps| && PhAt(elf, i) == Phdr(ps[i].kind, ps[i].offset, ps[i].vaddr, ps[i].filesz, ps[i].memsz, ps[i].flags)
  {
    hide *;
    var elf := HeaderBytes(h) + gap + TableBytes(ps) + rest;
    HeaderFirst(HeaderBytes(h), gap, TableBytes(ps), rest);
    HeaderReads(h, elf);
    ProgramAt(elf, HeaderBytes(h) + gap, ps, rest, i);
  }

  lemma ProgramAt(elf: seq<byte>, front: seq<byte>, ps: seq<ProgramHeader>, rest: seq<byte>, i: nat)
    requires elf == front + TableBytes(ps) + rest && |elf| >= 52 && PhOff(elf) == |front| && PhNum(elf) == |ps| && i < |ps|
    ensures TableInside(elf) && PhAt(elf, i) == Phdr(ps[i].kind, ps[i].offset, ps[i].vaddr, ps[i].filesz, ps[i].memsz, ps[i].flags)
  {
    hide *;
    TableEntry(ps, i);
    Piece(front, TableBytes(ps), rest, 32 * i, 32);
    InsideIs(elf);
    ProgramReads(elf, i, ps[i]);
  }

  lemma HeaderFirst(a: seq<byte>, gap: seq<byte>, b: seq<byte>, c: seq<byte>)
    ensures a <= a + gap + b + c && |a + gap| == |a| + |gap|
  {
  }

  lemma Piece(a: seq<byte>, b: seq<byte>, c: seq<byte>, i: nat, n: nat)
    requires i + n <= |b|
    ensures (a + b + c)[|a| + i..|a| + i + n] == b[i..i + n]
  {
  }

  lemma InsideIs(elf: seq<byte>)
    requires |elf| >= 52
    ensures TableInside(elf) <==> PhOff(elf) + 32 * PhNum(elf) <= |elf|
  {
  }
}
