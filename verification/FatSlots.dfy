// A directory slot as its fields in the order they lie in (`fat_dirent_t`), and what the flag bits of
// its attribute byte mean to a listing (lib/src/pifat.c, lines 126-184 and 524-532).
module FatSlots {
  import opened Bytes
  import opened FatVolume
  import opened FatDir
  import FatOwners
  import FatSectors

  /** The fields; the start cluster is kept in two halves with time stamps between them. */
  datatype Fields = Fields(name: seq<byte>, attr: byte, created: seq<byte>, high: u16, modified: seq<byte>, low: u16, size: u32)

  predicate Sized(f: Fields) {
    |f.name| == 11 && |f.created| == 8 && |f.modified| == 4
  }

  function SlotBytes(f: Fields): (e: Slot)
    requires Sized(f)
  {
    f.name + [f.attr] + f.created + LittleEndian(f.high, 2) + f.modified + LittleEndian(f.low, 2) + LittleEndian(f.size, 4)
  }

  /** Reading a slot gives back the fields it was made of. */
  lemma SlotReads(f: Fields)
    requires Sized(f)
    ensures var e := SlotBytes(f); e[..11] == f.name && Attr(e) == f.attr && StartCluster(e) == f.high * 0x1_0000 + f.low && FileSize(e) == f.size
  {
    hide LittleEndian, ReadU32;
    var head := f.name + [f.attr] + f.created;
    var mid, hi, lo, size := f.modified, LittleEndian(f.high, 2), LittleEndian(f.low, 2), LittleEndian(f.size, 4);
    HalfAt(head, f.high, mid + lo + size);
    HalfAt(head + hi + mid, f.low, size);
    WordAt(head + hi + mid + lo, f.size, []);
    Grouped(head, hi, mid, lo, size);
    HeadOf(f, hi + mid + lo + size);
    Grouped(head, hi, mid, lo, size);
  }

  lemma Grouped(head: seq<byte>, hi: seq<byte>, mid: seq<byte>, lo: seq<byte>, size: seq<byte>)
    ensures head + hi + mid + lo + size == head + hi + (mid + lo + size)
    ensures head + hi + mid + lo + size == head + hi + mid + lo + size + []
    ensures head + hi + mid + lo + size == head + (hi + mid + lo + size)
  {
  }

  lemma HeadOf(f: Fields, rest: seq<byte>)
    requires Sized(f)
    ensures var e := f.name + [f.attr] + f.created + rest; e[..11] == f.name && e[11] == f.attr
  {
  }

  /** A fresh entry: the name, the archive flag, the halves of the start cluster, the size, and zeros. */
  lemma NewSlot(name: seq<byte>, start: u32, size: u32)
    requires |name| == 11
    ensures NewEntry(name, start, size) == SlotBytes(Fields(name, 0x20, Zeros(8), start / 0x1_0000, Zeros(4), start % 0x1_0000, size))
  {
    var hi, lo := start / 0x1_0000, start % 0x1_0000;
    var e := name[..11] + [ATTR_ARCHIVE] + Zeros(8) + [hi % 0x100, hi / 0x100] + Zeros(4) + [lo % 0x100, lo / 0x100] + Zeros(4);
    assert NewEntry(name, start, size) == WriteU32(e, 28, size);
    hide NewEntry, LittleEndian, WriteU32;
    WriteNumber(e, 28, size);
    Halves(hi);
    Halves(lo);
    Cut(name, hi, lo);
  }

  lemma Halves(v: u16)
    ensures LittleEndian(v, 2) == [v % 0x100, v / 0x100]
  {
    EndianOf4(v);
  }

  lemma Cut(name: seq<byte>, hi: u16, lo: u16)
    requires |name| == 11
    ensures var e := name[..11] + [ATTR_ARCHIVE] + Zeros(8) + [hi % 0x100, hi / 0x100] + Zeros(4) + [lo % 0x100, lo / 0x100] + Zeros(4); |e| == 32 && e[32..] == [] && e[..28] == name + [0x20] + Zeros(8) + [hi % 0x100, hi / 0x100] + Zeros(4) + [lo % 0x100, lo / 0x100]
  {
    assert name[..11] == name;
  }

  /** The flag bits of an attribute byte, lowest first; `high` are the two reserved ones. */
  datatype Flags = Flags(readOnly: nat, hidden: nat, system: nat, volume: nat, directory: nat, archive: nat, high: nat)

  function AttrByte(a: Flags): nat {
    a.readOnly + 2 * a.hidden + 4 * a.system + 8 * a.volume + 16 * a.directory + 32 * a.archive + 64 * a.high
  }

  predicate Bits(a: Flags) {
    a.readOnly < 2 && a.hidden < 2 && a.system < 2 && a.volume < 2 && a.directory < 2 && a.archive < 2 && a.high < 4
  }

  /** A listing shows exactly the slots in use without the volume flag, directories included; the test
      for long-name parts adds nothing to that. The directory flag is bit 4. */
  lemma ListedByFlags(e: Slot, a: Flags)
    requires Bits(a) && Attr(e) == AttrByte(a)
    ensures Listed(e) <==> e[0] != 0 && e[0] != 0xE5 && a.volume == 0
    ensures FatOwners.IsDirectory(e) <==> a.directory == 1
  {
    var low := a.readOnly + 2 * a.hidden + 4 * a.system;
    assert Attr(e) == low + 8 * (a.volume + 2 * (a.directory + 2 * a.archive + 4 * a.high));
    assert Attr(e) / 8 == a.volume + 2 * (a.directory + 2 * a.archive + 4 * a.high);
    assert Attr(e) / 16 == a.directory + 2 * (a.archive + 2 * a.high);
  }

  /** A long-name part is a slot in use with the four lowest flags and no other. */
  lemma LongByFlags(e: Slot, a: Flags)
    requires Bits(a) && Attr(e) == AttrByte(a)
    ensures FatSectors.Long(e) <==> e[0] != 0 && e[0] != 0xE5 && a.readOnly == a.hidden == a.system == a.volume == 1 && a.directory == a.archive == a.high == 0
  {
  }

  /** Every attribute byte has such flags. */
  lemma FlagsOf(x: byte) returns (a: Flags)
    ensures Bits(a) && AttrByte(a) == x
  {
    var q1 := x / 2;
    var q2 := q1 / 2;
    var q3 := q2 / 2;
    var q4 := q3 / 2;
    var q5 := q4 / 2;
    a := Flags(x % 2, q1 % 2, q2 % 2, q3 % 2, q4 % 2, q5 % 2, q5 / 2);
  }
}
