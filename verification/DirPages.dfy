// `mount_get_dirents64` (final/src/mount.c, lines 409-452) on a directory of the volume: what the
// pages show are the slots that `fat32_list_fat` lists.
module DirPages {
  import opened Bytes
  import opened FatVolume
  import opened FatChains
  import opened FatDir
  import opened FatStore
  import opened PathLookup
  import FatContent
  import FatFiles
  import DirStream
  import FatSlots
  import Names

  function DirentOf(e: Slot): (d: DirStream.Dirent)
    ensures |d.name| == 11
  {
    DirStream.Dirent(Text(RawName(e)), Attr(e))
  }

  function Dirents(l: seq<Slot>): (ds: seq<DirStream.Dirent>)
    ensures |ds| == |l| && DirStream.Named(ds)
    ensures forall i :: 0 <= i < |l| ==> ds[i] == DirentOf(l[i])
  {
    seq(|l|, i requires 0 <= i < |l| => DirentOf(l[i]))
  }

  /** A listed entry is neither deleted nor part of a long name, so no page passes over it. */
  lemma NotHidden(e: Slot)
    requires Listed(e)
    ensures !DirStream.Hidden(DirentOf(e))
  {
    assert Text(RawName(e))[0] as int == RawName(e)[0] == e[0];
  }

  lemma {:induction false} AllShown(ds: seq<DirStream.Dirent>)
    requires DirStream.Named(ds) && forall i :: 0 <= i < |ds| ==> |ds[i].name| == 11 && !DirStream.Hidden(ds[i])
    ensures DirStream.Visible(ds) == ds
  {
    if ds != [] {
      AllShown(ds[..|ds| - 1]);
      assert ds == ds[..|ds| - 1] + [ds[|ds| - 1]];
    }
  }

  /** The stream runs over every entry of the directory's listing, in listing order. */
  lemma ListedVisible(v: Volume, dch: seq<nat>)
    requires FatContent.Fits(v, dch)
    ensures DirStream.Visible(Dirents(ListDir(v, dch))) == Dirents(ListDir(v, dch))
  {
    var l := ListDir(v, dch);
    forall i | 0 <= i < |l| ensures !DirStream.Hidden(Dirents(l)[i]) {
      ListedDir(v, dch, l[i]);
      NotHidden(l[i]);
    }
    AllShown(Dirents(l));
  }

  /** The record made for a slot, from the slot's bytes: the name without its padding, with a dot
      before the extension, and type 4 exactly for directories, else 8. */
  lemma SlotRecord(f: FatSlots.Fields, a: FatSlots.Flags, name: string, ext: string, end: nat)
    requires |name| <= 8 && |ext| <= 3 && ' ' !in name && ' ' !in ext && Chars(Names.Raw(name, ext))
    requires FatSlots.Sized(f) && f.name == NameBytes(Names.Raw(name, ext)) && f.attr == FatSlots.AttrByte(a) && FatSlots.Bits(a)
    ensures var r := DirStream.Rec(DirentOf(FatSlots.SlotBytes(f)), end); r.name == name + (if ext == "" then "" else "." + ext) && r.kind == if a.directory == 1 then 4 else 8
  {
    var e := FatSlots.SlotBytes(f);
    FatSlots.SlotReads(f);
    hide FatSlots.SlotBytes, NameBytes, Names.FatToPosix, DirStream.CString, Names.Raw, Chars;
    NameBytesClean(Names.Raw(name, ext));
    Names.ReadsAs(name, ext);
    NoNul(name, ext);
    DirStream.CStringWhole(name + (if ext == "" then "" else "." + ext));
    DirectoryBit(f.attr, a);
  }

  lemma DirectoryBit(x: byte, a: FatSlots.Flags)
    requires x == FatSlots.AttrByte(a) && FatSlots.Bits(a)
    ensures x / 16 % 2 == a.directory
  {
    var low := a.readOnly + 2 * a.hidden + 4 * a.system + 8 * a.volume;
    assert x == low + 16 * (a.directory + 2 * (a.archive + 2 * a.high)) && low < 16;
    assert x / 16 == a.directory + 2 * (a.archive + 2 * a.high);
  }

  lemma NoNul(name: string, ext: string)
    requires |name| <= 8 && |ext| <= 3 && Chars(Names.Raw(name, ext))
    ensures '\0' !in name + (if ext == "" then "" else "." + ext)
  {
    var p, q, raw := Names.Pad(name, 8), Names.Pad(ext, 3), Names.Raw(name, ext);
    forall i | 0 <= i < |name| ensures name[i] != '\0' {
      assert name[i] == p[..|name|][i] == raw[i] && raw[i] in raw;
    }
    forall i | 0 <= i < |ext| ensures ext[i] != '\0' {
      assert ext[i] == q[..|ext|][i] == raw[8 + i] && raw[8 + i] in raw;
    }
  }

  /** `mount_get_dirents64` on the directory at cluster `dir`. */
  method ReadPage(fs: Store, dir: nat, f: DirStream.File, count: nat) returns (n: nat, recs: seq<DirStream.Record>)
    requires fs.Valid() && Searchable(fs.Vol(), dir) && count < 0x1_0000_0000
    requires var ds := Dirents(Entries(fs.Vol(), dir)); DirStream.Sum(ds, |ds|) < 0x8000_0000
    modifies fs.cache.data, fs.cache.tag, fs.cache.valid, f
    ensures fs.Valid() && fs.Vol() == old(fs.Vol())
    ensures DirStream.Page(recs, n) == DirStream.Fill(Dirents(Entries(fs.Vol(), dir)), 0, old(f.pos), 0, count)
    ensures f.pos == old(f.pos) + n
    ensures DirStream.LaidOut(recs, 0, n) && n <= count
  {
    hide *;
    ghost var v := fs.Vol();
    SearchableParts(v, dir);
    var l := FatFiles.ListDirectory(fs, dir, ChainAt(v, dir));
    ListedVisible(v, ChainAt(v, dir));
    n, recs := DirStream.GetDirents(f, Dirents(l), count);
  }
}
