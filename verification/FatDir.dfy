// Directories as chains of 32-byte slots (lib/src/pifat.c, lines 126-184, 247-261, 417-472
// and 592-662), on volumes as values.
module FatDir {
  import opened Bytes
  import opened FatVolume
  import opened FatChains
  import opened FatContent
  import FatTable

  const FREE: byte := 0xE5      // first name byte of a deleted slot
  const ATTR_VOLUMEID: byte := 0x08
  const ATTR_LFN: byte := 0x0F
  const ATTR_ARCHIVE: byte := 0x20

  type Slot = s: seq<byte> | |s| == 32 witness seq(32, _ => 0)

  function SlotAt(bytes: seq<byte>, j: nat): Slot
    requires 32 * j + 32 <= |bytes|
  {
    bytes[32 * j..32 * j + 32]
  }

  function Attr(e: Slot): byte { e[11] }

  function StartCluster(e: Slot): u32 {
    var lo0: int, lo1: int, hi0: int, hi1: int := e[26], e[27], e[20], e[21];
    lo0 + 0x100 * lo1 + 0x1_0000 * (hi0 + 0x100 * hi1)
  }

  function FileSize(e: Slot): u32 {
    ReadU32(e, 28)
  }

  /** Lines 525-531: a fresh entry for `name`, everything else zero. */
  function NewEntry(name: seq<byte>, start: u32, size: u32): (e: Slot)
    requires |name| >= 11
    ensures e[..11] == name[..11] && Attr(e) == ATTR_ARCHIVE
    ensures StartCluster(e) == start && FileSize(e) == size
  {
    var hi, lo := start / 0x1_0000, start % 0x1_0000;
    assert start == 0x1_0000 * hi + lo;
    var e := name[..11] + [ATTR_ARCHIVE] + Zeros(8) + [hi % 0x100, hi / 0x100] + Zeros(4) + [lo % 0x100, lo / 0x100] + Zeros(4);
    WriteU32(e, 28, size)
  }

  /** `strn_eq` (lib/src/cstr.c, lines 182-194): a string that ends early matches as a prefix. */
  predicate StrnEq(a: seq<byte>, b: seq<byte>, n: nat) {
    if a == [] || b == [] || a[0] == 0 || b[0] == 0 || n == 0 then true
    else a[0] == b[0] && StrnEq(a[1..], b[1..], n - 1)
  }

  lemma {:induction false} StrnEqSame(a: seq<byte>, b: seq<byte>, n: nat)
    requires n <= |a| && n <= |b| && a[..n] == b[..n]
    ensures StrnEq(a, b, n)
  {
    if n > 0 {
      assert a[..n][0] == b[..n][0];
      assert a[1..][..n - 1] == a[..n][1..] && b[1..][..n - 1] == b[..n][1..];
      StrnEqSame(a[1..], b[1..], n - 1);
    }
  }

  /** On 11-byte names without a terminator inside, matching is equality. */
  lemma {:induction false} StrnEqNames(a: seq<byte>, b: seq<byte>, n: nat)
    requires n <= |a| && n <= |b| && StrnEq(a, b, n)
    requires forall k :: 0 <= k < n ==> a[k] != 0 && b[k] != 0
    ensures a[..n] == b[..n]
  {
    if n > 0 {
      StrnEqNames(a[1..], b[1..], n - 1);
      assert a[..n] == [a[0]] + a[1..][..n - 1] && b[..n] == [b[0]] + b[1..][..n - 1];
    }
  }

  // ----- listing -----

  predicate Listed(e: Slot) {
    e[0] != 0 && e[0] != FREE && Attr(e) != ATTR_LFN && Attr(e) / 8 % 2 == 0
  }

  /** `fat32_list_data_lba` from slot `j` on: stop at a never-used slot, skip deleted slots,
      long-name parts and volume labels. */
  function ListFrom(bytes: seq<byte>, j: nat): seq<Slot>
    decreases |bytes| - 32 * j
  {
    if 32 * j + 32 > |bytes| then []
    else
      var e := SlotAt(bytes, j);
      if e[0] == 0 then []
      else (if Listed(e) then [e] else []) + ListFrom(bytes, j + 1)
  }

  /** `fat32_list_fat`: the listings of the clusters, one after the other. */
  function ListDir(v: Volume, dch: seq<nat>): seq<Slot>
    requires FatContent.Fits(v, dch)
  {
    if dch == [] then [] else ListFrom(v.data[dch[0]], 0) + ListDir(v, dch[1..])
  }

  /** Listing clusters with the same bytes gives the same list. */
  lemma {:induction false} ListFrame(v: Volume, w: Volume, dch: seq<nat>)
    requires FatContent.Fits(v, dch) && |v.data| == |w.data|
    requires forall c :: c in dch ==> v.data[c] == w.data[c]
    ensures FatContent.Fits(w, dch) && ListDir(v, dch) == ListDir(w, dch)
  {
    if dch != [] {
      assert dch[0] in dch;
      ListFrame(v, w, dch[1..]);
    }
  }

  // ----- inserting -----

  predicate Vacant(bytes: seq<byte>, j: nat)
    requires 32 * j + 32 <= |bytes|
  {
    bytes[32 * j] == 0 || bytes[32 * j] == FREE
  }

  /** The first vacant slot from `j` on, if there is one. */
  function VacantFrom(bytes: seq<byte>, j: nat): (p: nat)
    ensures j <= p && (32 * p + 32 <= |bytes| ==> Vacant(bytes, p))
    ensures forall i :: j <= i < p ==> 32 * i + 32 <= |bytes| && !Vacant(bytes, i)
    decreases |bytes| - 32 * j
  {
    if 32 * j + 32 > |bytes| || Vacant(bytes, j) then j else VacantFrom(bytes, j + 1)
  }

  datatype Outcome = Outcome(vol: Volume, code: int)

  /** `fat32_write_create_directory_entry`: 0 done, 2 no cluster left to extend with. */
  ghost function DirInsert(v: Volume, cb: nat, dch: seq<nat>, e: Slot): Outcome
    requires VolumeShape(v, cb) && IsChain(v.fat, dch)
    decreases |dch|
  {
    var p := VacantFrom(v.data[dch[0]], 0);
    if 32 * p + 32 <= cb then Outcome(PutBytes(v, dch[0], 32 * p, e), 0)
    else if |dch| > 1 then
      ChainTail(v.fat, dch);
      DirInsert(v, cb, dch[1..], e)
    else if FreeList(v.fat) == [] then Outcome(v, 2)
    else
      var f := FreeList(v.fat)[0];
      Outcome(PutCluster(FatTable.Given(v, dch[0], f), f, e + Zeros(cb - 32)), 0)
  }

  /** The directory's chain afterwards. */
  ghost function InsertedChain(v: Volume, cb: nat, dch: seq<nat>): (r: seq<nat>)
    requires VolumeShape(v, cb) && IsChain(v.fat, dch)
    ensures r == dch || (FreeList(v.fat) != [] && r == dch + [FreeList(v.fat)[0]])
    decreases |dch|
  {
    if 32 * VacantFrom(v.data[dch[0]], 0) + 32 <= cb then dch
    else if |dch| > 1 then
      ChainTail(v.fat, dch);
      [dch[0]] + InsertedChain(v, cb, dch[1..])
    else if FreeList(v.fat) == [] then dch
    else dch + [FreeList(v.fat)[0]]
  }

  /** No vacant slot in any cluster of the directory. */
  ghost predicate FullDir(v: Volume, dch: seq<nat>) {
    forall i :: 0 <= i < |dch| ==> dch[i] < |v.data| && FullCluster(v.data[dch[i]])
  }

  ghost predicate FullCluster(bytes: seq<byte>) {
    forall j: nat :: 32 * j + 32 <= |bytes| ==> !Vacant(bytes, j)
  }

  // ----- finding a name -----

  datatype Hit = Stop | Past | Found(slot: nat)

  /** The scan of one cluster for `name`: a never-used slot ends the whole search. */
  function FindFrom(bytes: seq<byte>, j: nat, name: seq<byte>): (h: Hit)
    ensures h.Found? ==> j <= h.slot && 32 * h.slot + 32 <= |bytes|
    ensures h.Found? ==> bytes[32 * h.slot] != 0 && bytes[32 * h.slot] != FREE && StrnEq(SlotAt(bytes, h.slot), name, 11)
    decreases |bytes| - 32 * j
  {
    if 32 * j + 32 > |bytes| then Past
    else if bytes[32 * j] == 0 then Stop
    else if bytes[32 * j] != FREE && StrnEq(SlotAt(bytes, j), name, 11) then Found(j)
    else FindFrom(bytes, j + 1, name)
  }

  datatype Place = Nowhere | Place(cluster: nat, slot: nat)

  /** The search over the directory's chain. */
  function DirFind(v: Volume, dch: seq<nat>, name: seq<byte>): (r: Place)
    requires FatContent.Fits(v, dch)
    ensures r.Place? ==> r.cluster in dch && 32 * r.slot + 32 <= |v.data[r.cluster]|
    ensures r.Place? ==> StrnEq(SlotAt(v.data[r.cluster], r.slot), name, 11)
  {
    if dch == [] then Nowhere
    else
      match FindFrom(v.data[dch[0]], 0, name)
      case Stop => Nowhere
      case Found(j) => Place(dch[0], j)
      case Past => DirFind(v, dch[1..], name)
  }
}
