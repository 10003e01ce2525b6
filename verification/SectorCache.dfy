// The direct-mapped, write-invalidate sector cache in front of the card
// (lib/src/pifat.c, lines 11-93).
module SectorCache {
  import opened Bytes

  const SECTOR: int := 512
  const SLOTS: int := 32768
  // The card is addressed by a 32-bit byte offset, so it has 2^32 / 512 sectors.
  const CARD: int := 0x80_0000

  type Sector = s: seq<byte> | |s| == 512 witness seq(512, _ => 0)

  /** The sector that seeking to byte `sector * FS_SECTOR_SIZE` (32-bit product) reaches. */
  function CardIndex(sector: u32): (i: nat)
    ensures i < CARD
    ensures sector < CARD ==> i == sector
  {
    U32(sector * SECTOR) / SECTOR
  }

  // ----- the cache as a value -----

  datatype State = State(card: seq<Sector>, data: seq<Sector>, tag: seq<u32>, valid: seq<bool>)
  {
    ghost predicate Shaped() {
      |card| == CARD && |data| == |tag| == |valid| == SLOTS
    }

    predicate Hit(sector: u32)
      requires Shaped()
    {
      valid[sector % SLOTS] && tag[sector % SLOTS] == sector
    }

    function Fill(sector: u32): State
      requires Shaped()
    {
      var slot := sector % SLOTS;
      this.(data := data[slot := card[CardIndex(sector)]], tag := tag[slot := sector], valid := valid[slot := true])
    }

    /** One cached sector read: the new state and the bytes delivered. */
    function Read(sector: u32): (r: (State, Sector))
      requires Shaped()
      ensures r.0.Shaped() && r.0.card == card
    {
      if Hit(sector) then (this, data[sector % SLOTS]) else (Fill(sector), card[CardIndex(sector)])
    }

    function Write(sector: u32, buf: Sector): (st: State)
      requires Shaped()
      ensures st.Shaped() && st.card == card[CardIndex(sector) := buf]
    {
      var v := if Hit(sector) then valid[sector % SLOTS := false] else valid;
      this.(card := card[CardIndex(sector) := buf], valid := v)
    }

    /** `fs_read_mult_sector`: sector numbers advance with 32-bit wrap-around. */
    function ReadMany(sector: u32, count: nat): (r: (State, seq<Sector>))
      requires Shaped()
      ensures r.0.Shaped() && r.0.card == card && |r.1| == count
    {
      if count == 0 then (this, [])
      else
        var prev := ReadMany(sector, count - 1);
        var last := prev.0.Read(U32(sector + (count - 1)));
        (last.0, prev.1 + [last.1])
    }

    /** Every valid slot holds the card's bytes for its tag, and sits where the tag maps. */
    ghost predicate Coherent() {
      && Shaped()
      && forall i :: 0 <= i < SLOTS && valid[i] ==>
           tag[i] < CARD && tag[i] % SLOTS == i && data[i] == card[tag[i]]
    }
  }

  lemma ReadCoherent(st: State, sector: u32)
    requires st.Coherent() && sector < CARD
    ensures st.Read(sector).0.Coherent()
    ensures st.Read(sector).1 == st.card[sector]
  {
  }

  lemma WriteCoherent(st: State, sector: u32, buf: Sector)
    requires st.Coherent() && sector < CARD
    ensures st.Write(sector, buf).Coherent()
  {
    var t := st.Write(sector, buf);
    forall i | 0 <= i < SLOTS && t.valid[i]
      ensures t.tag[i] < CARD && t.tag[i] % SLOTS == i && t.data[i] == t.card[t.tag[i]]
    {
      assert st.valid[i];
      assert t.tag[i] != sector;
    }
  }

  lemma {:induction false} ReadManyCoherent(st: State, sector: u32, count: nat)
    requires st.Coherent() && sector + count <= CARD
    ensures st.ReadMany(sector, count).0.Coherent()
    ensures forall i :: 0 <= i < count ==> st.ReadMany(sector, count).1[i] == st.card[sector + i]
  {
    hide State.Coherent, State.Read, State.Hit, State.Write;
    if count > 0 {
      CoherentShaped(st);
      var prev := st.ReadMany(sector, count - 1);
      ReadManyCoherent(st, sector, count - 1);
      InCard(sector, count - 1);
      ReadCoherent(prev.0, sector + (count - 1));
    }
  }

  lemma CoherentShaped(st: State)
    requires st.Coherent()
    ensures st.Shaped()
  {
  }

  lemma InCard(sector: u32, i: nat)
    requires sector + i < CARD
    ensures U32(sector + i) == sector + i
  {
  }

  // ----- arbitrary runs against an uncached card -----

  datatype Access = Read(sector: u32) | ReadMulti(sector: u32, count: nat) | Write(sector: u32, buf: Sector)

  /** All sector numbers the access touches are below the bound. */
  predicate Below(a: Access, bound: int) {
    match a
    case Read(s) => s < bound
    case ReadMulti(s, n) => s + n <= bound
    case Write(s, _) => s < bound
  }

  function CachedStep(st: State, a: Access): (r: (State, seq<Sector>))
    requires st.Shaped()
    ensures r.0.Shaped()
  {
    match a
    case Read(s) => (st.Read(s).0, [st.Read(s).1])
    case ReadMulti(s, n) => st.ReadMany(s, n)
    case Write(s, buf) => (st.Write(s, buf), [])
  }

  /** The same access on the bare card: no cache, only seek, read and write. */
  function UncachedStep(card: seq<Sector>, a: Access): (r: (seq<Sector>, seq<Sector>))
    requires |card| == CARD
    ensures |r.0| == CARD
  {
    match a
    case Read(s) => (card, [card[CardIndex(s)]])
    case ReadMulti(s, n) => (card, seq(n, i requires 0 <= i => card[CardIndex(U32(s + i))]))
    case Write(s, buf) => (card[CardIndex(s) := buf], [])
  }

  function CachedRun(st: State, run: seq<Access>): seq<seq<Sector>>
    requires st.Shaped()
    decreases |run|
  {
    if run == [] then [] else [CachedStep(st, run[0]).1] + CachedRun(CachedStep(st, run[0]).0, run[1..])
  }

  function UncachedRun(card: seq<Sector>, run: seq<Access>): seq<seq<Sector>>
    requires |card| == CARD
    decreases |run|
  {
    if run == [] then [] else [UncachedStep(card, run[0]).1] + UncachedRun(UncachedStep(card, run[0]).0, run[1..])
  }

  lemma BareRange(card: seq<Sector>, s: u32, n: nat)
    requires |card| == CARD && s + n <= CARD
    ensures |UncachedStep(card, ReadMulti(s, n)).1| == n
    ensures forall i :: 0 <= i < n ==> UncachedStep(card, ReadMulti(s, n)).1[i] == card[s + i]
  {
    forall i | 0 <= i < n ensures UncachedStep(card, ReadMulti(s, n)).1[i] == card[s + i] {
      assert U32(s + i) == s + i;
      assert CardIndex(s + i) == s + i;
    }
  }

  /** One access keeps the cache coherent and answers as the bare card does. */
  lemma StepTransparent(st: State, a: Access)
    requires st.Coherent() && Below(a, CARD)
    ensures CachedStep(st, a).0.Coherent()
    ensures CachedStep(st, a).1 == UncachedStep(st.card, a).1
    ensures CachedStep(st, a).0.card == UncachedStep(st.card, a).0
  {
    match a
    case Read(s) => ReadCoherent(st, s);
    case ReadMulti(s, n) =>
      ReadManyCoherent(st, s, n);
      BareRange(st.card, s, n);
    case Write(s, buf) => WriteCoherent(st, s, buf);
  }

  /** Transparency for every interleaving of single reads, multi-sector reads and writes. */
  lemma {:induction false} RunTransparent(st: State, run: seq<Access>)
    requires st.Coherent()
    requires forall a :: a in run ==> Below(a, CARD)
    ensures CachedRun(st, run) == UncachedRun(st.card, run)
    decreases |run|
  {
    if run != [] {
      StepTransparent(st, run[0]);
      RunTransparent(CachedStep(st, run[0]).0, run[1..]);
    }
  }

  ghost predicate TransparentBelow(bound: int) {
    forall st: State, run: seq<Access> ::
      st.Coherent() && (forall a :: a in run ==> Below(a, bound)) ==> CachedRun(st, run) == UncachedRun(st.card, run)
  }

  /** Three accesses, one after the other. */
  lemma CachedCons(st: State, a: Access, rest: seq<Access>)
    requires st.Shaped()
    ensures CachedRun(st, [a] + rest) == [CachedStep(st, a).1] + CachedRun(CachedStep(st, a).0, rest)
  {
    hide CachedStep;
    assert ([a] + rest)[1..] == rest;
  }

  lemma CachedThree(st: State, a: Access, b: Access, c: Access)
    requires st.Shaped()
    ensures var st1 := CachedStep(st, a).0; var st2 := CachedStep(st1, b).0; CachedRun(st, [a] + ([b] + [c])) == [CachedStep(st, a).1] + ([CachedStep(st1, b).1] + [CachedStep(st2, c).1])
  {
    hide CachedStep;
    var st1 := CachedStep(st, a).0;
    var st2 := CachedStep(st1, b).0;
    CachedCons(st, a, [b] + [c]);
    CachedCons(st1, b, [c]);
    assert CachedRun(st2, [c]) == [CachedStep(st2, c).1];
  }

  lemma UncachedCons(card: seq<Sector>, a: Access, rest: seq<Access>)
    requires |card| == CARD
    ensures UncachedRun(card, [a] + rest) == [UncachedStep(card, a).1] + UncachedRun(UncachedStep(card, a).0, rest)
  {
    hide UncachedStep;
    assert ([a] + rest)[1..] == rest;
  }

  lemma UncachedThree(card: seq<Sector>, a: Access, b: Access, c: Access)
    requires |card| == CARD
    ensures var card1 := UncachedStep(card, a).0; var card2 := UncachedStep(card1, b).0; UncachedRun(card, [a] + ([b] + [c])) == [UncachedStep(card, a).1] + ([UncachedStep(card1, b).1] + [UncachedStep(card2, c).1])
  {
    hide UncachedStep;
    var card1 := UncachedStep(card, a).0;
    var card2 := UncachedStep(card1, b).0;
    UncachedCons(card, a, [b] + [c]);
    UncachedCons(card1, b, [c]);
    assert UncachedRun(card2, [c]) == [UncachedStep(card2, c).1];
  }

  /** The stale copy in the cache. */
  lemma StaleCopy(st: State, buf: Sector)
    requires st.Coherent()
    ensures CachedRun(st, [Read(0)] + ([Write(0x80_0000, buf)] + [Read(0)])) == [[st.card[0]]] + ([[]] + [[st.card[0]]])
  {
    CachedThree(st, Read(0), Write(0x80_0000, buf), Read(0));
    ReadCoherent(st, 0);
    hide State.Coherent, CachedRun;
    var st1 := st.Read(0).0;
    assert st1.Hit(0) && !st1.Hit(0x80_0000);
    assert st1.Write(0x80_0000, buf).Read(0).1 == st.card[0];
  }

  /** What the card holds. */
  lemma FreshCopy(card: seq<Sector>, buf: Sector)
    requires |card| == CARD
    ensures UncachedRun(card, [Read(0)] + ([Write(0x80_0000, buf)] + [Read(0)])) == [[card[0]]] + ([[]] + [[buf]])
  {
    UncachedThree(card, Read(0), Write(0x80_0000, buf), Read(0));
    hide UncachedRun;
    assert CardIndex(0x80_0000) == 0 && CardIndex(0) == 0;
  }

  /** Sector 2^23 aliases sector 0 on the card but has its own tag, so a stale copy of sector 0 survives. */
  lemma StaleAlias(st: State)
    requires st.Coherent()
    ensures exists buf: Sector ::
              var run := [Read(0), Write(0x80_0000, buf), Read(0)];
              CachedRun(st, run) != UncachedRun(st.card, run)
  {
    var z: Sector := seq(512, _ => 0);
    var o: Sector := seq(512, _ => 1);
    assert z[0] != o[0];
    var buf := if st.card[0] == z then o else z;
    hide State.Coherent, CachedRun, UncachedRun;
    StaleCopy(st, buf);
    FreshCopy(st.card, buf);
    var run := [Read(0), Write(0x80_0000, buf), Read(0)];
    assert run == [Read(0)] + ([Write(0x80_0000, buf)] + [Read(0)]);
    assert CachedRun(st, run)[2] == [st.card[0]] && UncachedRun(st.card, run)[2] == [buf];
    var stale: seq<Sector>, fresh_: seq<Sector> := [st.card[0]], [buf];
    assert stale[0] != fresh_[0];
  }

  /** The exact bound: runs over sectors below `bound` are transparent iff the byte offset cannot wrap. */
  lemma TransparencyBound(bound: int)
    ensures TransparentBelow(bound) <==> bound <= CARD
  {
    if bound <= CARD {
      forall st: State, run: seq<Access> | st.Coherent() && (forall a :: a in run ==> Below(a, bound))
        ensures CachedRun(st, run) == UncachedRun(st.card, run)
      {
        RunTransparent(st, run);
      }
    } else {
      var z: Sector := seq(512, _ => 0);
      var st := State(seq(CARD, _ => z), seq(SLOTS, _ => z), seq(SLOTS, _ => 0), seq(SLOTS, _ => false));
      StaleAlias(st);
      var buf: Sector :| var run := [Read(0), Write(0x80_0000, buf), Read(0)];
                         CachedRun(st, run) != UncachedRun(st.card, run);
      var run := [Read(0), Write(0x80_0000, buf), Read(0)];
      assert forall a :: a in run ==> Below(a, bound);
    }
  }

  // ----- the cache in place -----

  class Cache {
    const card: array<Sector>
    const data: array<Sector>
    const tag: array<u32>
    const valid: array<bool>

    ghost predicate Shaped() {
      card.Length == CARD && data.Length == tag.Length == valid.Length == SLOTS && card != data
    }

    ghost function St(): (st: State)
      requires Shaped()
      reads card, data, tag, valid
      ensures st.Shaped()
    {
      State(card[..], data[..], tag[..], valid[..])
    }

    ghost predicate Valid()
      reads card, data, tag, valid
      ensures Valid() ==> Shaped() && St().Coherent()
    {
      Shaped() && St().Coherent()
    }

    /** `fat32_init`, lines 265-271: fresh buffers, nothing valid. */
    constructor (card: array<Sector>)
      requires card.Length == CARD
      ensures Valid() && this.card == card
      ensures fresh(data) && fresh(tag) && fresh(valid)
    {
      this.card := card;
      data := new Sector[SLOTS](_ => seq(512, _ => 0));
      tag := new u32[SLOTS](_ => 0);
      valid := new bool[SLOTS](_ => false);
    }

    /** `fs_read_sector`. */
    method ReadSector(sector: u32) returns (buf: Sector)
      requires Shaped()
      modifies data, tag, valid
      ensures (St(), buf) == old(St()).Read(sector)
      ensures old(Valid()) && sector < CARD ==> Valid() && buf == card[sector]
    {
      ghost var before := St();
      var slot := sector % SLOTS;
      var t := tag[slot];
      if valid[slot] && t == sector {
        buf := data[slot];
        if Valid() && sector < CARD { ReadCoherent(before, sector); }
        return;
      }
      buf := card[CardIndex(sector)];
      data[slot] := buf;
      tag[slot] := sector;
      valid[slot] := true;
      assert St() == before.Fill(sector);
      if before.Coherent() && sector < CARD { ReadCoherent(before, sector); }
    }

    /** `fs_write_sector`. */
    method WriteSector(buf: Sector, sector: u32)
      requires Shaped()
      modifies card, valid
      ensures St() == old(St()).Write(sector, buf)
      ensures old(Valid()) && sector < CARD ==> Valid() && card[..] == old(card[..])[sector := buf]
    {
      ghost var before := St();
      var slot := sector % SLOTS;
      var t := tag[slot];
      if valid[slot] && t == sector {
        valid[slot] := false;
      }
      card[CardIndex(sector)] := buf;
      assert St() == before.Write(sector, buf);
      if before.Coherent() && sector < CARD { WriteCoherent(before, sector, buf); }
    }

    /** `fs_read_mult_sector`. */
    method ReadMultSector(sector: u32, count: nat) returns (buf: seq<Sector>)
      requires Shaped()
      modifies data, tag, valid
      ensures (St(), buf) == old(St()).ReadMany(sector, count)
      ensures old(Valid()) && sector + count <= CARD ==> Valid() && buf == card[sector..sector + count]
    {
      hide *;
      ghost var before := St();
      ReadManyNone(before, sector);
      buf := [];
      for s := 0 to count
        invariant (St(), buf) == before.ReadMany(sector, s)
      {
        ghost var now, sofar := St(), buf;
        var one := ReadSector(U32(sector + s));
        ReadManyMore(before, sector, s, now, sofar, St(), one);
        buf := buf + [one];
      }
      ReadManyValid(old(Valid()), before, sector, count);
    }

    lemma ReadManyValid(valid: bool, before: State, sector: u32, count: nat)
      requires Shaped() && before.Shaped() && St() == before.ReadMany(sector, count).0
      requires valid ==> before.Coherent()
      ensures valid && sector + count <= CARD ==> Valid() && before.ReadMany(sector, count).1 == card[sector..sector + count]
    {
      if valid && sector + count <= CARD { ReadManyCoherent(before, sector, count); }
    }
  }

  lemma ReadManyNone(st: State, sector: u32)
    requires st.Shaped()
    ensures st.ReadMany(sector, 0) == (st, [])
  {
  }

  lemma ReadManyMore(before: State, sector: u32, s: nat, now: State, sofar: seq<Sector>, then_: State, one: Sector)
    requires before.Shaped() && now.Shaped() && (now, sofar) == before.ReadMany(sector, s) && (then_, one) == now.Read(U32(sector + s))
    ensures (then_, sofar + [one]) == before.ReadMany(sector, s + 1)
  {
  }
}
