// The table operations of lib/src/pifat.c in place: the two free-cluster scans and
// the chain free (lines 322-415).
module FatTable {
  import opened Bytes
  import opened FatVolume
  import opened FatChains
  import opened FatFamily
  import opened FatStore
  import SC = SectorCache

  /** The scan buffer holds sector `at`, or nothing yet (no sector in use has number 0xFFFFFFFF). */
  ghost predicate Holds(fs: Store, at: u32, buf: SC.Sector)
    reads fs.cache.card
  {
    at == 0xFFFF_FFFF || (at < fs.cache.card.Length && buf == fs.cache.card[at])
  }

  /** Lines 330-341: the entry of `c`, read through a one-sector buffer kept across the scan. */
  method ScanEntry(fs: Store, c: nat, buf: SC.Sector, at: u32) returns (free: bool, buf': SC.Sector, at': u32)
    requires fs.Valid() && c < fs.g.Limit() && Holds(fs, at, buf)
    modifies fs.cache.data, fs.cache.tag, fs.cache.valid
    ensures fs.Valid() && fs.Vol() == old(fs.Vol()) && Holds(fs, at', buf')
    ensures free == IsFree(fs.Vol().fat, c)
  {
    FatSectorRange(fs.g, c);
    buf', at' := buf, at;
    if fs.g.FatSector(c) != at {
      buf' := fs.cache.ReadSector(fs.g.FatSector(c));
      at' := fs.g.FatSector(c);
    }
    var val := ReadU32(buf', FatIndex(c));
    free := val % TWO28 == 0;
  }

  /** `fat32_find_free_clusters`: the first `n` free clusters, or failure when there are fewer. */
  method FindFreeClusters(fs: Store, n: nat) returns (ok: bool, found: seq<nat>)
    requires fs.Valid() && n >= 1
    modifies fs.cache.data, fs.cache.tag, fs.cache.valid
    ensures fs.Valid() && fs.Vol() == old(fs.Vol())
    ensures ok <==> |FreeList(fs.Vol().fat)| >= n
    ensures ok ==> found == FreeList(fs.Vol().fat)[..n]
  {
    hide *;
    ghost var fat := fs.Vol().fat;
    FreeFromEnds(fat);
    var limit := fs.ScanLimit();
    var buf: SC.Sector, at := seq(512, _ => 0), 0xFFFF_FFFF;
    NothingHeld(fs, buf);
    found := [];
    var c := 2;
    while c < limit
      invariant fs.Valid() && fs.Vol() == old(fs.Vol()) && Holds(fs, at, buf)
      invariant 2 <= c <= limit
      invariant |found| < n && found + FreeFrom(fat, c) == FreeList(fat)
    {
      var free: bool;
      free, buf, at := ScanEntry(fs, c, buf, at);
      FreeFromStep(fat, c);
      if free {
        assert found + ([c] + FreeFrom(fat, c + 1)) == (found + [c]) + FreeFrom(fat, c + 1);
        found := found + [c];
        if |found| == n {
          ok := true;
          return;
        }
      }
      c := c + 1;
    }
    ok := false;
  }

  lemma NothingHeld(fs: Store, buf: SC.Sector)
    ensures Holds(fs, 0xFFFF_FFFF, buf)
  {
  }

  /** `fat32_give_me_next_free_cluster_please`: `tail` 0 stands for no chain to extend. */
  method GiveNextFreeCluster(fs: Store, tail: nat) returns (c: u32)
    requires fs.Valid() && tail < fs.g.Limit()
    modifies fs.cache.card, fs.cache.data, fs.cache.tag, fs.cache.valid
    ensures fs.Valid()
    ensures FreeList(old(fs.Vol()).fat) == [] ==> c == 0xFFFF_FFFF && fs.Vol() == old(fs.Vol())
    ensures FreeList(old(fs.Vol()).fat) != [] ==>
              && c == FreeList(old(fs.Vol()).fat)[0]
              && fs.Vol() == Given(old(fs.Vol()), tail, c)
  {
    hide *;
    ghost var v := fs.Vol();
    FreeFromEnds(v.fat);
    var limit := fs.ScanLimit();
    var buf: SC.Sector, at := seq(512, _ => 0), 0xFFFF_FFFF;
    NothingHeld(fs, buf);
    c := 2;
    while c < limit
      invariant fs.Valid() && Holds(fs, at, buf) && fs.Vol() == v
      invariant 2 <= c <= limit
      invariant FreeFrom(v.fat, c) == FreeList(v.fat)
    {
      var free: bool;
      free, buf, at := ScanEntry(fs, c, buf, at);
      FreeFromStep(v.fat, c);
      if free {
        TakeCluster(fs, tail, c);
        return;
      }
      c := c + 1;
    }
    c := 0xFFFF_FFFF;
  }

  function Given(v: Volume, tail: nat, c: u32): (w: Volume)
    requires tail < |v.fat| && c < |v.fat|
  {
    PutLink(if tail != 0 then PutLink(v, tail, c) else v, c, LAST)
  }

  /** Lines 378-380. */
  method TakeCluster(fs: Store, tail: nat, c: u32)
    requires fs.Valid() && tail < fs.g.Limit() && c < fs.g.Limit()
    modifies fs.cache.card, fs.cache.data, fs.cache.tag, fs.cache.valid
    ensures fs.Valid()
    ensures fs.Vol() == Given(old(fs.Vol()), tail, c)
  {
    hide *;
    if tail != 0 {
      fs.WriteEntry(tail, c);
    }
    fs.WriteEntry(c, LAST);
    GivenIs(old(fs.Vol()), tail, c);
  }

  lemma GivenIs(v: Volume, tail: nat, c: u32)
    requires tail < |v.fat| && c < |v.fat|
    ensures Given(v, tail, c) == PutLink(if tail != 0 then PutLink(v, tail, c) else v, c, LAST)
  {
  }

  /** `fat32_free_cluster_chain`. */
  method FreeClusterChain(fs: Store, start: nat)
    requires fs.Valid() && InRange(fs.Vol().fat) && IsLink(fs.Vol().fat, start)
    modifies fs.cache.card, fs.cache.data, fs.cache.tag, fs.cache.valid
    ensures fs.Valid()
    ensures fs.Vol() == old(fs.Vol()).(fat := FreeChain(old(fs.Vol()).fat, start))
  {
    hide *;
    ghost var v := fs.Vol();
    var c: nat := start;
    while c < 0x0FFF_FFF8 && c != 0
      invariant fs.Valid()
      invariant InRange(fs.Vol().fat) && IsLink(fs.Vol().fat, c)
      invariant fs.Vol() == v.(fat := fs.Vol().fat)
      invariant FreeChain(fs.Vol().fat, c) == FreeChain(v.fat, start)
      decreases UsedSet(fs.Vol().fat), if Stops(c) then 0 else 1
    {
      ghost var w := fs.Vol();
      FreeChainStep(w.fat, c);
      var next := fs.NextCluster(c);
      fs.WriteEntry(c, 0);
      PutLinkIs(w, c, 0);
      c := next;
    }
    FreeChainStop(fs.Vol().fat, c);
  }

  lemma PutLinkIs(v: Volume, c: nat, value: u32)
    requires c < |v.fat|
    ensures PutLink(v, c, value) == v.(fat := SetLink(v.fat, c, value))
  {
  }

  lemma FreeChainStop(fat: Fat, c: nat)
    requires InRange(fat) && IsLink(fat, c) && (c == 0 || c >= 0x0FFF_FFF8)
    ensures FreeChain(fat, c) == fat
  {
  }

  /** One turn of the loop, with its measure. */
  lemma FreeChainStep(fat: Fat, c: nat)
    requires InRange(fat) && IsLink(fat, c) && 0 < c < 0x0FFF_FFF8
    ensures c < |fat|
    ensures Next(fat, c) == Low28(fat[c])
    ensures InRange(SetLink(fat, c, 0)) && IsLink(SetLink(fat, c, 0), Next(fat, c))
    ensures FreeChain(fat, c) == FreeChain(SetLink(fat, c, 0), Next(fat, c))
    ensures UsedSet(SetLink(fat, c, 0)) < UsedSet(fat)
         || (UsedSet(SetLink(fat, c, 0)) == UsedSet(fat) && Stops(Next(fat, c)) && !Stops(c))
  {
    CutInRange(fat, c);
    assert !IsFree(fat, c) ==> c in UsedSet(fat) && c !in UsedSet(SetLink(fat, c, 0));
    assert IsFree(fat, c) ==> UsedSet(SetLink(fat, c, 0)) == UsedSet(fat);
  }
}
