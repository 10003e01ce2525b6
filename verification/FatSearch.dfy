// What a search by name gets to see (lib/src/pifat.c, lines 592-625) against what a listing shows
// (lines 126-184 and 247-261): a never-used slot ends the whole search, but only its own cluster's
// part of the listing.
module FatSearch {
  import opened Bytes
  import opened FatVolume
  import opened FatContent
  import opened FatDir
  import opened FatDirLaws
  import opened FatRoundTrip

  /** The cluster has no never-used slot. */
  ghost predicate AllUsed(bytes: seq<byte>) {
    forall j: nat :: 32 * j + 32 <= |bytes| ==> !NeverUsed(bytes, j)
  }

  /** The listed entries that a search can get to. */
  ghost function Reached(v: Volume, dch: seq<nat>): seq<Slot>
    requires FatContent.Fits(v, dch)
  {
    if dch == [] then [] else ListFrom(v.data[dch[0]], 0) + (if AllUsed(v.data[dch[0]]) then Reached(v, dch[1..]) else [])
  }

  /** Behind the first cluster with a never-used slot nothing is listed. */
  ghost predicate NothingBehind(v: Volume, dch: seq<nat>)
    requires FatContent.Fits(v, dch)
  {
    forall i, j :: 0 <= i < j < |dch| && !AllUsed(v.data[dch[i]]) ==> ListFrom(v.data[dch[j]], 0) == []
  }

  lemma {:induction false} EmptyList(v: Volume, dch: seq<nat>)
    requires FatContent.Fits(v, dch)
    ensures ListDir(v, dch) == [] <==> forall i :: 0 <= i < |dch| ==> ListFrom(v.data[dch[i]], 0) == []
  {
    hide ListFrom;
    if dch != [] {
      EmptyList(v, dch[1..]);
      forall i | 0 <= i < |dch| ensures i > 0 ==> dch[i] == dch[1..][i - 1] {}
      if ListDir(v, dch) == [] {
        forall i | 0 <= i < |dch| ensures ListFrom(v.data[dch[i]], 0) == [] {
          if i > 0 { assert ListFrom(v.data[dch[1..][i - 1]], 0) == []; }
        }
      }
    }
  }

  lemma BehindTail(v: Volume, dch: seq<nat>)
    requires FatContent.Fits(v, dch) && dch != []
    ensures NothingBehind(v, dch) <==> NothingBehind(v, dch[1..]) && (AllUsed(v.data[dch[0]]) || ListDir(v, dch[1..]) == [])
  {
    hide ListFrom, AllUsed;
    var rest := dch[1..];
    EmptyList(v, rest);
    if NothingBehind(v, dch) {
      forall i, j | 0 <= i < j < |rest| && !AllUsed(v.data[rest[i]]) ensures ListFrom(v.data[rest[j]], 0) == [] {
        assert rest[i] == dch[i + 1] && rest[j] == dch[j + 1];
      }
      forall i | 0 <= i < |rest| && !AllUsed(v.data[dch[0]]) ensures ListFrom(v.data[rest[i]], 0) == [] {
        assert rest[i] == dch[i + 1];
      }
    }
    if NothingBehind(v, rest) && (AllUsed(v.data[dch[0]]) || ListDir(v, rest) == []) {
      forall i, j | 0 <= i < j < |dch| && !AllUsed(v.data[dch[i]]) ensures ListFrom(v.data[dch[j]], 0) == [] {
        assert dch[j] == rest[j - 1] && (i > 0 ==> dch[i] == rest[i - 1]);
      }
    }
  }

  /** A search can get to every listed entry if and only if nothing is listed behind the first
      cluster with a never-used slot. */
  lemma {:induction false} ReachedAll(v: Volume, dch: seq<nat>)
    requires FatContent.Fits(v, dch)
    ensures |Reached(v, dch)| <= |ListDir(v, dch)|
    ensures Reached(v, dch) == ListDir(v, dch) <==> NothingBehind(v, dch)
  {
    hide ListFrom, AllUsed, NothingBehind;
    if dch == [] {
      NothingAtAll(v, dch);
    } else {
      ReachedAll(v, dch[1..]);
      BehindTail(v, dch);
      var l, r, d := ListFrom(v.data[dch[0]], 0), Reached(v, dch[1..]), ListDir(v, dch[1..]);
      SamePrefix(l, r, d);
      SamePrefix(l, [], d);
      if !AllUsed(v.data[dch[0]]) && d == [] { NothingLeft(v, dch[1..]); }
    }
  }

  lemma NothingAtAll(v: Volume, dch: seq<nat>)
    requires dch == []
    ensures FatContent.Fits(v, dch) && NothingBehind(v, dch)
  {
  }

  lemma NothingLeft(v: Volume, dch: seq<nat>)
    requires FatContent.Fits(v, dch) && ListDir(v, dch) == []
    ensures NothingBehind(v, dch)
  {
    EmptyList(v, dch);
  }

  lemma SamePrefix(l: seq<Slot>, r: seq<Slot>, d: seq<Slot>)
    ensures l + r == l + d <==> r == d
  {
    if l + r == l + d {
      assert r == (l + r)[|l|..] && d == (l + d)[|l|..];
    }
  }

  // ----- what is reached is found -----

  lemma {:induction false} ListedHit(bytes: seq<byte>, j: nat, e: Slot)
    requires e in ListFrom(bytes, j)
    ensures FindFrom(bytes, j, e[..11]).Found?
    decreases |bytes| - 32 * j
  {
    var x := SlotAt(bytes, j);
    assert x[0] == bytes[32 * j];
    if Listed(x) && e == x {
      StrnEqSame(x, e[..11], 11);
    } else {
      ListedHit(bytes, j + 1, e);
    }
  }

  /** A scan that meets no never-used slot hits the name or passes the cluster. */
  lemma {:induction false} UsedPast(bytes: seq<byte>, j: nat, name: seq<byte>)
    requires AllUsed(bytes)
    ensures !FindFrom(bytes, j, name).Stop?
    decreases |bytes| - 32 * j
  {
    hide StrnEq;
    if 32 * j + 32 <= |bytes| {
      assert !NeverUsed(bytes, j);
      UsedPast(bytes, j + 1, name);
    }
  }

  /** Every entry a search can get to is hit by its own name, or by one before it. */
  lemma {:induction false} ReachedFound(v: Volume, dch: seq<nat>, e: Slot)
    requires FatContent.Fits(v, dch) && e in Reached(v, dch)
    ensures DirHas(v, dch, e[..11])
  {
    hide ListFrom, FindFrom, AllUsed;
    if e in ListFrom(v.data[dch[0]], 0) {
      ListedHit(v.data[dch[0]], 0, e);
    } else {
      UsedPast(v.data[dch[0]], 0, e[..11]);
      ReachedFound(v, dch[1..], e);
    }
  }

  lemma {:induction false} HitListed(bytes: seq<byte>, j: nat, name: seq<byte>)
    requires FindFrom(bytes, j, name).Found? && Listed(SlotAt(bytes, FindFrom(bytes, j, name).slot))
    ensures SlotAt(bytes, FindFrom(bytes, j, name).slot) in ListFrom(bytes, j)
    decreases |bytes| - 32 * j
  {
    hide StrnEq;
    if FindFrom(bytes, j, name).slot != j {
      HitListed(bytes, j + 1, name);
    }
  }

  lemma {:induction false} PastUsed(bytes: seq<byte>, j: nat, name: seq<byte>)
    requires FindFrom(bytes, j, name) == Past
    ensures forall i: nat :: j <= i && 32 * i + 32 <= |bytes| ==> !NeverUsed(bytes, i)
    decreases |bytes| - 32 * j
  {
    hide StrnEq;
    if 32 * j + 32 <= |bytes| {
      PastUsed(bytes, j + 1, name);
      assert !NeverUsed(bytes, j);
    }
  }

  /** And a search never ends at a listed entry that is not among those. */
  lemma {:induction false} FoundReached(v: Volume, dch: seq<nat>, name: seq<byte>)
    requires FatContent.Fits(v, dch) && DirHas(v, dch, name) && Listed(EntryAt(v, DirFind(v, dch, name)))
    ensures EntryAt(v, DirFind(v, dch, name)) in Reached(v, dch)
  {
    hide FindFrom, ListFrom, Listed, StrnEq;
    if FindFrom(v.data[dch[0]], 0, name).Found? {
      HitListed(v.data[dch[0]], 0, name);
    } else {
      PastUsed(v.data[dch[0]], 0, name);
      FoundReached(v, dch[1..], name);
    }
  }

  // ----- directories where every entry can be found -----

  /** Only the last cluster may hold never-used slots. */
  ghost predicate Dense(v: Volume, dch: seq<nat>) {
    FatContent.Fits(v, dch) && forall i :: 0 <= i < |dch| - 1 ==> AllUsed(v.data[dch[i]])
  }

  /** There every listed entry can be found. */
  lemma DenseFinds(v: Volume, dch: seq<nat>, e: Slot)
    requires Dense(v, dch) && e in ListDir(v, dch)
    ensures DirHas(v, dch, e[..11])
  {
    hide AllUsed, ListFrom, ListDir, Reached, DirHas;
    ReachedAll(v, dch);
    ReachedFound(v, dch, e);
  }
}
