// The FAT as a linking structure: free clusters, chains, families of disjoint chains,
// and what each table update of lib/src/pifat.c does to them.
module FatChains {
  import opened Bytes
  import opened FatVolume

  type Fat = seq<u32>

  predicate IsFree(fat: Fat, c: nat)
    requires c < |fat|
  {
    Low28(fat[c]) == 0
  }

  function Next(fat: Fat, c: nat): u32
    requires c < |fat|
  {
    Low28(fat[c])
  }

  // ----- free clusters in scan order -----

  /** The free clusters from `c` upwards, in ascending order. */
  function FreeFrom(fat: Fat, c: nat): (s: seq<nat>)
    requires c <= |fat|
    ensures forall i :: 0 <= i < |s| ==> c <= s[i] < |fat| && IsFree(fat, s[i])
    decreases |fat| - c
  {
    if c == |fat| then []
    else if IsFree(fat, c) then [c] + FreeFrom(fat, c + 1)
    else FreeFrom(fat, c + 1)
  }

  /** What the scans see: cluster numbers start at 2. */
  function FreeList(fat: Fat): (s: seq<nat>)
    requires |fat| >= 2
    ensures forall i :: 0 <= i < |s| ==> 2 <= s[i] < |fat| && IsFree(fat, s[i])
  {
    FreeFrom(fat, 2)
  }

  lemma FreeFromStep(fat: Fat, c: nat)
    requires c < |fat|
    ensures IsFree(fat, c) ==> FreeFrom(fat, c) == [c] + FreeFrom(fat, c + 1)
    ensures !IsFree(fat, c) ==> FreeFrom(fat, c) == FreeFrom(fat, c + 1)
  {
  }

  lemma FreeFromEnds(fat: Fat)
    requires |fat| >= 2
    ensures FreeFrom(fat, 2) == FreeList(fat) && FreeFrom(fat, |fat|) == []
  {
  }

  /** The scan is strictly ascending ... */
  lemma {:induction false} FreeFromAscending(fat: Fat, c: nat, i: nat, j: nat)
    requires c <= |fat| && i < j < |FreeFrom(fat, c)|
    ensures FreeFrom(fat, c)[i] < FreeFrom(fat, c)[j]
    decreases |fat| - c
  {
    if !IsFree(fat, c) {
      FreeFromAscending(fat, c + 1, i, j);
    } else if i > 0 {
      FreeFromAscending(fat, c + 1, i - 1, j - 1);
    }
  }

  /** ... and misses no free cluster. */
  lemma {:induction false} FreeFromComplete(fat: Fat, c: nat, d: nat)
    requires c <= d < |fat|
    ensures d in FreeFrom(fat, c) <==> IsFree(fat, d)
    decreases |fat| - c
  {
    if c < d { FreeFromComplete(fat, c + 1, d); }
  }

  /** A prefix of the scan depends on nothing but which clusters are free. */
  lemma {:induction false} FreeFromSame(fat: Fat, gat: Fat, c: nat)
    requires c <= |fat| == |gat|
    requires forall d :: c <= d < |fat| ==> (IsFree(fat, d) <==> IsFree(gat, d))
    ensures FreeFrom(fat, c) == FreeFrom(gat, c)
    decreases |fat| - c
  {
    if c < |fat| {
      FreeFromSame(fat, gat, c + 1);
    }
  }

  /** Using up the first free cluster leaves the rest of the scan. */
  lemma {:induction false} FreeFromTaken(fat: Fat, gat: Fat, c: nat)
    requires c <= |fat| == |gat|
    requires FreeFrom(fat, c) != []
    requires !IsFree(gat, FreeFrom(fat, c)[0])
    requires forall d :: c <= d < |fat| && d != FreeFrom(fat, c)[0] ==> (IsFree(fat, d) <==> IsFree(gat, d))
    ensures FreeFrom(gat, c) == FreeFrom(fat, c)[1..]
    decreases |fat| - c
  {
    if IsFree(fat, c) {
      FreeFromSame(fat, gat, c + 1);
    } else {
      FreeFromTaken(fat, gat, c + 1);
    }
  }

  // ----- chains -----

  /** `ch` is a chain: each cluster links to the next, the last one holds an end mark. */
  ghost predicate IsChain(fat: Fat, ch: seq<nat>) {
    && ch != []
    && (forall i :: 0 <= i < |ch| ==> 2 <= ch[i] < |fat|)
    && (forall i :: 0 <= i < |ch| - 1 ==> Next(fat, ch[i]) == ch[i + 1])
    && Next(fat, ch[|ch| - 1]) >= EOC
  }

  lemma ChainTail(fat: Fat, ch: seq<nat>)
    requires IsChain(fat, ch) && |ch| > 1
    ensures IsChain(fat, ch[1..])
  {
    var t := ch[1..];
    forall i | 0 <= i < |t| - 1 ensures Next(fat, t[i]) == t[i + 1] {
      assert Next(fat, ch[i + 1]) == ch[i + 2];
    }
  }

  lemma {:induction false} ChainSuffix(fat: Fat, ch: seq<nat>, k: nat)
    requires IsChain(fat, ch) && k < |ch|
    ensures IsChain(fat, ch[k..])
  {
    if k > 0 {
      ChainSuffix(fat, ch, k - 1);
      ChainTail(fat, ch[k - 1..]);
      assert ch[k - 1..][1..] == ch[k..];
    } else {
      assert ch[0..] == ch;
    }
  }

  lemma ChainEnds(fat: Fat, ch: seq<nat>)
    requires |fat| <= EOC && IsChain(fat, ch)
    ensures |ch| == 1 <==> Next(fat, ch[0]) >= EOC
    ensures |ch| > 1 ==> Next(fat, ch[0]) == ch[1]
  {
    if |ch| > 1 { assert Next(fat, ch[0]) == ch[0 + 1]; }
  }

  /** Two chains from the same cluster are the same chain. */
  lemma {:induction false} ChainDetermined(fat: Fat, a: seq<nat>, b: seq<nat>)
    requires |fat| <= EOC && IsChain(fat, a) && IsChain(fat, b) && a[0] == b[0]
    ensures a == b
    decreases |a|
  {
    ChainEnds(fat, a);
    ChainEnds(fat, b);
    if |a| > 1 {
      ChainTail(fat, a);
      ChainTail(fat, b);
      ChainDetermined(fat, a[1..], b[1..]);
      assert a == [a[0]] + a[1..] && b == [b[0]] + b[1..];
    }
  }

  /** A chain never meets a cluster twice. */
  lemma {:induction false} ChainDistinct(fat: Fat, ch: seq<nat>, i: nat, j: nat)
    requires |fat| <= EOC && IsChain(fat, ch) && i < j < |ch|
    ensures ch[i] != ch[j]
  {
    if ch[i] == ch[j] {
      ChainSuffix(fat, ch, i);
      ChainSuffix(fat, ch, j);
      ChainDetermined(fat, ch[i..], ch[j..]);
      assert false;
    }
  }

  /** Nothing a chain holds is free. */
  lemma ChainUsed(fat: Fat, ch: seq<nat>, c: nat)
    requires IsChain(fat, ch) && c in ch
    ensures c < |fat| && !IsFree(fat, c)
  {
    var i :| 0 <= i < |ch| && ch[i] == c;
    if i < |ch| - 1 { assert Next(fat, ch[i]) == ch[i + 1]; }
  }

  /** A chain is untouched by updates elsewhere. */
  lemma ChainFrame(fat: Fat, gat: Fat, ch: seq<nat>)
    requires IsChain(fat, ch) && |fat| == |gat|
    requires forall c :: c in ch ==> Next(fat, c) == Next(gat, c)
    ensures IsChain(gat, ch)
  {
    forall i | 0 <= i < |ch| - 1 ensures Next(gat, ch[i]) == ch[i + 1] {
      assert ch[i] in ch;
      assert Next(fat, ch[i]) == ch[i + 1];
    }
    assert ch[|ch| - 1] in ch;
  }

  // ----- extending and creating chains -----

  /** `fat32_give_me_next_free_cluster_please`: the new table once `f` is linked behind `tail`. */
  function Extend(fat: Fat, tail: nat, f: nat): (g: Fat)
    requires tail < |fat| <= EOC && f < |fat|
    ensures |g| == |fat|
  {
    SetLink(SetLink(fat, tail, f), f, LAST)
  }

  lemma ExtendChain(fat: Fat, ch: seq<nat>, f: nat)
    requires |fat| <= EOC && IsChain(fat, ch) && 2 <= f < |fat| && IsFree(fat, f)
    ensures IsChain(Extend(fat, ch[|ch| - 1], f), ch + [f])
    ensures f !in ch
    ensures forall c :: 0 <= c < |fat| && c != f && c != ch[|ch| - 1] ==> Extend(fat, ch[|ch| - 1], f)[c] == fat[c]
  {
    if f in ch { ChainUsed(fat, ch, f); }
    var last := |ch| - 1;
    var g := Extend(fat, ch[last], f);
    var e := ch + [f];
    forall i | 0 <= i < |e| - 1 ensures Next(g, e[i]) == e[i + 1] {
      if i < last {
        ChainDistinct(fat, ch, i, last);
        assert ch[i] in ch;
        assert Next(fat, ch[i]) == ch[i + 1];
      }
    }
  }

  /** Lines 490-498: `cl` linked front to back, its last cluster marked LAST. */
  function LinkNew(fat: Fat, cl: seq<nat>, n: nat): (g: Fat)
    requires |fat| <= EOC && n <= |cl| && forall i :: 0 <= i < |cl| ==> cl[i] < |fat|
    ensures |g| == |fat|
  {
    if n == 0 then fat
    else SetLink(LinkNew(fat, cl, n - 1), cl[n - 1], if n == |cl| then LAST else cl[n])
  }

  ghost predicate Distinct(s: seq<nat>) {
    forall i, j :: 0 <= i < j < |s| ==> s[i] != s[j]
  }

  lemma {:induction false} LinkNewEntries(fat: Fat, cl: seq<nat>, n: nat)
    requires |fat| <= EOC && n <= |cl| && Distinct(cl)
    requires forall i :: 0 <= i < |cl| ==> cl[i] < |fat|
    ensures forall c :: 0 <= c < |fat| && c !in cl ==> LinkNew(fat, cl, n)[c] == fat[c]
    ensures forall i :: 0 <= i < n ==> Next(LinkNew(fat, cl, n), cl[i]) == (if i == |cl| - 1 then LAST else cl[i + 1])
    ensures 0 < n == |cl| ==> Next(LinkNew(fat, cl, n), cl[n - 1]) == LAST
  {
    if n > 0 {
      LinkNewEntries(fat, cl, n - 1);
      var g := LinkNew(fat, cl, n - 1);
      assert cl[n - 1] in cl;
      forall i | 0 <= i < n
        ensures Next(LinkNew(fat, cl, n), cl[i]) == (if i == |cl| - 1 then LAST else cl[i + 1])
      {
        if i < n - 1 { assert cl[i] != cl[n - 1]; }
      }
    }
  }

  lemma LinkNewChain(fat: Fat, cl: seq<nat>)
    requires |fat| <= EOC && cl != [] && Distinct(cl)
    requires forall i :: 0 <= i < |cl| ==> 2 <= cl[i] < |fat|
    ensures IsChain(LinkNew(fat, cl, |cl|), cl)
    ensures forall c :: 0 <= c < |fat| && c !in cl ==> LinkNew(fat, cl, |cl|)[c] == fat[c]
  {
    hide *;
    LinkNewEntries(fat, cl, |cl|);
    LinkedIsChain(LinkNew(fat, cl, |cl|), cl);
  }

  lemma LinkedIsChain(g: Fat, cl: seq<nat>)
    requires cl != [] && forall i :: 0 <= i < |cl| ==> 2 <= cl[i] < |g|
    requires forall i :: 0 <= i < |cl| - 1 ==> Next(g, cl[i]) == cl[i + 1]
    requires Next(g, cl[|cl| - 1]) == LAST
    ensures IsChain(g, cl)
  {
    hide Next;
  }
}
