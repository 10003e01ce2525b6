// Freeing a chain, and the invariant that the FAT is a family of pairwise disjoint,
// acyclic, end-marked chains (lib/src/pifat.c, lines 354-415).
module FatFamily {
  import opened Bytes
  import opened FatVolume
  import opened FatChains

  // ----- fat32_free_cluster_chain on any table -----

  /** A link value that is 0, a cluster of the table, or an end mark. */
  predicate IsLink(fat: Fat, x: nat) {
    x == 0 || 2 <= x < |fat| || x >= EOC
  }

  /** Every cluster holds such a link; cycles and shared tails are allowed. */
  ghost predicate InRange(fat: Fat) {
    |fat| <= EOC && forall c :: 2 <= c < |fat| ==> IsLink(fat, Next(fat, c))
  }

  lemma CutInRange(fat: Fat, start: nat)
    requires InRange(fat) && 2 <= start < |fat|
    ensures InRange(SetLink(fat, start, 0))
  {
    var g := SetLink(fat, start, 0);
    forall c | 2 <= c < |g| ensures IsLink(g, Next(g, c)) {
      assert c != start ==> Next(g, c) == Next(fat, c);
    }
  }

  predicate Stops(c: nat) {
    c == 0 || c >= EOC
  }

  ghost function UsedSet(fat: Fat): set<nat> {
    set c: nat | c < |fat| && !IsFree(fat, c)
  }

  /** The table after the loop of lines 408-413; the used entries are its measure. */
  ghost function FreeChain(fat: Fat, start: nat): (g: Fat)
    requires InRange(fat) && IsLink(fat, start)
    ensures |g| == |fat|
    decreases UsedSet(fat), if Stops(start) then 0 else 1
  {
    if Stops(start) then fat
    else
      CutInRange(fat, start);
      assert IsFree(fat, start) ==> UsedSet(SetLink(fat, start, 0)) == UsedSet(fat);
      assert !IsFree(fat, start) ==> start in UsedSet(fat) && start !in UsedSet(SetLink(fat, start, 0));
      FreeChain(SetLink(fat, start, 0), Next(fat, start))
  }

  /** The cluster met after `n` links, standing still at a stop. */
  ghost function Walk(fat: Fat, start: nat, n: nat): nat {
    if n == 0 then start
    else
      var w := Walk(fat, start, n - 1);
      if Stops(w) || w >= |fat| then w else Next(fat, w)
  }

  ghost predicate Reaches(fat: Fat, start: nat, c: nat) {
    exists n: nat :: Walk(fat, start, n) == c
  }

  /** Up to the first return to `start`, walking in the cut table is walking in the original. */
  lemma {:induction false} WalkLift(fat: Fat, start: nat, n: nat)
    requires InRange(fat) && 2 <= start < |fat|
    requires Walk(SetLink(fat, start, 0), Next(fat, start), n) != 0
    ensures Walk(fat, start, n + 1) == Walk(SetLink(fat, start, 0), Next(fat, start), n)
  {
    if n > 0 {
      var g := SetLink(fat, start, 0);
      var w := Walk(g, Next(fat, start), n - 1);
      assert w != 0;
      WalkLift(fat, start, n - 1);
    } else {
      assert Walk(fat, start, 0) == start;
    }
  }

  lemma {:induction false} WalkCut(fat: Fat, start: nat, n: nat)
    requires InRange(fat) && 2 <= start < |fat| && Walk(fat, start, n) != 0
    ensures Walk(fat, start, n) == start || Reaches(SetLink(fat, start, 0), Next(fat, start), Walk(fat, start, n))
  {
    var g := SetLink(fat, start, 0);
    if n > 0 {
      var w := Walk(fat, start, n - 1);
      assert w != 0;
      WalkCut(fat, start, n - 1);
      if w == start {
        assert Walk(g, Next(fat, start), 0) == Walk(fat, start, n);
      } else {
        var m: nat :| Walk(g, Next(fat, start), m) == w;
        assert Walk(g, Next(fat, start), m + 1) == Walk(fat, start, n);
      }
    }
  }

  lemma ReachesStep(fat: Fat, start: nat, c: nat)
    requires InRange(fat) && 2 <= start < |fat| && c != 0
    ensures Reaches(fat, start, c) <==> c == start || Reaches(SetLink(fat, start, 0), Next(fat, start), c)
  {
    var g := SetLink(fat, start, 0);
    if Reaches(fat, start, c) {
      var n: nat :| Walk(fat, start, n) == c;
      WalkCut(fat, start, n);
    }
    if c == start { assert Walk(fat, start, 0) == c; }
    if Reaches(g, Next(fat, start), c) {
      var n: nat :| Walk(g, Next(fat, start), n) == c;
      WalkLift(fat, start, n);
    }
  }

  /** On every in-range table, cyclic or cross-linked ones included, freeing from `start`
      clears the links of exactly the clusters reachable from it and keeps their top bits. */
  lemma {:induction false} FreeChainExact(fat: Fat, start: nat, c: nat)
    requires InRange(fat) && IsLink(fat, start) && c < |fat|
    ensures FreeChain(fat, start)[c] == if 2 <= c && Reaches(fat, start, c) then Merge(fat[c], 0) else fat[c]
    decreases UsedSet(fat), if Stops(start) then 0 else 1
  {
    if Stops(start) {
      if 2 <= c { StopsReachNothing(fat, start, c); }
    } else {
      var g := SetLink(fat, start, 0);
      assert IsFree(fat, start) ==> UsedSet(g) == UsedSet(fat);
      assert !IsFree(fat, start) ==> start in UsedSet(fat) && start !in UsedSet(g);
      CutInRange(fat, start);
      FreeChainExact(g, Next(fat, start), c);
      if 2 <= c { ReachesStep(fat, start, c); }
    }
  }

  lemma StopsReachNothing(fat: Fat, start: nat, c: nat)
    requires |fat| <= EOC && Stops(start) && 0 < c < |fat|
    ensures !Reaches(fat, start, c)
  {
    forall n: nat ensures Walk(fat, start, n) == start {
      StuckAt(fat, start, n);
    }
  }

  lemma {:induction false} StuckAt(fat: Fat, start: nat, n: nat)
    requires Stops(start)
    ensures Walk(fat, start, n) == start
  {
    if n > 0 { StuckAt(fat, start, n - 1); }
  }

  /** From the head of a chain exactly its clusters are reached. */
  lemma {:induction false} WalkChain(fat: Fat, ch: seq<nat>, n: nat)
    requires |fat| <= EOC && IsChain(fat, ch)
    ensures n < |ch| ==> Walk(fat, ch[0], n) == ch[n]
    ensures n >= |ch| ==> Walk(fat, ch[0], n) >= EOC
  {
    if n > 0 {
      WalkChain(fat, ch, n - 1);
      if n < |ch| { assert Next(fat, ch[n - 1]) == ch[n - 1 + 1]; }
    }
  }

  lemma ReachesChain(fat: Fat, ch: seq<nat>, c: nat)
    requires |fat| <= EOC && IsChain(fat, ch) && c < |fat|
    ensures Reaches(fat, ch[0], c) <==> c in ch
  {
    if c in ch {
      var i :| 0 <= i < |ch| && ch[i] == c;
      WalkChain(fat, ch, i);
    }
    if Reaches(fat, ch[0], c) {
      var n: nat :| Walk(fat, ch[0], n) == c;
      WalkChain(fat, ch, n);
    }
  }

  lemma FreeChainOfChain(fat: Fat, ch: seq<nat>)
    requires InRange(fat) && IsChain(fat, ch)
    ensures forall c :: 0 <= c < |fat| ==> FreeChain(fat, ch[0])[c] == if c in ch then Merge(fat[c], 0) else fat[c]
  {
    forall c | 0 <= c < |fat|
      ensures FreeChain(fat, ch[0])[c] == if c in ch then Merge(fat[c], 0) else fat[c]
    {
      FreeChainExact(fat, ch[0], c);
      ReachesChain(fat, ch, c);
    }
  }

  // ----- the family invariant -----

  ghost predicate Apart(a: seq<nat>, b: seq<nat>) {
    forall c :: c in a ==> c !in b
  }

  ghost predicate Held(fam: set<seq<nat>>, c: nat) {
    exists ch :: ch in fam && c in ch
  }

  /** Every used entry lies on exactly one of the chains of `fam`, and they are all chains. */
  ghost predicate Family(fat: Fat, fam: set<seq<nat>>) {
    && 2 <= |fat| <= EOC
    && (forall ch :: ch in fam ==> IsChain(fat, ch))
    && (forall a, b :: a in fam && b in fam && a != b ==> Apart(a, b))
    && (forall c :: 2 <= c < |fat| ==> !IsFree(fat, c) ==> Held(fam, c))
  }

  /** One pass over a family: the chains `keep` survive unchanged, chain `add` is new. */
  lemma FamilySwap(fat: Fat, fam: set<seq<nat>>, gat: Fat, drop: seq<nat>, add: seq<nat>)
    requires Family(fat, fam) && |gat| == |fat| && IsChain(gat, add)
    requires forall c :: c in add ==> c in drop || (2 <= c < |fat| && IsFree(fat, c))
    requires forall c :: 2 <= c < |fat| && c !in add && c !in drop ==> Next(gat, c) == Next(fat, c)
    requires forall c :: 2 <= c < |fat| && c !in add && c in drop ==> IsFree(gat, c)
    requires drop in fam || drop == []
    ensures Family(gat, fam - {drop} + {add})
  {
    hide IsChain, Apart, Held;
    var new_ := fam - {drop} + {add};
    forall ch | ch in fam - {drop} ensures IsChain(gat, ch) && Apart(ch, add) && Apart(add, ch) {
      KeptApart(fat, fam, drop, add, ch);
      SwapKeeps(fat, fam, gat, drop, add, ch);
    }
    forall c | 2 <= c < |fat| && !IsFree(gat, c) ensures Held(new_, c) {
      SwapHeld(fat, fam, gat, drop, add, c);
    }
  }

  lemma SwapKeeps(fat: Fat, fam: set<seq<nat>>, gat: Fat, drop: seq<nat>, add: seq<nat>, ch: seq<nat>)
    requires Family(fat, fam) && |gat| == |fat| && ch in fam && ch != drop && (drop in fam || drop == []) && Apart(ch, add)
    requires forall c :: 2 <= c < |fat| && c !in add && c !in drop ==> Next(gat, c) == Next(fat, c)
    ensures IsChain(gat, ch)
  {
    assert IsChain(fat, ch) && (drop in fam ==> Apart(ch, drop));
    hide Family, IsFree, Next;
    forall c | c in ch ensures Next(fat, c) == Next(gat, c) {
      ChainUsed(fat, ch, c);
    }
    ChainFrame(fat, gat, ch);
  }

  lemma SwapHeld(fat: Fat, fam: set<seq<nat>>, gat: Fat, drop: seq<nat>, add: seq<nat>, c: nat)
    requires Family(fat, fam) && |gat| == |fat| && 2 <= c < |fat| && !IsFree(gat, c)
    requires c !in add && c !in drop ==> Next(gat, c) == Next(fat, c)
    requires c !in add && c in drop ==> IsFree(gat, c)
    ensures Held(fam - {drop} + {add}, c)
  {
    hide IsChain, Apart;
    if c in add {
      assert add in fam - {drop} + {add};
    } else {
      assert !IsFree(fat, c);
      var ch :| ch in fam && c in ch;
      assert ch in fam - {drop} + {add};
    }
  }

  lemma KeptApart(fat: Fat, fam: set<seq<nat>>, drop: seq<nat>, add: seq<nat>, ch: seq<nat>)
    requires Family(fat, fam) && ch in fam && ch != drop && (drop in fam || drop == [])
    requires forall c :: c in add ==> c in drop || (2 <= c < |fat| && IsFree(fat, c))
    ensures Apart(ch, add) && Apart(add, ch)
  {
    forall c | c in ch ensures c !in add {
      ChainUsed(fat, ch, c);
      assert drop in fam ==> Apart(ch, drop);
    }
  }

  /** Appending the free cluster `f` to one chain. */
  lemma FamilyExtend(fat: Fat, fam: set<seq<nat>>, ch: seq<nat>, f: nat)
    requires Family(fat, fam) && ch in fam && 2 <= f < |fat| && IsFree(fat, f)
    ensures Family(Extend(fat, ch[|ch| - 1], f), fam - {ch} + {ch + [f]})
  {
    var g := Extend(fat, ch[|ch| - 1], f);
    ExtendChain(fat, ch, f);
    forall c | 2 <= c < |fat| && c !in ch + [f] && c !in ch ensures Next(g, c) == Next(fat, c) {
      assert c != f && c != ch[|ch| - 1];
    }
    FamilySwap(fat, fam, g, ch, ch + [f]);
  }

  /** Linking distinct free clusters into a new chain. */
  lemma FamilyNew(fat: Fat, fam: set<seq<nat>>, cl: seq<nat>)
    requires Family(fat, fam) && cl != [] && Distinct(cl)
    requires forall i :: 0 <= i < |cl| ==> 2 <= cl[i] < |fat| && IsFree(fat, cl[i])
    ensures Family(LinkNew(fat, cl, |cl|), fam + {cl})
  {
    hide LinkNew, Distinct;
    LinkNewChain(fat, cl);
    assert [] !in fam;
    hide Family;
    FamilySwap(fat, fam, LinkNew(fat, cl, |cl|), [], cl);
    assert fam - {[]} == fam;
  }

  lemma FamilyInRange(fat: Fat, fam: set<seq<nat>>)
    requires Family(fat, fam)
    ensures InRange(fat)
  {
    forall c | 2 <= c < |fat| ensures IsLink(fat, Next(fat, c)) {
      LinkOfFamily(fat, fam, c);
    }
  }

  lemma LinkOfFamily(fat: Fat, fam: set<seq<nat>>, c: nat)
    requires Family(fat, fam) && 2 <= c < |fat|
    ensures IsLink(fat, Next(fat, c))
  {
    if !IsFree(fat, c) {
      var ch :| ch in fam && c in ch;
      var i :| 0 <= i < |ch| && ch[i] == c;
      if i < |ch| - 1 { assert Next(fat, ch[i]) == ch[i + 1]; }
    }
  }

  /** Freeing a chain of the family returns exactly its clusters. */
  lemma FamilyFree(fat: Fat, fam: set<seq<nat>>, ch: seq<nat>)
    requires Family(fat, fam) && ch in fam
    ensures InRange(fat)
    ensures Family(FreeChain(fat, ch[0]), fam - {ch})
  {
    FamilyInRange(fat, fam);
    var g := FreeChain(fat, ch[0]);
    FreeChainOfChain(fat, ch);
    forall k | k in fam - {ch} ensures IsChain(g, k) {
      assert Apart(k, ch);
      ChainFrame(fat, g, k);
    }
    forall c | 2 <= c < |fat| && !IsFree(g, c) ensures Held(fam - {ch}, c) {
      assert g[c] == fat[c];
      assert !IsFree(fat, c);
      var k :| k in fam && c in k;
      assert k in fam - {ch};
    }
  }
}
