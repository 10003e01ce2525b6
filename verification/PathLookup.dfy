// Names looked up in directories of the volume (final/src/mount.c, lines 109-198): which entry a
// name finds, and which directory a path leads to.
module PathLookup {
  import opened Bytes
  import opened FatVolume
  import opened FatChains
  import opened FatDir
  import opened FatStore
  import FatContent
  import FatFiles
  import Paths
  import Names

  /** The bytes of a C string without its NUL. */
  function NameBytes(s: string): (b: seq<byte>)
    ensures |b| == |s| && forall i :: 0 <= i < |s| ==> b[i] == s[i] as int % 256
  {
    seq(|s|, i requires 0 <= i < |s| => s[i] as int % 256)
  }

  function Text(b: seq<byte>): (s: string)
    ensures |s| == |b| && forall i :: 0 <= i < |b| ==> s[i] as int == b[i]
  {
    seq(|b|, i requires 0 <= i < |b| => b[i] as char)
  }

  /** The eleven name bytes of an entry. */
  function RawName(e: Slot): (r: seq<byte>)
    ensures |r| == 11
  {
    e[..11]
  }

  /** No NUL inside. */
  predicate Clean(name: seq<byte>) { forall i :: 0 <= i < |name| ==> name[i] != 0 }

  // ----- lines 135-156: the search for a directory -----

  /** Lines 140-147; nothing is asked of the entry's directory attribute. */
  predicate Matches(e: Slot, name: seq<byte>) {
    e[0] != FREE && Attr(e) % 16 != 15 && StrnEq(RawName(e) + [0], name + [0], 11)
  }

  function FirstMatch(l: seq<Slot>, name: seq<byte>): (k: nat)
    ensures k <= |l| && (k < |l| ==> Matches(l[k], name)) && forall i :: 0 <= i < k ==> !Matches(l[i], name)
  {
    if l == [] || Matches(l[0], name) then 0 else FirstMatch(l[1..], name) + 1
  }

  /** The cluster found, 0 for none. */
  function SearchList(l: seq<Slot>, name: seq<byte>): nat {
    var k := FirstMatch(l, name);
    if k < |l| then StartCluster(l[k]) else 0
  }

  lemma {:induction false} ListedFrom(bytes: seq<byte>, j: nat, e: Slot)
    requires e in ListFrom(bytes, j)
    ensures Listed(e)
    decreases |bytes| - 32 * j
  {
    var x := SlotAt(bytes, j);
    if !(Listed(x) && e == x) { ListedFrom(bytes, j + 1, e); }
  }

  lemma {:induction false} ListedDir(v: Volume, dch: seq<nat>, e: Slot)
    requires FatContent.Fits(v, dch) && e in ListDir(v, dch)
    ensures Listed(e)
  {
    if e in ListFrom(v.data[dch[0]], 0) { ListedFrom(v.data[dch[0]], 0, e); } else { ListedDir(v, dch[1..], e); }
  }

  /** A string that ends in NUL after `n` others is compared like the `n` others. */
  lemma {:induction false} StrnEqPrefix(a: seq<byte>, b: seq<byte>, x: seq<byte>, y: seq<byte>, n: nat)
    requires Clean(a) && Clean(b) && |a| <= n == |b|
    ensures StrnEq(a + [0] + x, b + y, n) <==> a <= b
  {
    var s, t := a + [0] + x, b + y;
    if a != [] {
      assert s[0] == a[0] != 0 && t[0] == b[0] != 0;
      assert s[1..] == a[1..] + [0] + x && t[1..] == b[1..] + y;
      StrnEqPrefix(a[1..], b[1..], x, y, n - 1);
      assert a <= b <==> a[0] == b[0] && a[1..] <= b[1..];
    }
  }

  /** On names without NUL a listed entry is matched exactly by its own name: the extra tests of
      lines 140-141 never reject what a listing shows. */
  lemma MatchesExactly(v: Volume, dch: seq<nat>, e: Slot, name: seq<byte>)
    requires FatContent.Fits(v, dch) && e in ListDir(v, dch) && |name| == 11 && Clean(name) && Clean(RawName(e))
    ensures Matches(e, name) <==> RawName(e) == name
  {
    ListedDir(v, dch, e);
    StrnEqPrefix(RawName(e), name, [], [0], 11);
    assert RawName(e) + [0] + [] == RawName(e) + [0];
  }

  /** The directory attribute is not looked at: a regular file's entry is taken for a directory's. */
  lemma NoDirectoryTest(e: Slot, name: seq<byte>)
    ensures Matches(e[11 := (Attr(e) + 0x10) % 0x100], name) == Matches(e, name)
  {
    var f: Slot := e[11 := (Attr(e) + 0x10) % 0x100];
    assert RawName(f) == RawName(e) && Attr(f) % 16 == Attr(e) % 16;
  }

  // ----- lines 159-198: the search for an entry -----

  /** The name with its trailing spaces cut (lines 184-190). */
  function Trim(name: seq<byte>): (t: seq<byte>)
    ensures t <= name && (t != [] ==> t[|t| - 1] != 0x20)
    ensures forall i :: |t| <= i < |name| ==> name[i] == 0x20
  {
    if name != [] && name[|name| - 1] == 0x20 then Trim(name[..|name| - 1]) else name
  }

  predicate MatchesTrimmed(e: Slot, name: seq<byte>) {
    var t := Trim(RawName(e));
    StrnEq(t + [0], name + [0], 11)
  }

  function FirstTrimmed(l: seq<Slot>, name: seq<byte>): (k: nat)
    ensures k <= |l| && (k < |l| ==> MatchesTrimmed(l[k], name)) && forall i :: 0 <= i < k ==> !MatchesTrimmed(l[i], name)
  {
    if l == [] || MatchesTrimmed(l[0], name) then 0 else FirstTrimmed(l[1..], name) + 1
  }

  /** An entry is taken exactly when its trimmed name is a prefix of the target: "FOO" is taken for
      "FOOBAR". */
  lemma TrimmedMatches(e: Slot, name: seq<byte>)
    requires |name| == 11 && Clean(name) && Clean(RawName(e))
    ensures MatchesTrimmed(e, name) <==> Trim(RawName(e)) <= name
  {
    var t := Trim(RawName(e));
    forall i | 0 <= i < |t| ensures t[i] != 0 { assert t[i] == RawName(e)[i]; }
    StrnEqPrefix(t, name, [], [0], 11);
    assert t + [0] + [] == t + [0];
  }

  /** The search gives entry `k` with the name asked for if and only if no earlier entry's trimmed
      name is a prefix of it. */
  lemma EntryFound(l: seq<Slot>, name: seq<byte>, k: nat)
    requires k < |l| && RawName(l[k]) == name && Clean(name) && forall i :: 0 <= i < k ==> Clean(RawName(l[i]))
    ensures FirstTrimmed(l, name) == k <==> forall i :: 0 <= i < k ==> !(Trim(RawName(l[i])) <= name)
  {
    TrimmedMatches(l[k], name);
    forall i | 0 <= i < k ensures MatchesTrimmed(l[i], name) <==> Trim(RawName(l[i])) <= name {
      TrimmedMatches(l[i], name);
    }
  }

  // ----- names shown lead back -----

  predicate Distinct(l: seq<Slot>) {
    forall i, j :: 0 <= i < j < |l| ==> RawName(l[i]) != RawName(l[j])
  }

  predicate AllClean(l: seq<Slot>) { forall i :: 0 <= i < |l| ==> Clean(RawName(l[i])) }

  /** Characters of C strings. */
  predicate Chars(s: string) { forall c :: c in s ==> 0 < c as int < 256 }

  lemma CharsJoin(a: string, b: string)
    ensures Chars(a + b) <==> Chars(a) && Chars(b)
  {
    if Chars(a + b) {
      forall c | c in a || c in b ensures 0 < c as int < 256 { assert c in a + b; }
    }
  }

  lemma CharsPad(s: string, n: nat)
    requires |s| <= n
    ensures Chars(Names.Pad(s, n)) <==> Chars(s)
  {
    CharsJoin(s, seq(n - |s|, _ => ' '));
  }

  lemma CharsUpper(s: string)
    requires Chars(s)
    ensures Chars(Names.Upper(s))
  {
    forall c | c in Names.Upper(s) ensures 0 < c as int < 256 {
      var i :| 0 <= i < |s| && Names.Upper(s)[i] == c;
      assert s[i] in s;
    }
  }

  lemma CharsParts(s: string)
    requires Chars(s)
    ensures Chars(Names.NamePart(s)) && Chars(Names.ExtPart(s)) && (|s| >= 6 ==> Chars(s[..6]))
  {
    var k := Names.LastOf(s, '.');
    if k >= 0 { CharsCut(s, k); CharsCut(s, k + 1); }
    if |s| >= 6 { CharsCut(s, 6); }
  }

  lemma CharsCut(s: string, k: nat)
    requires k <= |s| && Chars(s)
    ensures Chars(s[..k]) && Chars(s[k..])
  {
    CharsJoin(s[..k], s[k..]);
    assert s[..k] + s[k..] == s;
  }

  lemma CharsShort(n: string)
    requires Chars(n)
    ensures Chars(Names.Short(n))
  {
    hide Chars;
    CharsParts(n);
    if |n| > 8 {
      CharsUpper(n[..6]);
      CharsJoin(Names.Upper(n[..6]), "~1");
      assert Chars("~1") by { TildeOne(); }
    } else {
      CharsUpper(n);
    }
  }

  lemma TildeOne()
    ensures Chars("~1") && Chars(".")
  {
  }

  lemma CharsFat(s: string)
    requires Chars(s) && Names.PosixToFat(s).Some?
    ensures Chars(Names.PosixToFat(s).value)
  {
    hide Chars, Names.Pad, Names.Short, Names.Upper, Names.NamePart, Names.ExtPart;
    var n, x := Names.NamePart(s), Names.ExtPart(s);
    CharsParts(s);
    CharsShort(n);
    CharsUpper(x);
    CharsPad(Names.Short(n), 8);
    CharsPad(Names.Upper(x), 3);
    CharsJoin(Names.Pad(Names.Short(n), 8), Names.Pad(Names.Upper(x), 3));
  }

  lemma NameBytesClean(s: string)
    requires Chars(s)
    ensures Clean(NameBytes(s)) && Text(NameBytes(s)) == s
  {
    forall i | 0 <= i < |s| ensures NameBytes(s)[i] == s[i] as int != 0 { assert s[i] in s; }
  }

  /** In a directory whose names are distinct and hold no NUL, looking up the name a listing shows
      for an entry leads back to that entry if and only if the entry has no lower-case letter and
      no misleading dot. */
  lemma ShownNameFinds(v: Volume, dch: seq<nat>, k: nat, name: string, ext: string)
    requires FatContent.Fits(v, dch) && k < |ListDir(v, dch)| && Distinct(ListDir(v, dch)) && AllClean(ListDir(v, dch))
    requires |name| <= 8 && |ext| <= 3 && ' ' !in name && ' ' !in ext
    requires Text(RawName(ListDir(v, dch)[k])) == Names.Raw(name, ext)
    ensures var fat := Names.PosixToFat(Names.FatToPosix(Names.Raw(name, ext))); fat.Some? && FirstMatch(ListDir(v, dch), NameBytes(fat.value)) == k <==> Names.FindsItself(name, ext)
  {
    var l, raw := ListDir(v, dch), Names.Raw(name, ext);
    var posix := Names.FatToPosix(raw);
    var fat := Names.PosixToFat(posix);
    Names.NameRoundTrip(name, ext);
    assert Clean(RawName(l[k]));
    CleanChars(RawName(l[k]));
    RawBytes(RawName(l[k]), raw);
    ShownChars(raw, name, ext);
    if fat.Some? {
      CharsFat(posix);
      NameBytesClean(fat.value);
      LookedUp(v, dch, k, NameBytes(fat.value));
      if NameBytes(fat.value) == NameBytes(raw) { NameBytesClean(raw); }
    }
  }

  lemma CleanChars(b: seq<byte>)
    requires Clean(b)
    ensures Chars(Text(b))
  {
  }

  lemma RawBytes(b: seq<byte>, s: string)
    requires Text(b) == s
    ensures NameBytes(s) == b
  {
    assert forall i :: 0 <= i < |b| ==> s[i] as int == b[i];
  }

  lemma ShownChars(raw: string, name: string, ext: string)
    requires |name| <= 8 && |ext| <= 3 && ' ' !in name && ' ' !in ext && raw == Names.Raw(name, ext) && Chars(raw)
    ensures Chars(Names.FatToPosix(raw))
  {
    hide Chars, Names.Pad, Names.FatToPosix;
    Names.ReadsAs(name, ext);
    CharsJoin(Names.Pad(name, 8), Names.Pad(ext, 3));
    CharsPad(name, 8);
    CharsPad(ext, 3);
    TildeOne();
    CharsJoin(".", ext);
    CharsJoin(name, if ext == "" then "" else "." + ext);
  }

  /** Among distinct clean names a lookup hits entry `k` exactly for that entry's name. */
  lemma LookedUp(v: Volume, dch: seq<nat>, k: nat, name: seq<byte>)
    requires FatContent.Fits(v, dch) && k < |ListDir(v, dch)| && Distinct(ListDir(v, dch)) && AllClean(ListDir(v, dch))
    requires |name| == 11 && Clean(name)
    ensures FirstMatch(ListDir(v, dch), name) == k <==> RawName(ListDir(v, dch)[k]) == name
  {
    var l := ListDir(v, dch);
    forall i | 0 <= i < |l| ensures Matches(l[i], name) <==> RawName(l[i]) == name {
      MatchesExactly(v, dch, l[i], name);
    }
  }

  // ----- from a path to a directory -----

  /** The chain that starts at cluster `c`, if there is one. */
  ghost function ChainAt(v: Volume, c: nat): (dch: seq<nat>)
    ensures dch != [] ==> IsChain(v.fat, dch) && dch[0] == c
  {
    if exists dch :: IsChain(v.fat, dch) && dch[0] == c then
      var dch :| IsChain(v.fat, dch) && dch[0] == c;
      dch
    else []
  }

  ghost predicate Searchable(v: Volume, c: nat) {
    ChainAt(v, c) != [] && FatContent.Fits(v, ChainAt(v, c)) && FatFiles.Listable(v, ChainAt(v, c))
  }

  /** The entries of the directory at cluster `c`. */
  ghost function Entries(v: Volume, c: nat): seq<Slot> {
    if FatContent.Fits(v, ChainAt(v, c)) then ListDir(v, ChainAt(v, c)) else []
  }

  ghost function Searcher(v: Volume): (f: (nat, string) -> nat)
    ensures forall p, fat :: f(p, fat) == SearchList(Entries(v, p), NameBytes(fat))
  {
    (p, fat) => SearchList(Entries(v, p), NameBytes(fat))
  }

  /** The directories met on the way have chains that can be listed. */
  ghost predicate Walkable(v: Volume, root: nat, path: string)
    decreases |path|
  {
    path == "/" ||
    match Names.SplitPath(path)
    case None => true
    case Some((parent, name)) =>
      Names.PosixToFat(name).Some? ==>
        && Walkable(v, root, parent)
        && (Names.DirCluster(root, Searcher(v), parent) != 0 ==> Searchable(v, Names.DirCluster(root, Searcher(v), parent)))
  }

  /** Lines 135-156. */
  method SearchDirectory(fs: Store, p: nat, name: seq<byte>) returns (c: nat)
    requires fs.Valid() && Searchable(fs.Vol(), p)
    modifies fs.cache.data, fs.cache.tag, fs.cache.valid
    ensures fs.Valid() && fs.Vol() == old(fs.Vol())
    ensures c == SearchList(Entries(fs.Vol(), p), name)
  {
    hide *;
    ghost var v := fs.Vol();
    SearchableParts(v, p);
    var entries := FatFiles.ListDirectory(fs, p, ChainAt(v, p));
    var i := FindMatch(entries, name);
    SearchIs(entries, name);
    c := if i < |entries| then StartCluster(entries[i]) else 0;
  }

  lemma SearchableParts(v: Volume, p: nat)
    requires Searchable(v, p)
    ensures ChainAt(v, p) != [] && FatContent.Fits(v, ChainAt(v, p)) && FatFiles.Listable(v, ChainAt(v, p))
    ensures Entries(v, p) == ListDir(v, ChainAt(v, p))
  {
    hide IsChain;
  }

  lemma SearchIs(l: seq<Slot>, name: seq<byte>)
    ensures var k := FirstMatch(l, name); SearchList(l, name) == if k < |l| then StartCluster(l[k]) else 0
  {
  }

  /** The loop of lines 137-154. */
  method FindMatch(l: seq<Slot>, name: seq<byte>) returns (k: nat)
    ensures k == FirstMatch(l, name)
  {
    k := 0;
    while k < |l|
      invariant k <= |l| && FirstMatch(l, name) == k + FirstMatch(l[k..], name)
    {
      var e := l[k];
      if e[0] == 0xE5 || Attr(e) % 16 == 15 {
        k := k + 1;
        continue;
      }
      if StrnEq(e[..11] + [0], name + [0], 11) {
        return;
      }
      k := k + 1;
    }
  }

  /** `get_dir_cluster_number`; the local buffers hold 256 characters. */
  method DirClusterNumber(fs: Store, root: nat, path: string) returns (c: nat)
    requires fs.Valid() && |path| < 256 && Walkable(fs.Vol(), root, path)
    modifies fs.cache.data, fs.cache.tag, fs.cache.valid
    ensures fs.Valid() && fs.Vol() == old(fs.Vol())
    ensures c == Names.DirCluster(root, Searcher(fs.Vol()), path)
    decreases |path|
  {
    hide *;
    ghost var v := fs.Vol();
    WalkStep(v, root, path);
    if path == "/" { return root; }
    var split := Names.SplitPath(path);
    if split.None? { return 0; }
    var fat := Names.PosixToFat(split.value.1);
    if fat.None? { return 0; }
    StepsParts(v, root, path, split.value.0, split.value.1);
    var p := DirClusterNumber(fs, root, split.value.0);
    if p == 0 { return 0; }
    c := SearchDirectory(fs, p, NameBytes(fat.value));
  }

  /** One level of the recursion. */
  lemma WalkStep(v: Volume, root: nat, path: string)
    requires Walkable(v, root, path)
    ensures path == "/" ==> Names.DirCluster(root, Searcher(v), path) == root
    ensures path != "/" ==> var r := Names.SplitPath(path); r.None? ==> Names.DirCluster(root, Searcher(v), path) == 0
    ensures path != "/" && Names.SplitPath(path).Some? ==> var r := Names.SplitPath(path).value; |r.0| < |path| && (Names.PosixToFat(r.1).None? ==> Names.DirCluster(root, Searcher(v), path) == 0)
    ensures path != "/" && Names.SplitPath(path).Some? && Names.PosixToFat(Names.SplitPath(path).value.1).Some? ==> StepsTo(v, root, path)
  {
    hide Names.PosixToFat, Searchable, SearchList, Entries;
  }

  ghost predicate StepsTo(v: Volume, root: nat, path: string)
    requires path != "/" && Names.SplitPath(path).Some? && Names.PosixToFat(Names.SplitPath(path).value.1).Some?
  {
    var (parent, name) := Names.SplitPath(path).value;
    var p := Names.DirCluster(root, Searcher(v), parent);
    && Walkable(v, root, parent) && (p != 0 ==> Searchable(v, p))
    && Names.DirCluster(root, Searcher(v), path) == if p == 0 then 0 else SearchList(Entries(v, p), NameBytes(Names.PosixToFat(name).value))
  }

  lemma StepsParts(v: Volume, root: nat, path: string, parent: string, name: string)
    requires path != "/" && Names.SplitPath(path) == Names.Some((parent, name)) && Names.PosixToFat(name).Some? && StepsTo(v, root, path)
    ensures var p := Names.DirCluster(root, Searcher(v), parent); Walkable(v, root, parent) && (p != 0 ==> Searchable(v, p))
    ensures var p := Names.DirCluster(root, Searcher(v), parent); Names.DirCluster(root, Searcher(v), path) == if p == 0 then 0 else SearchList(Entries(v, p), NameBytes(Names.PosixToFat(name).value))
  {
    hide Names.DirCluster, Names.PosixToFat, Names.SplitPath, Walkable, Searchable, SearchList;
  }

  /** The first entry of directory `p` that matches the component starts at `q`. */
  ghost predicate Leads(v: Volume, p: nat, component: string, q: nat) {
    && Names.PosixToFat(component).Some?
    && var k := FirstMatch(Entries(v, p), NameBytes(Names.PosixToFat(component).value));
       k < |Entries(v, p)| && q == StartCluster(Entries(v, p)[k])
  }

  /** Directories from the root down, each found in the one before. */
  ghost predicate Route(v: Volume, root: nat, cs: seq<string>, route: seq<nat>) {
    && |route| == |cs| + 1 && route[0] == root
    && forall i :: 0 <= i < |cs| ==> route[i] != 0 && Leads(v, route[i], cs[i], route[i + 1])
  }

  /** A resolved path leads to directory `c` if and only if its components name a route there. */
  lemma PathResolves(v: Volume, root: nat, cs: seq<string>, c: nat)
    requires Paths.AllProper(cs) && c != 0
    ensures Names.DirCluster(root, Searcher(v), Paths.Canonical(cs)) == c <==> exists route :: Route(v, root, cs, route) && route[|cs|] == c
  {
    Names.DirClusterWalks(root, Searcher(v), cs);
    if Names.Walk(root, Searcher(v), cs) == c {
      var route := WalkRoute(v, root, cs);
    }
    if route :| Route(v, root, cs, route) && route[|cs|] == c {
      RouteWalk(v, root, cs, route);
    }
  }

  lemma {:induction false} WalkRoute(v: Volume, root: nat, cs: seq<string>) returns (route: seq<nat>)
    requires Names.Walk(root, Searcher(v), cs) != 0
    ensures Route(v, root, cs, route) && route[|cs|] == Names.Walk(root, Searcher(v), cs)
  {
    hide *;
    WalkLast(v, root, cs);
    if cs == [] {
      route := [root];
      RouteStart(v, root);
    } else {
      var init, c := cs[..|cs| - 1], cs[|cs| - 1];
      LastLeads(v, Names.Walk(root, Searcher(v), init), c, Names.Walk(root, Searcher(v), cs));
      var r := WalkRoute(v, root, init);
      route := r + [Names.Walk(root, Searcher(v), cs)];
      RouteLength(v, root, init, r);
      RouteMore(v, root, init, r, c, Names.Walk(root, Searcher(v), cs));
      assert init + [c] == cs;
    }
  }

  lemma {:induction false} RouteWalk(v: Volume, root: nat, cs: seq<string>, route: seq<nat>)
    requires Route(v, root, cs, route)
    ensures |route| == |cs| + 1 && Names.Walk(root, Searcher(v), cs) == route[|cs|]
  {
    hide *;
    RouteLength(v, root, cs, route);
    WalkLast(v, root, cs);
    if cs != [] {
      var init, c := cs[..|cs| - 1], cs[|cs| - 1];
      assert init + [c] == cs && route[..|cs|] + [route[|cs|]] == route;
      RouteMore(v, root, init, route[..|cs|], c, route[|cs|]);
      RouteWalk(v, root, init, route[..|cs|]);
      LeadsLast(v, route[|cs| - 1], c, Names.Walk(root, Searcher(v), cs), route[|cs|]);
    }
  }

  lemma RouteStart(v: Volume, root: nat)
    ensures Route(v, root, [], [root])
  {
  }

  lemma RouteLength(v: Volume, root: nat, cs: seq<string>, route: seq<nat>)
    requires Route(v, root, cs, route)
    ensures |route| == |cs| + 1 && route[0] == root
  {
  }

  /** One more component. */
  lemma RouteMore(v: Volume, root: nat, cs: seq<string>, route: seq<nat>, c: string, q: nat)
    requires |route| == |cs| + 1
    ensures Route(v, root, cs + [c], route + [q]) <==> Route(v, root, cs, route) && route[|cs|] != 0 && Leads(v, route[|cs|], c, q)
  {
    hide Leads;
    var ds, r := cs + [c], route + [q];
    if Route(v, root, ds, r) {
      forall i | 0 <= i < |cs| ensures route[i] != 0 && Leads(v, route[i], cs[i], route[i + 1]) {
        assert ds[i] == cs[i] && r[i] == route[i] && r[i + 1] == route[i + 1];
      }
      assert ds[|cs|] == c && r[|cs|] == route[|cs|] && r[|cs| + 1] == q;
    }
  }

  /** The last step of a walk. */
  lemma WalkLast(v: Volume, root: nat, cs: seq<string>)
    ensures cs == [] ==> Names.Walk(root, Searcher(v), cs) == root
    ensures cs != [] ==> LastStep(v, Names.Walk(root, Searcher(v), cs[..|cs| - 1]), cs[|cs| - 1], Names.Walk(root, Searcher(v), cs))
  {
    hide Names.PosixToFat, Entries, FirstMatch;
  }

  ghost predicate LastStep(v: Volume, p: nat, c: string, w: nat) {
    w == if p != 0 && Names.PosixToFat(c).Some? then SearchList(Entries(v, p), NameBytes(Names.PosixToFat(c).value)) else 0
  }

  lemma LastLeads(v: Volume, p: nat, c: string, w: nat)
    requires LastStep(v, p, c, w)
    ensures w != 0 ==> p != 0 && Leads(v, p, c, w)
  {
    hide Names.PosixToFat, Entries, FirstMatch;
  }

  lemma LeadsLast(v: Volume, p: nat, c: string, w: nat, q: nat)
    requires LastStep(v, p, c, w) && p != 0 && Leads(v, p, c, q)
    ensures w == q
  {
    hide Names.PosixToFat, Entries, FirstMatch;
  }

  // ----- an entry by name -----

  /** Lines 184-190 on the local copy of the name. */
  method TrimInPlace(a: array<byte>)
    requires a.Length == 12 && a[11] == 0
    modifies a
    ensures var t := Trim(old(a[..11])); a[..] == t + Zeros(12 - |t|)
  {
    ghost var name := a[..11];
    var i := 10;
    ghost var cut := name;
    while i >= 0 && a[i] == 0x20
      invariant -1 <= i <= 10 && cut == name[..i + 1] && Trim(name) == Trim(cut)
      invariant a[..] == cut + Zeros(12 - |cut|)
      decreases i
    {
      assert cut[|cut| - 1] == a[i] && cut[..|cut| - 1] == name[..i];
      a[i] := 0;
      i := i - 1;
      cut := name[..i + 1];
    }
  }

  /** What lies behind the first NUL does not matter. */
  lemma {:induction false} StrnEqStop(a: seq<byte>, x: seq<byte>, b: seq<byte>, n: nat)
    ensures StrnEq(a + [0] + x, b, n) == StrnEq(a + [0], b, n)
  {
    if a != [] && b != [] && n > 0 {
      assert (a + [0] + x)[1..] == a[1..] + [0] + x && (a + [0])[1..] == a[1..] + [0];
      StrnEqStop(a[1..], x, b[1..], n - 1);
    }
  }

  /** Lines 178-191: the trimmed copy compared. */
  method TrimmedEquals(e: Slot, name: seq<byte>) returns (same: bool)
    ensures same == MatchesTrimmed(e, name)
  {
    var a := new byte[12](i requires 0 <= i < 12 => if i < 11 then e[i] else 0);
    ghost var t := Trim(RawName(e));
    assert a[..11] == RawName(e);
    TrimInPlace(a);
    assert Zeros(12 - |t|) == [0] + Zeros(11 - |t|);
    assert a[..] == t + [0] + Zeros(11 - |t|);
    hide *;
    StrnEqStop(t, Zeros(11 - |t|), name + [0], 11);
    MatchIs(e, name);
    same := StrnEq(a[..], name + [0], 11);
  }

  lemma MatchIs(e: Slot, name: seq<byte>)
    ensures MatchesTrimmed(e, name) == StrnEq(Trim(RawName(e)) + [0], name + [0], 11)
  {
  }

  /** The loop of lines 175-195. */
  method FindEntry(l: seq<Slot>, name: seq<byte>) returns (k: nat)
    ensures k == FirstTrimmed(l, name)
  {
    hide MatchesTrimmed;
    k := 0;
    while k < |l|
      invariant k <= |l| && FirstTrimmed(l, name) == k + FirstTrimmed(l[k..], name)
    {
      assert l[k..][0] == l[k] && l[k..][1..] == l[k + 1..];
      var same := TrimmedEquals(l[k], name);
      if same {
        return;
      }
      k := k + 1;
    }
  }

  /** `get_entry_from_directory` for a name already in directory form. */
  method GetEntry(fs: Store, dir: nat, name: seq<byte>) returns (e: Names.Option<Slot>)
    requires fs.Valid() && Searchable(fs.Vol(), dir)
    modifies fs.cache.data, fs.cache.tag, fs.cache.valid
    ensures fs.Valid() && fs.Vol() == old(fs.Vol())
    ensures var l := Entries(fs.Vol(), dir); var k := FirstTrimmed(l, name); e == if k < |l| then Names.Some(l[k]) else Names.None
  {
    hide *;
    SearchableParts(fs.Vol(), dir);
    var entries := FatFiles.ListDirectory(fs, dir, ChainAt(fs.Vol(), dir));
    var k := FindEntry(entries, name);
    e := if k < |entries| then Names.Some(entries[k]) else Names.None;
  }
}
