// What a path component is translated to, in any spelling (final/src/mount.c, lines 15-57 and 82-157):
// upper and lower case, long names, and the lookups that follow.
module NameCases {
  import opened Bytes
  import FatVolume
  import opened FatContent
  import opened FatDir
  import opened Paths
  import opened Names
  import opened PathLookup

  /** The same character, or the same letter of the alphabet, in lower case on the left and in upper
      case on the right. */
  predicate Spelled(c: char, u: char) {
    c == u || ('a' <= c <= 'z' && 'A' <= u <= 'Z' && c as int - 'a' as int == u as int - 'A' as int)
  }

  /** `s` is a spelling of `t`. */
  predicate Spells(s: string, t: string) {
    |s| == |t| && forall i :: 0 <= i < |s| ==> Spelled(s[i], t[i])
  }

  /** The same name but for the case of its letters, on either side. */
  predicate SameName(s: string, t: string) {
    |s| == |t| && forall i :: 0 <= i < |s| ==> Spelled(s[i], t[i]) || Spelled(t[i], s[i])
  }

  lemma UpperSpelled(c: char, u: char)
    requires Spelled(c, u)
    ensures UpperChar(c) == UpperChar(u) && (!('a' <= u <= 'z') ==> UpperChar(c) == u)
  {
    if c != u {
      assert (c as int - 32) as char == u;
    }
  }

  lemma UpperSpells(s: string, t: string)
    requires Spells(s, t) && NoLower(t)
    ensures Upper(s) == t
  {
    hide Spelled, UpperChar;
    forall i | 0 <= i < |s| ensures Upper(s)[i] == t[i] {
      UpperSpelled(s[i], t[i]);
    }
  }

  lemma UpperAlike(s: string, t: string)
    requires SameName(s, t)
    ensures Upper(s) == Upper(t)
  {
    hide Spelled, UpperChar;
    forall i | 0 <= i < |s| ensures Upper(s)[i] == Upper(t)[i] {
      if Spelled(s[i], t[i]) { UpperSpelled(s[i], t[i]); } else { UpperSpelled(t[i], s[i]); }
    }
  }

  lemma SpelledDot(c: char, u: char)
    requires Spelled(c, u)
    ensures c == '.' <==> u == '.'
  {
  }

  // ----- which part is the extension -----

  /** The last dot cuts a name in two. */
  lemma DotCuts(name: string, ext: string)
    requires '.' !in ext
    ensures NamePart(name + "." + ext) == name && ExtPart(name + "." + ext) == ext
  {
    var s := name + "." + ext;
    forall i | |name| < i < |s| ensures s[i] != '.' { assert s[i] == ext[i - |name| - 1] && s[i] in ext; }
    LastIs(s, '.', |name|);
    assert s[..|name|] == name && s[|name| + 1..] == ext;
  }

  lemma NoDotCuts(name: string)
    requires '.' !in name
    ensures NamePart(name) == name && ExtPart(name) == ""
  {
    LastIs(name, '.', -1);
  }

  /** A name is refused exactly when more than three characters follow its last dot. */
  lemma RefusedExactly(s: string)
    ensures PosixToFat(s).None? <==> exists a: string, e: string :: s == a + "." + e && '.' !in e && |e| > 3
  {
    var k := LastOf(s, '.');
    if PosixToFat(s).None? {
      assert k >= 0;
      var a, e := s[..k], s[k + 1..];
      assert s == a + "." + e;
      assert '.' !in e;
    }
    if a: string, e: string :| s == a + "." + e && '.' !in e && |e| > 3 {
      DotCuts(a, e);
    }
  }

  // ----- the translation -----

  /** Every spelling of NAME.EXT translates to the directory name of NAME and EXT. */
  lemma AnyCase(name: string, ext: string, n: string, e: string)
    requires |name| <= 8 && |ext| <= 3 && NoLower(name) && NoLower(ext) && '.' !in ext && Spells(n, name) && Spells(e, ext)
    ensures PosixToFat(n + "." + e) == Some(Raw(name, ext))
  {
    hide Spelled, UpperChar, NoLower, Pad;
    forall c | c in e ensures c != '.' {
      var i :| 0 <= i < |e| && e[i] == c;
      SpelledDot(e[i], ext[i]);
    }
    DotCuts(n, e);
    UpperSpells(n, name);
    UpperSpells(e, ext);
  }

  /** And of NAME without an extension. */
  lemma AnyCasePlain(name: string, n: string)
    requires |name| <= 8 && NoLower(name) && '.' !in name && Spells(n, name)
    ensures PosixToFat(n) == Some(Raw(name, ""))
  {
    hide Spelled, UpperChar, NoLower, Pad;
    forall c | c in n ensures c != '.' {
      var i :| 0 <= i < |n| && n[i] == c;
      SpelledDot(n[i], name[i]);
    }
    NoDotCuts(n);
    UpperSpells(n, name);
    assert Upper("") == "";
  }

  /** Of a name of more than eight characters the first six count, followed by "~1". */
  lemma LongName(name: string, ext: string, n: string, e: string)
    requires |name| > 8 && |ext| <= 3 && NoLower(name) && NoLower(ext) && '.' !in ext && Spells(n, name) && Spells(e, ext)
    ensures PosixToFat(n + "." + e) == Some(Raw(name[..6] + "~1", ext))
    ensures '.' !in name ==> PosixToFat(n) == Some(Raw(name[..6] + "~1", ""))
  {
    hide Spelled, UpperChar, Pad;
    forall c | c in e ensures c != '.' {
      var i :| 0 <= i < |e| && e[i] == c;
      SpelledDot(e[i], ext[i]);
    }
    DotCuts(n, e);
    UpperSpells(n[..6], name[..6]);
    UpperSpells(e, ext);
    assert Upper("") == "";
    if '.' !in name {
      forall c | c in n ensures c != '.' {
        var i :| 0 <= i < |n| && n[i] == c;
        SpelledDot(n[i], name[i]);
      }
      NoDotCuts(n);
    }
  }

  lemma {:induction false} LastSame(s: string, t: string)
    requires SameName(s, t)
    ensures LastOf(s, '.') == LastOf(t, '.')
  {
    hide Spelled;
    var k := LastOf(s, '.');
    forall i | 0 <= i < |s| ensures s[i] == '.' <==> t[i] == '.' {
      if Spelled(s[i], t[i]) { SpelledDot(s[i], t[i]); } else { SpelledDot(t[i], s[i]); }
    }
    LastIs(t, '.', k);
  }

  /** Names that differ in case only translate alike. */
  lemma CaseBlind(s: string, t: string)
    requires SameName(s, t)
    ensures PosixToFat(s) == PosixToFat(t)
  {
    hide Spelled, UpperChar, Pad, LastOf;
    LastSame(s, t);
    var k := LastOf(s, '.');
    if k >= 0 { UpperAlike(s[k + 1..], t[k + 1..]); } else { UpperAlike("", ""); }
    UpperAlike(NamePart(s), NamePart(t));
    if |NamePart(s)| > 8 { UpperAlike(NamePart(s)[..6], NamePart(t)[..6]); }
  }

  // ----- lookups -----

  /** Component by component the same names. */
  ghost predicate SameNames(cs: seq<string>, ds: seq<string>) {
    |cs| == |ds| && forall i :: 0 <= i < |cs| ==> SameName(cs[i], ds[i])
  }

  lemma {:induction false} WalkSame(root: nat, find: (nat, string) -> nat, cs: seq<string>, ds: seq<string>)
    requires SameNames(cs, ds)
    ensures Walk(root, find, cs) == Walk(root, find, ds)
  {
    hide SameName, PosixToFat;
    if cs != [] {
      var k := |cs| - 1;
      WalkSame(root, find, cs[..k], ds[..k]);
      CaseBlind(cs[k], ds[k]);
    }
  }

  /** A resolved path leads to the same directory in any mixture of cases. */
  lemma AnyCaseDirectory(v: FatVolume.Volume, root: nat, cs: seq<string>, ds: seq<string>)
    requires AllProper(cs) && AllProper(ds) && SameNames(cs, ds)
    ensures DirCluster(root, Searcher(v), Canonical(cs)) == DirCluster(root, Searcher(v), Canonical(ds))
  {
    hide *;
    DirClusterWalks(root, Searcher(v), cs);
    DirClusterWalks(root, Searcher(v), ds);
    WalkSame(root, Searcher(v), cs, ds);
  }

  /** ... and along the same route. */
  lemma AnyCaseRoute(v: FatVolume.Volume, root: nat, cs: seq<string>, ds: seq<string>, route: seq<nat>)
    requires SameNames(cs, ds)
    ensures Route(v, root, cs, route) <==> Route(v, root, ds, route)
  {
    hide SameName, PosixToFat, Entries;
    forall i, p, q | 0 <= i < |cs| ensures Leads(v, p, cs[i], q) <==> Leads(v, p, ds[i], q) {
      CaseBlind(cs[i], ds[i]);
    }
  }

  /** In a directory of distinct names every spelling of an entry's name finds its start cluster. */
  lemma AnyCaseFinds(v: FatVolume.Volume, dch: seq<nat>, k: nat, name: string, ext: string, n: string, e: string)
    requires FatContent.Fits(v, dch) && k < |ListDir(v, dch)| && Distinct(ListDir(v, dch)) && AllClean(ListDir(v, dch))
    requires |name| <= 8 && |ext| <= 3 && NoLower(name) && NoLower(ext) && '.' !in ext && Spells(n, name) && Spells(e, ext)
    requires RawName(ListDir(v, dch)[k]) == NameBytes(Raw(name, ext)) && Chars(Raw(name, ext))
    ensures PosixToFat(n + "." + e).Some? && SearchList(ListDir(v, dch), NameBytes(PosixToFat(n + "." + e).value)) == StartCluster(ListDir(v, dch)[k])
  {
    hide *;
    AnyCase(name, ext, n, e);
    RawLength(name, ext);
    NameBytesClean(Raw(name, ext));
    LookedUp(v, dch, k, NameBytes(Raw(name, ext)));
    SearchIs(ListDir(v, dch), NameBytes(Raw(name, ext)));
  }

  lemma RawLength(name: string, ext: string)
    requires |name| <= 8 && |ext| <= 3
    ensures |Raw(name, ext)| == 11 && |NameBytes(Raw(name, ext))| == 11
  {
  }
}
