// 8.3 file names and the walk from a path to a directory (final/src/mount.c, lines 15-157).
module Names {
  import opened Paths

  datatype Option<T> = None | Some(value: T)

  // ----- translations as functions -----

  /** Position of the last `x`, or -1. */
  function LastOf(s: string, x: char): (k: int)
    ensures -1 <= k < |s| && (k >= 0 ==> s[k] == x)
    ensures forall i :: k < i < |s| ==> s[i] != x
  {
    if s == "" then -1 else if s[|s| - 1] == x then |s| - 1 else LastOf(s[..|s| - 1], x)
  }

  function UpperChar(c: char): char {
    if 'a' <= c <= 'z' then (c as int - 32) as char else c
  }

  function Upper(s: string): (r: string)
    ensures |r| == |s| && forall i :: 0 <= i < |s| ==> r[i] == UpperChar(s[i])
  {
    seq(|s|, i requires 0 <= i < |s| => UpperChar(s[i]))
  }

  function Pad(s: string, n: nat): (r: string)
    requires |s| <= n
    ensures |r| == n && r[..|s|] == s && forall i :: |s| <= i < n ==> r[i] == ' '
  {
    s + seq(n - |s|, _ => ' ')
  }

  /** The eight characters of the name: long names keep six and end in "~1". */
  function Short(name: string): (r: string)
    ensures |r| <= 8
  {
    if |name| > 8 then Upper(name[..6]) + "~1" else Upper(name)
  }

  function NamePart(posix: string): string {
    if LastOf(posix, '.') >= 0 then posix[..LastOf(posix, '.')] else posix
  }

  function ExtPart(posix: string): string {
    if LastOf(posix, '.') >= 0 then posix[LastOf(posix, '.') + 1..] else ""
  }

  /** `translate_filename_posix_to_fat`: fails on extensions of more than three characters. */
  function PosixToFat(posix: string): (r: Option<string>)
    ensures r.Some? ==> |r.value| == 11
  {
    if |ExtPart(posix)| > 3 then None
    else Some(Pad(Short(NamePart(posix)), 8) + Pad(Upper(ExtPart(posix)), 3))
  }

  /** The characters from `i` on up to a space or position `n`. */
  function Word(s: string, i: nat, n: nat): (w: string)
    requires i <= n <= |s|
    ensures |w| <= n - i && ' ' !in w && w == s[i..i + |w|] && (i + |w| < n ==> s[i + |w|] == ' ')
    decreases n - i
  {
    if i == n || s[i] == ' ' then "" else
      var w := Word(s, i + 1, n);
      assert [s[i]] + w == s[i..i + 1 + |w|];
      [s[i]] + w
  }

  function SkipSpaces(s: string, i: nat, n: nat): (k: nat)
    requires i <= n <= |s|
    ensures i <= k <= n && (k < n ==> s[k] != ' ') && forall j :: i <= j < k ==> s[j] == ' '
    decreases n - i
  {
    if i < n && s[i] == ' ' then SkipSpaces(s, i + 1, n) else i
  }

  /** `translate_filename_fat_to_posix`: at most twelve characters. */
  function FatToPosix(fat: string): (r: string)
    requires |fat| == 11
    ensures |r| <= 12
  {
    var e := SkipSpaces(fat, 8, 11);
    Word(fat, 0, 8) + (if e < 11 then "." + Word(fat, e, 11) else "")
  }

  // ----- the round trip -----

  predicate NoLower(s: string) { forall i :: 0 <= i < |s| ==> !('a' <= s[i] <= 'z') }

  /** The raw name of a directory entry with this name and extension. */
  function Raw(name: string, ext: string): string
    requires |name| <= 8 && |ext| <= 3
  {
    Pad(name, 8) + Pad(ext, 3)
  }

  lemma {:induction false} WordOf(s: string, i: nat, n: nat, w: string)
    requires i + |w| <= n <= |s| && s[i..i + |w|] == w && ' ' !in w && (i + |w| < n ==> s[i + |w|] == ' ')
    ensures Word(s, i, n) == w
    decreases |w|
  {
    if w != "" {
      assert s[i] == w[0] && w[0] in w;
      assert s[i + 1..i + 1 + |w[1..]|] == w[1..];
      WordOf(s, i + 1, n, w[1..]);
    }
  }

  lemma {:induction false} SkipAll(s: string, i: nat, n: nat, k: nat)
    requires i <= k <= n <= |s| && (forall j :: i <= j < k ==> s[j] == ' ') && (k < n ==> s[k] != ' ')
    ensures SkipSpaces(s, i, n) == k
    decreases k - i
  {
    if i < k { SkipAll(s, i + 1, n, k); }
  }

  /** A directory entry reads as "NAME" or "NAME.EXT". */
  lemma ReadsAs(name: string, ext: string)
    requires |name| <= 8 && |ext| <= 3 && ' ' !in name && ' ' !in ext
    ensures FatToPosix(Raw(name, ext)) == name + (if ext == "" then "" else "." + ext)
  {
    var f, p, q := Raw(name, ext), Pad(name, 8), Pad(ext, 3);
    assert f[..|name|] == p[..|name|] == name && (|name| < 8 ==> f[|name|] == p[|name|] == ' ');
    assert f[0..0 + |name|] == name;
    WordOf(f, 0, 8, name);
    assert forall i :: 0 <= i < 3 ==> f[8 + i] == q[i];
    assert f[8..8 + |ext|] == q[..|ext|] == ext;
    if ext == "" {
      assert forall j :: 8 <= j < 11 ==> f[j] == q[j - 8];
      SkipAll(f, 8, 11, 11);
    } else {
      assert f[8] == q[..|ext|][0] == ext[0] && ext[0] in ext;
      SkipAll(f, 8, 11, 8);
      WordOf(f, 8, 11, ext);
    }
  }

  lemma {:induction false} LastIs(s: string, x: char, k: int)
    requires -1 <= k < |s| && (k >= 0 ==> s[k] == x) && forall i :: k < i < |s| ==> s[i] != x
    ensures LastOf(s, x) == k
  {
    if k < |s| - 1 { LastIs(s[..|s| - 1], x, k); }
  }

  lemma PadAt(b: string, n: nat, k: nat)
    requires |b| <= n && ' ' !in b && k < n
    ensures Pad(b, n)[k] == ' ' <==> k >= |b|
  {
    if k < |b| { assert Pad(b, n)[..|b|][k] == b[k] && b[k] in b; }
  }

  /** Names in padded fields are told apart by their fields. */
  lemma PadInjective(a: string, b: string, n: nat)
    requires |a| <= n && |b| <= n && ' ' !in b && Pad(a, n) == Pad(b, n) && |a| <= |b|
    ensures a == b
  {
    if |a| < n { PadAt(b, n, |a|); }
    assert a == Pad(a, n)[..|a|] && b == Pad(b, n)[..|b|];
  }

  lemma RawEqual(p: string, q: string, name: string, ext: string)
    requires |p| == 8 && |q| == 3 && |name| <= 8 && |ext| <= 3
    ensures p + q == Raw(name, ext) <==> p == Pad(name, 8) && q == Pad(ext, 3)
  {
    assert (p + q)[..8] == p && (p + q)[8..] == q;
    assert Raw(name, ext)[..8] == Pad(name, 8) && Raw(name, ext)[8..] == Pad(ext, 3);
  }

  lemma UpperSame(s: string)
    ensures Upper(s) == s <==> NoLower(s)
  {
    if Upper(s) == s {
      forall i | 0 <= i < |s| ensures !('a' <= s[i] <= 'z') { assert Upper(s)[i] == s[i]; }
    }
  }

  lemma UpperPad(s: string, n: nat)
    requires |s| <= n && ' ' !in s
    ensures Pad(Upper(s), n) == Pad(s, n) <==> NoLower(s)
  {
    UpperSame(s);
    if Pad(Upper(s), n) == Pad(s, n) { PadInjective(Upper(s), s, n); }
  }

  /** The name a listing shows leads back to its entry exactly when the entry holds no lower-case
      letter and no dot that the translation would take for the separator. */
  predicate FindsItself(name: string, ext: string) {
    NoLower(name) && NoLower(ext) && '.' !in ext && (ext == "" ==> '.' !in name)
  }

  lemma NameRoundTrip(name: string, ext: string)
    requires |name| <= 8 && |ext| <= 3 && ' ' !in name && ' ' !in ext
    ensures PosixToFat(FatToPosix(Raw(name, ext))) == Some(Raw(name, ext)) <==> FindsItself(name, ext)
  {
    hide PosixToFat, FatToPosix, Raw;
    ReadsAs(name, ext);
    assert ext == "" ==> name + "" == name;
    Assoc(name, ".", ext);
    if ext == "" {
      if '.' in name { DotInName(name); } else { PlainName(name); }
    } else {
      if '.' in ext { DotInExt(name, ext); } else { DottedName(name, ext); }
    }
  }

  lemma PlainName(name: string)
    requires |name| <= 8 && ' ' !in name && '.' !in name
    ensures PosixToFat(name) == Some(Raw(name, "")) <==> NoLower(name)
  {
    LastIs(name, '.', -1);
    UpperPad(name, 8);
    RawEqual(Pad(Upper(name), 8), Pad(Upper(""), 3), name, "");
    assert Upper("") == "";
  }

  lemma DottedName(name: string, ext: string)
    requires |name| <= 8 && 0 < |ext| <= 3 && ' ' !in name && ' ' !in ext && '.' !in ext
    ensures PosixToFat(name + "." + ext) == Some(Raw(name, ext)) <==> NoLower(name) && NoLower(ext)
  {
    var s := name + "." + ext;
    forall i | |name| < i < |s| ensures s[i] != '.' { assert s[i] == ext[i - |name| - 1] && s[i] in ext; }
    LastIs(s, '.', |name|);
    assert NamePart(s) == name && ExtPart(s) == ext;
    UpperPad(name, 8);
    UpperPad(ext, 3);
    RawEqual(Pad(Upper(name), 8), Pad(Upper(ext), 3), name, ext);
  }

  lemma DotInName(name: string)
    requires |name| <= 8 && ' ' !in name && '.' in name
    ensures PosixToFat(name) != Some(Raw(name, ""))
  {
    var k := LastOf(name, '.');
    assert k >= 0;
    var ext := name[k + 1..];
    if |ext| <= 3 {
      RawEqual(Pad(Short(name[..k]), 8), Pad(Upper(ext), 3), name, "");
      if ext == "" {
        assert |Short(name[..k])| == k && Pad(Short(name[..k]), 8)[k] == ' ';
        PadAt(name, 8, k);
      } else {
        assert name[k + 1] in name && Upper(ext)[0] == UpperChar(name[k + 1]);
        assert Pad(Upper(ext), 3)[0] == Pad(Upper(ext), 3)[..|ext|][0] != ' ';
        assert Pad("", 3)[0] == ' ';
      }
    }
  }

  lemma DotInExt(name: string, ext: string)
    requires |name| <= 8 && |ext| <= 3 && ' ' !in name && ' ' !in ext && '.' in ext
    ensures PosixToFat(name + "." + ext) != Some(Raw(name, ext))
  {
    var s := name + "." + ext;
    var j := LastOf(ext, '.');
    assert j >= 0;
    forall i | |name| + 1 + j < i < |s| ensures s[i] != '.' { assert s[i] == ext[i - |name| - 1]; }
    LastIs(s, '.', |name| + 1 + j);
    var e := ext[j + 1..];
    assert ExtPart(s) == e;
    RawEqual(Pad(Short(NamePart(s)), 8), Pad(Upper(e), 3), name, ext);
    PadAt(ext, 3, |e|);
    assert Pad(Upper(e), 3)[|e|] == ' ';
  }

  // ----- from a path to a directory -----

  /** `split_path`; None is -EINVAL. */
  function SplitPath(path: string): (r: Option<(string, string)>)
    ensures r.Some? ==> path == "/" || |r.value.0| < |path|
  {
    var k := LastSlash(path);
    if path == "/" then Some(("/", ""))
    else if k < 0 then None
    else if k == 0 then Some(("/", path[1..]))
    else Some((path[..k], path[k + 1..]))
  }

  /** Every path but "/" is cut at its last slash; without one it is refused. */
  lemma SplitExact(path: string, d: string, n: string)
    requires path != "/"
    ensures SplitPath(path) == Some((d, n)) <==> '/' !in n && ((d == "/" && path == "/" + n) || (d != "" && path == d + "/" + n))
    ensures SplitPath(path) == None <==> '/' !in path
  {
    var k := LastSlash(path);
    SlashLast(path, k);
    if k >= 0 { assert path == path[..k] + "/" + path[k + 1..]; }
    if '/' !in n && path == "/" + n { SlashLast(path, 0); assert path[1..] == n; }
    if '/' !in n && d != "" && path == d + "/" + n {
      SlashLast(path, |d|);
      assert path[..|d|] == d && path[|d| + 1..] == n;
    }
  }

  lemma {:induction false} SlashLast(s: string, k: int)
    ensures forall i :: LastSlash(s) < i < |s| ==> s[i] != '/'
    ensures 0 <= k < |s| && s[k] == '/' && '/' !in s[k + 1..] ==> LastSlash(s) == k
  {
    if s != "" && s[|s| - 1] != '/' {
      var init := s[..|s| - 1];
      SlashLast(init, k);
      forall i | LastSlash(s) < i < |s| ensures s[i] != '/' { if i < |s| - 1 { assert s[i] == init[i]; } }
      if 0 <= k < |s| - 1 && '/' !in s[k + 1..] {
        assert s[k + 1..] == init[k + 1..] + [s[|s| - 1]];
      }
    } else if s != "" && 0 <= k < |s| - 1 {
      assert s[k + 1..][|s| - k - 2] == '/';
    }
  }

  /** Splitting a resolved path gives its directory and its last component. */
  lemma SplitCanonical(r: seq<string>)
    requires AllProper(r) && r != []
    ensures SplitPath(Canonical(r)) == Some((Canonical(r[..|r| - 1]), r[|r| - 1]))
  {
    hide *;
    var init, c := r[..|r| - 1], r[|r| - 1];
    LastProper(r);
    assert r == init + [c];
    JoinedMore(init, c);
    JoinedStart(init);
    JoinedStart(r);
    SlashBefore(Joined(init), c);
    SplitAt(Joined(init), c);
    CanonicalIs(r);
    CanonicalIs(init);
  }

  lemma LastProper(r: seq<string>)
    requires AllProper(r) && r != []
    ensures Proper(r[|r| - 1]) && r[|r| - 1] != "" && '/' !in r[|r| - 1]
  {
  }

  lemma CanonicalIs(r: seq<string>)
    ensures Canonical(r) == if r == [] then "/" else Joined(r)
  {
    hide Joined;
  }

  lemma SplitAt(d: string, c: string)
    requires c != "" && LastSlash(d + "/" + c) == |d|
    ensures SplitPath(d + "/" + c) == Some((if d == "" then "/" else d, c))
  {
    hide LastSlash;
    var s := d + "/" + c;
    assert s[|d| + 1..] == c && s[..|d|] == d && |s| > 1;
  }

  /** `get_dir_cluster_number`, over what finding a name in a directory returns (0 for not found). */
  function DirCluster(root: nat, find: (nat, string) -> nat, path: string): nat
    decreases |path|
  {
    if path == "/" then root
    else match SplitPath(path)
      case None => 0
      case Some((parent, name)) =>
        match PosixToFat(name)
        case None => 0
        case Some(fat) =>
          var p := DirCluster(root, find, parent);
          if p == 0 then 0 else find(p, fat)
  }

  /** The walk over the components, from the root down. */
  function Walk(root: nat, find: (nat, string) -> nat, cs: seq<string>): nat {
    if cs == [] then root
    else
      var p := Walk(root, find, cs[..|cs| - 1]);
      var fat := PosixToFat(cs[|cs| - 1]);
      if p == 0 || fat.None? then 0 else find(p, fat.value)
  }

  /** On a resolved path the recursion over parents is that walk. */
  lemma {:induction false} DirClusterWalks(root: nat, find: (nat, string) -> nat, cs: seq<string>)
    requires AllProper(cs)
    ensures DirCluster(root, find, Canonical(cs)) == Walk(root, find, cs)
  {
    if cs != [] {
      SplitCanonical(cs);
      DirClusterWalks(root, find, cs[..|cs| - 1]);
      JoinedLong(cs);
      hide PosixToFat, SplitPath, Canonical;
    }
  }

  lemma JoinedLong(cs: seq<string>)
    requires AllProper(cs) && cs != []
    ensures Canonical(cs) != "/"
  {
    assert Proper(cs[0]);
    assert |Joined(cs)| >= 1 + |cs[0]|;
  }
}
