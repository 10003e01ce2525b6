// Path resolution (final/src/mount.c, lines 203-282): three in-place passes over a C string,
// and what they compute on the components of a path.
module Paths {

  // ----- the passes as functions of the string -----

  /** Lines 221-232: drop a slash that is followed by a slash. */
  function Squeeze(s: string): string {
    if s == "" then ""
    else if |s| > 1 && s[0] == '/' && s[1] == '/' then Squeeze(s[1..])
    else [s[0]] + Squeeze(s[1..])
  }

  predicate AtDot(s: string) {
    |s| >= 2 && s[0] == '/' && s[1] == '.' && (|s| == 2 || s[2] == '/')
  }

  /** Lines 234-245: drop "/." before a slash or the end. */
  function NoDots(s: string): string {
    if s == "" then ""
    else if AtDot(s) then NoDots(s[2..])
    else [s[0]] + NoDots(s[1..])
  }

  predicate AtUp(s: string) {
    |s| >= 3 && s[0] == '/' && s[1] == '.' && s[2] == '.' && (|s| == 3 || s[3] == '/')
  }

  /** The position of the last slash, or -1. */
  function LastSlash(s: string): (k: int)
    ensures -1 <= k < |s|
    ensures k >= 0 ==> s[k] == '/'
  {
    if s == "" then -1 else if s[|s| - 1] == '/' then |s| - 1 else LastSlash(s[..|s| - 1])
  }

  /** Lines 247-273: ".." takes the output back to its last slash. */
  function Up(s: string, out: string): string
    decreases |s|
  {
    if s == "" then out
    else if AtUp(s) then Up(s[3..], if LastSlash(out) >= 0 then out[..LastSlash(out)] else out)
    else Up(s[1..], out + [s[0]])
  }

  /** `safe_path`. */
  function Safe(path: string): string {
    var s := Up(NoDots(Squeeze(path)), "");
    if s == "" then "/" else s
  }

  // ----- components -----

  /** A component: no slash in it. */
  predicate Plain(c: string) {
    forall i :: 0 <= i < |c| ==> c[i] != '/'
  }

  predicate AllPlain(cs: seq<string>) {
    forall i :: 0 <= i < |cs| ==> Plain(cs[i])
  }

  /** Every component behind a slash of its own. */
  function Joined(cs: seq<string>): string {
    if cs == [] then "" else "/" + cs[0] + Joined(cs[1..])
  }

  function NextSlash(s: string, i: nat): (k: nat)
    requires i <= |s|
    ensures i <= k <= |s| && Plain(s[i..k]) && (k < |s| ==> s[k] == '/')
    decreases |s| - i
  {
    if i == |s| || s[i] == '/' then i
    else
      var k := NextSlash(s, i + 1);
      assert s[i..k] == [s[i]] + s[i + 1..k];
      k
  }

  /** The components of an absolute path, empty ones included. */
  function Split(s: string): (cs: seq<string>)
    requires s == "" || s[0] == '/'
    ensures AllPlain(cs) && Joined(cs) == s && (s != "" ==> cs != [])
  {
    if s == "" then []
    else
      var k := NextSlash(s, 1);
      var rest := Split(s[k..]);
      var cs := [s[1..k]] + rest;
      assert cs[1..] == rest && s == "/" + s[1..k] + s[k..];
      cs
  }

  /** Resolution with a stack: empty components and "." mean nothing, ".." pops, at the root nothing. */
  function Resolve(cs: seq<string>, stack: seq<string>): seq<string> {
    if cs == [] then stack
    else Resolve(cs[1..], Push(stack, cs[0]))
  }

  function Push(stack: seq<string>, c: string): seq<string> {
    if c == "" || c == "." then stack
    else if c == ".." then (if stack == [] then [] else stack[..|stack| - 1])
    else stack + [c]
  }

  function Canonical(stack: seq<string>): string {
    if stack == [] then "/" else Joined(stack)
  }

  // ----- each pass on components -----

  lemma {:induction false} SqueezePlain(c: string, s: string)
    requires Plain(c)
    ensures Squeeze(c + s) == c + Squeeze(s)
  {
    if c == "" { assert c + s == s; }
    else {
      SqueezePlain(c[1..], s);
      assert (c + s)[1..] == c[1..] + s;
    }
  }

  /** Empty components go, except the last component. */
  function Filled(cs: seq<string>): (r: seq<string>) {
    if cs == [] then [] else if cs[0] == "" && |cs| > 1 then Filled(cs[1..]) else [cs[0]] + Filled(cs[1..])
  }

  lemma SqueezeSlash(x: char, t: string)
    ensures Squeeze("/" + [x] + t) == if x == '/' then Squeeze([x] + t) else "/" + Squeeze([x] + t)
  {
    var s := "/" + [x] + t;
    assert s[1..] == [x] + t && s[1] == x;
    SqueezeAt(s);
  }

  lemma SqueezeAt(s: string)
    requires s != ""
    ensures Squeeze(s) == if |s| > 1 && s[0] == '/' && s[1] == '/' then Squeeze(s[1..]) else [s[0]] + Squeeze(s[1..])
  {
  }

  /** A nonempty component is copied with its slash. */
  lemma SqueezeFull(c: string, rest: string)
    requires Plain(c) && c != ""
    ensures Squeeze("/" + c + rest) == "/" + c + Squeeze(rest)
  {
    hide Squeeze;
    PlainFirst(c);
    hide Plain;
    SqueezePlain(c, rest);
    SqueezeSlash(c[0], c[1..] + rest);
    FirstApart("/", c, rest);
    Assoc("/", c, Squeeze(rest));
  }

  lemma PlainFirst(c: string)
    requires Plain(c) && c != ""
    ensures c[0] != '/'
  {
  }

  lemma Assoc(a: string, b: string, c: string)
    ensures a + (b + c) == a + b + c
  {
  }

  lemma FirstApart(a: string, c: string, rest: string)
    requires c != ""
    ensures a + [c[0]] + (c[1..] + rest) == a + c + rest && [c[0]] + (c[1..] + rest) == c + rest
  {
    assert [c[0]] + c[1..] == c;
    Assoc([c[0]], c[1..], rest);
    Assoc(a, c, rest);
    Assoc(a, [c[0]], c[1..] + rest);
  }

  /** The slash of an empty component is dropped before another. */
  lemma SqueezeEmpty(rest: string)
    requires rest != "" && rest[0] == '/'
    ensures Squeeze("/" + rest) == Squeeze(rest)
  {
    var x, t := rest[0], rest[1..];
    assert [x] + t == rest && "/" + [x] + t == "/" + rest;
    SqueezeSlash(x, t);
    hide Squeeze;
  }

  lemma {:induction false} SqueezeJoined(cs: seq<string>)
    requires AllPlain(cs)
    ensures Squeeze(Joined(cs)) == Joined(Filled(cs))
  {
    if cs != [] {
      var rest := Joined(cs[1..]);
      SqueezeJoined(cs[1..]);
      JoinedStart(cs[1..]);
      if cs[0] != "" {
        SqueezeFull(cs[0], rest);
        hide Squeeze;
        assert Filled(cs)[1..] == Filled(cs[1..]) && Filled(cs)[0] == cs[0];
      } else if |cs| > 1 {
        assert Joined(cs) == "/" + rest;
        SqueezeEmpty(rest);
      } else {
        assert cs[1..] == [] && Filled(cs) == cs;
        assert Joined(cs) == "/";
      }
    }
  }

  lemma {:induction false} NoDotsPlain(c: string, s: string)
    requires Plain(c)
    ensures NoDots(c + s) == c + NoDots(s)
  {
    if c == "" { assert c + s == s; }
    else {
      NoDotsPlain(c[1..], s);
      assert (c + s)[1..] == c[1..] + s;
    }
  }

  function Without(cs: seq<string>, x: string): seq<string> {
    if cs == [] then [] else if cs[0] == x then Without(cs[1..], x) else [cs[0]] + Without(cs[1..], x)
  }

  lemma JoinedStart(cs: seq<string>)
    ensures Joined(cs) == "" <==> cs == []
    ensures cs != [] ==> Joined(cs)[0] == '/' && Joined(cs)[1..] == cs[0] + Joined(cs[1..])
  {
  }

  lemma DotHead(c: string, rest: string)
    requires Plain(c) && (rest == "" || rest[0] == '/')
    ensures AtDot("/" + c + rest) <==> c == "."
  {
    var s := "/" + c + rest;
    if |c| == 0 { assert s == "/" + rest; }
    else {
      assert s[1] == c[0];
      if |c| == 1 { assert c == [c[0]] && (|s| > 2 ==> s[2] == rest[0]); } else { assert s[2] == c[1]; }
    }
  }

  lemma UpHead(c: string, rest: string)
    requires Plain(c) && (rest == "" || rest[0] == '/')
    ensures AtUp("/" + c + rest) <==> c == ".."
  {
    var s := "/" + c + rest;
    if |c| == 0 { assert s == "/" + rest; }
    else if |c| == 1 { assert s[1] == c[0] && (|s| > 2 ==> s[2] == rest[0]); }
    else {
      assert s[1] == c[0] && s[2] == c[1];
      if |c| == 2 { assert c == [c[0], c[1]] && (|s| > 3 ==> s[3] == rest[0]); } else { assert s[3] == c[2]; }
    }
  }

  /** The characters show what the next component is. */
  lemma HeadIs(cs: seq<string>)
    requires cs != [] && AllPlain(cs)
    ensures AtDot(Joined(cs)) <==> cs[0] == "."
    ensures AtUp(Joined(cs)) <==> cs[0] == ".."
  {
    JoinedStart(cs[1..]);
    DotHead(cs[0], Joined(cs[1..]));
    UpHead(cs[0], Joined(cs[1..]));
    hide AtDot, AtUp;
  }

  lemma {:induction false} NoDotsJoined(cs: seq<string>)
    requires AllPlain(cs)
    ensures NoDots(Joined(cs)) == Joined(Without(cs, "."))
  {
    hide *;
    if cs == [] {
      NoDotsNone(cs);
    } else {
      var c, rest := cs[0], Joined(cs[1..]);
      RestPlain(cs);
      NoDotsJoined(cs[1..]);
      JoinedStart(cs);
      HeadIs(cs);
      NoDotsHead(c, Joined(cs), rest);
      NoDotsPlain(c, rest);
      WithoutHead(cs, ".");
      Assoc("/", c, NoDots(rest));
    }
  }

  lemma NoDotsNone(cs: seq<string>)
    requires cs == []
    ensures NoDots(Joined(cs)) == Joined(Without(cs, "."))
  {
  }

  lemma RestPlain(cs: seq<string>)
    requires AllPlain(cs) && cs != []
    ensures AllPlain(cs[1..]) && Plain(cs[0])
  {
    hide Plain;
  }

  lemma NoDotsHead(c: string, s: string, rest: string)
    requires s != "" && s[0] == '/' && s[1..] == c + rest && (AtDot(s) <==> c == ".")
    ensures NoDots(s) == if c == "." then NoDots(rest) else "/" + NoDots(c + rest)
  {
    hide AtDot;
    if c == "." { assert s[2..] == s[1..][1..] == rest; }
  }

  lemma WithoutHead(cs: seq<string>, x: string)
    requires cs != []
    ensures cs[0] == x ==> Joined(Without(cs, x)) == Joined(Without(cs[1..], x))
    ensures cs[0] != x ==> Joined(Without(cs, x)) == "/" + cs[0] + Joined(Without(cs[1..], x))
  {
    if cs[0] != x {
      var w := Without(cs, x);
      assert w[0] == cs[0] && w[1..] == Without(cs[1..], x);
    }
  }

  lemma {:induction false} UpPlain(c: string, s: string, out: string)
    requires Plain(c)
    ensures Up(c + s, out) == Up(s, out + c)
  {
    if c == "" { assert c + s == s && out + c == out; }
    else {
      UpPlain(c[1..], s, out + [c[0]]);
      assert (c + s)[1..] == c[1..] + s;
      assert out + [c[0]] + c[1..] == out + c;
    }
  }

  lemma {:induction false} JoinedMore(cs: seq<string>, c: string)
    ensures Joined(cs + [c]) == Joined(cs) + "/" + c
  {
    if cs == [] {
      assert [c][1..] == [];
    } else {
      JoinedMore(cs[1..], c);
      assert (cs + [c])[1..] == cs[1..] + [c];
    }
  }

  lemma {:induction false} SlashBefore(s: string, c: string)
    requires Plain(c)
    ensures LastSlash(s + "/" + c) == |s|
  {
    var t := s + "/" + c;
    if c != "" {
      SlashBefore(s, c[..|c| - 1]);
      assert t[..|t| - 1] == s + "/" + c[..|c| - 1];
    }
  }

  /** "..": the output loses its last component. */
  lemma Popped(stack: seq<string>)
    requires AllPlain(stack)
    ensures stack == [] ==> LastSlash(Joined(stack)) == -1
    ensures stack != [] ==> LastSlash(Joined(stack)) == |Joined(stack[..|stack| - 1])| && Joined(stack)[..LastSlash(Joined(stack))] == Joined(stack[..|stack| - 1])
  {
    if stack != [] {
      var init, c := stack[..|stack| - 1], stack[|stack| - 1];
      assert stack == init + [c];
      JoinedMore(init, c);
      SlashBefore(Joined(init), c);
    }
  }

  /** ".." pops, everything else is pushed. */
  function Climb(cs: seq<string>, stack: seq<string>): seq<string> {
    if cs == [] then stack
    else Climb(cs[1..], if cs[0] != ".." then stack + [cs[0]] else if stack == [] then [] else stack[..|stack| - 1])
  }

  lemma {:induction false} UpJoined(cs: seq<string>, stack: seq<string>)
    requires AllPlain(cs) && AllPlain(stack)
    ensures Up(Joined(cs), Joined(stack)) == Joined(Climb(cs, stack))
    decreases |cs|, 1
  {
    if cs != [] {
      if cs[0] == ".." { UpPops(cs, stack); } else { UpPushes(cs, stack); }
    }
  }

  lemma UpPops(cs: seq<string>, stack: seq<string>)
    requires AllPlain(cs) && AllPlain(stack) && cs != [] && cs[0] == ".."
    ensures Up(Joined(cs), Joined(stack)) == Joined(Climb(cs, stack))
    decreases |cs|, 0
  {
    var s, rest := Joined(cs), Joined(cs[1..]);
    JoinedStart(cs);
    HeadIs(cs);
    Popped(stack);
    assert s[3..] == rest;
    UpJoined(cs[1..], if stack == [] then [] else stack[..|stack| - 1]);
    UpAtUp(s, Joined(stack));
  }

  lemma UpAtUp(s: string, out: string)
    requires AtUp(s)
    ensures Up(s, out) == Up(s[3..], if LastSlash(out) >= 0 then out[..LastSlash(out)] else out)
  {
  }

  lemma UpPushes(cs: seq<string>, stack: seq<string>)
    requires AllPlain(cs) && AllPlain(stack) && cs != [] && cs[0] != ".."
    ensures Up(Joined(cs), Joined(stack)) == Joined(Climb(cs, stack))
    decreases |cs|, 0
  {
    var s, rest, out := Joined(cs), Joined(cs[1..]), Joined(stack);
    JoinedStart(cs);
    HeadIs(cs);
    UpStep(s, out);
    UpPlain(cs[0], rest, out + "/");
    JoinedMore(stack, cs[0]);
    assert out + "/" + cs[0] == Joined(stack + [cs[0]]);
    UpJoined(cs[1..], stack + [cs[0]]);
  }

  lemma UpStep(s: string, out: string)
    requires s != "" && !AtUp(s)
    ensures Up(s, out) == Up(s[1..], out + [s[0]])
  {
  }

  // ----- the three passes together -----

  lemma {:induction false} FilledPlain(cs: seq<string>)
    requires AllPlain(cs)
    ensures AllPlain(Filled(cs)) && (cs != [] ==> Filled(cs) != [] && Last(Filled(cs)) == Last(cs))
  {
    if cs != [] { FilledPlain(cs[1..]); }
  }

  function Last(cs: seq<string>): string
    requires cs != []
  {
    cs[|cs| - 1]
  }

  lemma {:induction false} WithoutPlain(cs: seq<string>, x: string)
    requires AllPlain(cs)
    ensures AllPlain(Without(cs, x))
  {
    if cs != [] { WithoutPlain(cs[1..], x); }
  }

  /** Whether the path ends in a slash, that is, in an empty component. */
  predicate Trailing(cs: seq<string>) { cs != [] && Last(cs) == "" }

  function Tail(b: bool): seq<string> { if b then [""] else [] }

  /** Climbing over what the first two passes leave is resolving, with the last empty component kept. */
  lemma {:induction false} ClimbResolves(cs: seq<string>, stack: seq<string>)
    ensures Climb(Without(Filled(cs), "."), stack) == Resolve(cs, stack) + Tail(Trailing(cs))
    decreases |cs|, 1
  {
    if cs == [] {
    } else if cs[0] == "" && |cs| > 1 {
      ClimbResolves(cs[1..], stack);
      assert Last(cs) == Last(cs[1..]);
    } else {
      ClimbOne(cs, stack);
    }
  }

  lemma OnlyEmpty(stack: seq<string>)
    ensures Without([""], ".") == [""] && Climb([""], stack) == stack + [""]
  {
    var e: string := "";
    assert |e| == 0 && |"."| == 1 && |".."| == 2;
    assert e != "." && e != "..";
    assert [e][1..] == [] && Without([], ".") == [];
    assert Climb([], stack + [e]) == stack + [e];
  }

  lemma ClimbOne(cs: seq<string>, stack: seq<string>)
    requires cs != [] && !(cs[0] == "" && |cs| > 1)
    ensures Climb(Without(Filled(cs), "."), stack) == Resolve(cs, stack) + Tail(Trailing(cs))
    decreases |cs|, 0
  {
    var f := Filled(cs);
    assert f[1..] == Filled(cs[1..]) && f[0] == cs[0];
    var w := Without(f, ".");
    if cs[0] == "" {
      assert cs[1..] == [] && f == [""];
      OnlyEmpty(stack);
    } else {
      ClimbResolves(cs[1..], Push(stack, cs[0]));
      assert Trailing(cs) == Trailing(cs[1..]);
      if cs[0] != "." { assert w[1..] == Without(f[1..], ".") && w[0] == cs[0]; }
    }
  }

  /** On every absolute path `safe_path` is resolution with a stack of components, followed by one
      slash exactly when the path ends in a slash and does not resolve to the root. */
  lemma SafeResolves(path: string)
    requires path != "" && path[0] == '/'
    ensures var r := Resolve(Split(path), []); Safe(path) == Canonical(r) + (if Trailing(Split(path)) && r != [] then "/" else "")
  {
    var cs := Split(path);
    var r := Resolve(cs, []);
    SqueezeJoined(cs);
    FilledPlain(cs);
    NoDotsJoined(Filled(cs));
    WithoutPlain(Filled(cs), ".");
    UpJoined(Without(Filled(cs), "."), []);
    ClimbResolves(cs, []);
    hide Squeeze, NoDots, Up, Filled, Without, Climb, Resolve, Split;
    if Trailing(cs) { JoinedMore(r, ""); } else { assert r + [] == r; }
    JoinedStart(r);
  }

  /** Names that resolution keeps. */
  predicate Proper(c: string) { Plain(c) && c != "" && c != "." && c != ".." }

  predicate AllProper(cs: seq<string>) {
    forall i :: 0 <= i < |cs| ==> Proper(cs[i])
  }

  /** The result holds no empty component, no "." and no "..". */
  lemma {:induction false} ResolveProper(cs: seq<string>, stack: seq<string>)
    requires AllPlain(cs) && AllProper(stack)
    ensures AllProper(Resolve(cs, stack))
  {
    if cs != [] { ResolveProper(cs[1..], Push(stack, cs[0])); }
  }

  lemma {:induction false} ResolveKeeps(cs: seq<string>, stack: seq<string>, b: bool)
    requires AllProper(cs)
    ensures Resolve(cs + Tail(b), stack) == stack + cs
  {
    if cs == [] {
      assert cs + Tail(b) == Tail(b);
      if b { assert Tail(b)[1..] == []; }
      assert stack + cs == stack;
    } else {
      ResolveKeeps(cs[1..], stack + [cs[0]], b);
      assert (cs + Tail(b))[1..] == cs[1..] + Tail(b);
      assert stack + [cs[0]] + cs[1..] == stack + cs;
    }
  }

  lemma {:induction false} NextSlashAt(s: string, i: nat, k: nat)
    requires i <= k <= |s| && Plain(s[i..k]) && (k < |s| ==> s[k] == '/')
    ensures NextSlash(s, i) == k
    decreases k - i
  {
    if i < k {
      assert s[i..k][0] == s[i];
      assert s[i + 1..k] == s[i..k][1..];
      NextSlashAt(s, i + 1, k);
    }
  }

  lemma SlashLength(c: string, rest: string)
    requires Plain(c) && (rest == "" || rest[0] == '/')
    ensures NextSlash("/" + c + rest, 1) == 1 + |c|
  {
    assert ("/" + c + rest)[1..1 + |c|] == c;
    NextSlashAt("/" + c + rest, 1, 1 + |c|);
  }

  /** Components can be read back. */
  lemma {:induction false} SplitJoined(cs: seq<string>)
    requires AllPlain(cs)
    ensures Joined(cs) != "" ==> Joined(cs)[0] == '/'
    ensures Split(Joined(cs)) == cs
  {
    JoinedStart(cs);
    if cs != [] {
      var s, rest := Joined(cs), Joined(cs[1..]);
      SplitJoined(cs[1..]);
      SlashLength(cs[0], rest);
      assert s[1..1 + |cs[0]|] == cs[0] && s[1 + |cs[0]|..] == rest;
    }
  }

  lemma ProperPlain(cs: seq<string>)
    requires AllProper(cs)
    ensures AllPlain(cs) && AllPlain(cs + [""])
  {
  }

  /** A path in resolved form, with or without a last slash, stays as it is. */
  lemma SafeFixed(r: seq<string>, b: bool)
    requires AllProper(r) && (r == [] ==> b)
    ensures Safe(Joined(r + Tail(b))) == Joined(r + Tail(b))
  {
    var cs := r + Tail(b);
    ProperPlain(r);
    assert !b ==> cs == r;
    SplitJoined(cs);
    JoinedStart(cs);
    SafeResolves(Joined(cs));
    ResolveKeeps(r, [], b);
    assert [] + r == r;
    if b { JoinedMore(r, ""); }
    hide Safe, Split, Resolve;
    if b { assert Last(cs) == ""; } else { assert Proper(Last(cs)); }
  }

  /** `safe_path` is idempotent on absolute paths. */
  lemma SafeIdempotent(path: string)
    requires path != "" && path[0] == '/'
    ensures Safe(Safe(path)) == Safe(path)
  {
    var cs := Split(path);
    var r := Resolve(cs, []);
    var b := Trailing(cs) || r == [];
    SafeResolves(path);
    ResolveProper(cs, []);
    SafeFixed(r, b);
    if b { JoinedMore(r, ""); } else { assert r + Tail(b) == r; }
    assert Safe(path) == Joined(r + Tail(b));
  }
}
