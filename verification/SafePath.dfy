// `safe_path` on its buffer (final/src/mount.c, lines 203-282). The string is the part of the
// array before its first NUL.
module SafePath {
  import opened Paths

  /** The first `n` characters are a C string. */
  predicate IsString(dest: array<char>, n: nat)
    reads dest
  {
    n < dest.Length && dest[n] == '\0' && '\0' !in dest[..n]
  }

  /** The buffer during a pass over string `s`: `out` written so far, and the rest of `s` with its
      NUL still in place from `src` on, so a pass never reads a byte it has overwritten. */
  ghost predicate Passing(dest: array<char>, s: string, out: string, src: nat)
    reads dest
  {
    && |out| <= src <= |s| < dest.Length && '\0' !in s && dest[..|out|] == out
    && dest[|s|] == '\0' && forall k :: src <= k < |s| ==> dest[k] == s[k]
  }

  /** What the next characters are, as far as the code looks. */
  lemma Ahead(dest: array<char>, s: string, out: string, src: nat, k: nat)
    requires Passing(dest, s, out, src) && src + k <= |s|
    ensures dest[src + k] == '\0' <==> src + k == |s|
    ensures src + k < |s| ==> dest[src + k] == s[src..][k]
  {
    if src + k < |s| { assert s[src + k] in s; }
  }

  lemma StartPass(dest: array<char>, n: nat)
    requires IsString(dest, n)
    ensures Passing(dest, dest[..n], "", 0)
  {
    assert dest[..0] == "";
  }

  /** `*dst++ = *src++`. */
  method CopyChar(dest: array<char>, ghost s: string, ghost out: string, dst: nat, src: nat)
    requires Passing(dest, s, out, src) && dst == |out| && src < |s|
    modifies dest
    ensures Passing(dest, s, out + [s[src]], src + 1)
  {
    dest[dst] := dest[src];
    assert dest[..dst + 1] == dest[..dst] + [s[src]];
  }

  /** `*dst = 0`. */
  method Finish(dest: array<char>, ghost s: string, ghost out: string, dst: nat)
    requires Passing(dest, s, out, |s|) && dst == |out| && '\0' !in out
    modifies dest
    ensures IsString(dest, dst) && dest[..dst] == out
  {
    dest[dst] := '\0';
  }

  lemma {:induction false} SqueezeLetters(s: string)
    requires '\0' !in s
    ensures '\0' !in Squeeze(s) && |Squeeze(s)| <= |s|
  {
    if s != "" { SqueezeLetters(s[1..]); }
  }

  lemma {:induction false} NoDotsLetters(s: string)
    requires '\0' !in s
    ensures '\0' !in NoDots(s) && |NoDots(s)| <= |s|
  {
    if s != "" {
      NoDotsLetters(s[1..]);
      if AtDot(s) { NoDotsLetters(s[2..]); }
    }
  }

  lemma {:induction false} UpLetters(s: string, out: string)
    requires '\0' !in s && '\0' !in out
    ensures '\0' !in Up(s, out) && |Up(s, out)| <= |out| + |s|
    decreases |s|
  {
    if s != "" {
      if AtUp(s) { UpLetters(s[3..], if LastSlash(out) >= 0 then out[..LastSlash(out)] else out); }
      else { UpLetters(s[1..], out + [s[0]]); }
    }
  }

  lemma SqueezeTurn(s: string, src: nat, out: string)
    requires src < |s| && out + Squeeze(s[src..]) == Squeeze(s)
    ensures if src + 1 < |s| && s[src] == '/' && s[src + 1] == '/' then out + Squeeze(s[src + 1..]) == Squeeze(s) else out + [s[src]] + Squeeze(s[src + 1..]) == Squeeze(s)
  {
    assert s[src..][1..] == s[src + 1..];
  }

  /** Lines 221-232. */
  method SqueezePass(dest: array<char>, ghost n: nat) returns (m: nat)
    requires IsString(dest, n)
    modifies dest
    ensures m <= n && IsString(dest, m) && dest[..m] == Squeeze(old(dest[..n]))
  {
    ghost var s, out := dest[..n], "";
    StartPass(dest, n);
    assert s[0..] == s;
    var src, dst := 0, 0;
    hide Squeeze, Passing;
    Ahead(dest, s, out, src, 0);
    while dest[src] != '\0'
      invariant src <= n < dest.Length && Passing(dest, s, out, src) && dst == |out| && (dest[src] == '\0' <==> src == n)
      invariant out + Squeeze(s[src..]) == Squeeze(s)
      decreases n - src
    {
      Ahead(dest, s, out, src, 0);
      Ahead(dest, s, out, src, 1);
      SqueezeTurn(s, src, out);
      if dest[src] == '/' && dest[src + 1] == '/' {
        Skip(dest, s, out, src, 1);
        src := src + 1;
      } else {
        CopyChar(dest, s, out, dst, src);
        out := out + [s[src]];
        src, dst := src + 1, dst + 1;
      }
      Ahead(dest, s, out, src, 0);
    }
    SqueezeEnd(s, out);
    SqueezeLetters(s);
    Finish(dest, s, out, dst);
    m := dst;
  }

  lemma Skip(dest: array<char>, s: string, out: string, src: nat, k: nat)
    requires Passing(dest, s, out, src) && src + k <= |s|
    ensures Passing(dest, s, out, src + k)
  {
  }

  lemma SqueezeEnd(s: string, out: string)
    requires out + Squeeze(s[|s|..]) == Squeeze(s)
    ensures out == Squeeze(s)
  {
    assert s[|s|..] == "";
  }

  lemma NoDotsTurn(s: string, src: nat, out: string)
    requires src < |s| && out + NoDots(s[src..]) == NoDots(s)
    ensures if AtDot(s[src..]) then src + 2 <= |s| && out + NoDots(s[src + 2..]) == NoDots(s) else out + [s[src]] + NoDots(s[src + 1..]) == NoDots(s)
  {
    assert s[src..][1..] == s[src + 1..];
    if AtDot(s[src..]) { assert s[src..][2..] == s[src + 2..]; }
  }

  lemma NoDotsEnd(s: string, out: string)
    requires out + NoDots(s[|s|..]) == NoDots(s)
    ensures out == NoDots(s)
  {
    assert s[|s|..] == "";
  }

  /** The test of line 238. */
  method SeesDot(dest: array<char>, ghost s: string, ghost out: string, src: nat) returns (b: bool)
    requires Passing(dest, s, out, src) && src < |s|
    ensures b == AtDot(s[src..])
  {
    Ahead(dest, s, out, src, 0);
    Ahead(dest, s, out, src, 1);
    if src + 2 <= |s| { Ahead(dest, s, out, src, 2); }
    b := dest[src] == '/' && dest[src + 1] == '.' && (dest[src + 2] == '/' || dest[src + 2] == '\0');
  }

  /** Lines 234-245. */
  method NoDotsPass(dest: array<char>, ghost n: nat) returns (m: nat)
    requires IsString(dest, n)
    modifies dest
    ensures m <= n && IsString(dest, m) && dest[..m] == NoDots(old(dest[..n]))
  {
    ghost var s, out := dest[..n], "";
    StartPass(dest, n);
    assert s[0..] == s;
    var src, dst := 0, 0;
    hide NoDots, Passing, AtDot;
    Ahead(dest, s, out, src, 0);
    while dest[src] != '\0'
      invariant src <= n < dest.Length && Passing(dest, s, out, src) && dst == |out| && (dest[src] == '\0' <==> src == n)
      invariant out + NoDots(s[src..]) == NoDots(s)
      decreases n - src
    {
      NoDotsTurn(s, src, out);
      var dot := SeesDot(dest, s, out, src);
      if dot {
        Skip(dest, s, out, src, 2);
        src := src + 2;
      } else {
        CopyChar(dest, s, out, dst, src);
        out := out + [s[src]];
        src, dst := src + 1, dst + 1;
      }
      Ahead(dest, s, out, src, 0);
    }
    NoDotsEnd(s, out);
    NoDotsLetters(s);
    Finish(dest, s, out, dst);
    m := dst;
  }

  /** The test of line 252. */
  method SeesUp(dest: array<char>, ghost s: string, ghost out: string, src: nat) returns (b: bool)
    requires Passing(dest, s, out, src) && src < |s|
    ensures b == AtUp(s[src..])
  {
    Ahead(dest, s, out, src, 0);
    Ahead(dest, s, out, src, 1);
    if src + 2 <= |s| { Ahead(dest, s, out, src, 2); }
    if src + 3 <= |s| { Ahead(dest, s, out, src, 3); }
    b := dest[src] == '/' && dest[src + 1] == '.' && dest[src + 2] == '.' && (dest[src + 3] == '/' || dest[src + 3] == '\0');
  }

  lemma UpTurn(s: string, src: nat, out: string)
    requires src < |s|
    ensures AtUp(s[src..]) ==> src + 3 <= |s| && Up(s[src..], out) == Up(s[src + 3..], if LastSlash(out) >= 0 then out[..LastSlash(out)] else out)
    ensures !AtUp(s[src..]) ==> Up(s[src..], out) == Up(s[src + 1..], out + [s[src]])
  {
    assert s[src..][1..] == s[src + 1..];
    if AtUp(s[src..]) { assert s[src..][3..] == s[src + 3..]; }
  }

  lemma UpEnd(s: string, out: string)
    ensures Up(s[|s|..], out) == out
  {
    assert s[|s|..] == "";
  }

  lemma SlashNext(out: string, c: char)
    ensures LastSlash(out + [c]) == if c == '/' then |out| else LastSlash(out)
  {
    assert (out + [c])[..|out|] == out;
  }

  /** Lines 261-265: the last slash of what is left of the output. */
  method FindLastSlash(dest: array<char>, dst: nat) returns (last: int)
    requires dst <= dest.Length
    ensures last == LastSlash(dest[..dst])
  {
    last := -1;
    for p := 0 to dst
      invariant last == LastSlash(dest[..p])
    {
      SlashNext(dest[..p], dest[p]);
      assert dest[..p + 1] == dest[..p] + [dest[p]];
      if dest[p] == '/' { last := p; }
    }
  }

  lemma Backwards(dest: array<char>, s: string, out: string, src: nat, k: nat)
    requires Passing(dest, s, out, src) && k <= |out|
    ensures Passing(dest, s, out[..k], src) && dest[..k] == out[..k]
  {
    assert dest[..k] == out[..k];
  }

  lemma NoNul(dest: array<char>, n: nat, k: nat)
    requires IsString(dest, n) && k <= n
    ensures dest[k] == '\0' <==> k == n
  {
    if k < n { assert dest[..n][k] in dest[..n]; }
  }

  /** Lines 247-273. */
  method UpPass(dest: array<char>, ghost n: nat) returns (m: nat)
    requires IsString(dest, n)
    modifies dest
    ensures m <= n && IsString(dest, m) && dest[..m] == Up(old(dest[..n]), "")
  {
    hide Up, Passing, AtUp, NoDots, Squeeze;
    ghost var s, out := dest[..n], "";
    StartPass(dest, n);
    assert s[0..] == s;
    var src, dst, last := 0, 0, -1;
    Ahead(dest, s, out, src, 0);
    while dest[src] != '\0'
      invariant src <= n < dest.Length && Passing(dest, s, out, src) && dst == |out| && (dest[src] == '\0' <==> src == n)
      invariant Up(s[src..], out) == Up(s, "") && last == LastSlash(out)
      decreases n - src
    {
      Ahead(dest, s, out, src, 0);
      UpTurn(s, src, out);
      var up := SeesUp(dest, s, out, src);
      if up {
        Skip(dest, s, out, src, 3);
        src := src + 3;
        if last >= 0 {
          Backwards(dest, s, out, src, last);
          out := out[..last];
          dst := last;
          last := FindLastSlash(dest, dst);
        }
      } else {
        SlashNext(out, s[src]);
        if dest[src] == '/' { last := dst; }
        CopyChar(dest, s, out, dst, src);
        out := out + [s[src]];
        src, dst := src + 1, dst + 1;
      }
      Ahead(dest, s, out, src, 0);
    }
    UpEnd(s, out);
    UpLetters(s, "");
    Finish(dest, s, out, dst);
    m := dst;
  }

  /** `memcpy(dest, path, strlen(path) + 1)`. */
  method CopyString(path: string, dest: array<char>)
    requires '\0' !in path && |path| < dest.Length
    modifies dest
    ensures IsString(dest, |path|) && dest[..|path|] == path
  {
    for i := 0 to |path|
      invariant dest[..i] == path[..i]
    {
      dest[i] := path[i];
      assert dest[..i + 1] == dest[..i] + [path[i]] && path[..i + 1] == path[..i] + [path[i]];
    }
    dest[|path|] := '\0';
    assert dest[..|path|] == path;
  }

  /** `safe_path`: the buffer holds the path and at least two characters. */
  method MakeSafe(path: string, dest: array<char>) returns (m: nat)
    requires '\0' !in path && |path| < dest.Length && 2 <= dest.Length
    modifies dest
    ensures IsString(dest, m) && dest[..m] == Safe(path)
  {
    hide Squeeze, NoDots, Up;
    CopyString(path, dest);
    m := SqueezePass(dest, |path|);
    m := NoDotsPass(dest, m);
    m := UpPass(dest, m);
    NoNul(dest, m, 0);
    if dest[0] == '\0' {
      dest[0], dest[1] := '/', '\0';
      m := 1;
      assert dest[..1] == "/";
    } else {
      assert m > 0;
    }
  }
}
