// Reading a directory in pages (final/src/mount.c, lines 409-452): the open file's position
// counts the bytes of the records already handed out.
module DirStream {
  import opened Names

  /** A listed directory entry: its raw 11-character name and its attribute byte. */
  datatype Dirent = Dirent(name: string, attr: nat)

  /** One record of the caller's buffer. */
  datatype Record = Record(off: nat, reclen: nat, kind: nat, name: string)

  predicate Named(dir: seq<Dirent>) {
    forall i :: 0 <= i < |dir| ==> |dir[i].name| == 11
  }

  /** Deleted entries and parts of long names are passed over. */
  predicate Hidden(e: Dirent)
    requires |e.name| == 11
  {
    e.name[0] == 0xE5 as char || e.attr % 16 == 15
  }

  function Visible(dir: seq<Dirent>): (vs: seq<Dirent>)
    requires Named(dir)
    ensures Named(vs)
  {
    if dir == [] then [] else Visible(dir[..|dir| - 1]) + (if Hidden(dir[|dir| - 1]) then [] else [dir[|dir| - 1]])
  }

  /** A C string ends at its first NUL. */
  function CString(s: string): (c: string)
    ensures c <= s && '\0' !in c && (|c| < |s| ==> s[|c|] == '\0')
  {
    if s == "" || s[0] == '\0' then "" else [s[0]] + CString(s[1..])
  }

  /** The name a record carries: the translated one up to its first NUL. */
  function ShownName(e: Dirent): (s: string)
    requires |e.name| == 11
    ensures |s| <= 12 && '\0' !in s
  {
    CString(FatToPosix(e.name))
  }

  /** Names without a NUL are shown in full. */
  lemma {:induction false} CStringWhole(s: string)
    ensures CString(s) == s <==> '\0' !in s
  {
    if s != "" && s[0] != '\0' {
      CStringWhole(s[1..]);
      assert s == [s[0]] + s[1..];
    }
  }

  /** The record's length: a 24-byte header, the name and its NUL, rounded up to 8. */
  function RecLen(e: Dirent): (n: nat)
    requires |e.name| == 11
    ensures 32 <= n <= 40
  {
    Rounded(|ShownName(e)|)
  }

  function Rounded(name: nat): (n: nat)
    ensures name <= 12 ==> 32 <= n <= 40
  {
    (24 + name + 1 + 7) / 8 * 8
  }

  function Rec(e: Dirent, end: nat): Record
    requires |e.name| == 11
  {
    Record(end, RecLen(e), if e.attr / 16 % 2 == 1 then 4 else 8, ShownName(e))
  }

  datatype Page = Page(recs: seq<Record>, bytes: nat)

  /** What one call hands out from entry `v` on, with `skip` bytes to pass over and `used` bytes
      of the buffer taken. */
  function Fill(vs: seq<Dirent>, v: nat, skip: nat, used: nat, count: nat): Page
    requires Named(vs)
    decreases |vs| - v
  {
    if v >= |vs| then Page([], 0)
    else if skip >= RecLen(vs[v]) then Fill(vs, v + 1, skip - RecLen(vs[v]), used, count)
    else if used + RecLen(vs[v]) > count then Page([], 0)
    else
      var rest := Fill(vs, v + 1, skip, used + RecLen(vs[v]), count);
      Page([Rec(vs[v], used + RecLen(vs[v]))] + rest.recs, RecLen(vs[v]) + rest.bytes)
  }

  /** The bytes of the first `k` records. */
  function Sum(vs: seq<Dirent>, k: nat): nat
    requires Named(vs) && k <= |vs|
  {
    if k == 0 then 0 else Sum(vs, k - 1) + RecLen(vs[k - 1])
  }

  // ----- how records lie in the buffer -----

  /** The bytes of the first `j` records by their own length fields. */
  function Lengths(recs: seq<Record>, j: nat): nat
    requires j <= |recs|
  {
    if j == 0 then 0 else Lengths(recs, j - 1) + recs[j - 1].reclen
  }

  /** A record's length is the least multiple of 8 that holds the header of 24 bytes, the name and
      its NUL. */
  predicate JustFits(r: Record) {
    r.reclen % 8 == 0 && 24 + |r.name| + 1 <= r.reclen < 24 + |r.name| + 1 + 8
  }

  /** The records fill `bytes` bytes without gaps, each telling where the next one starts. */
  ghost predicate LaidOut(recs: seq<Record>, from: nat, bytes: nat) {
    && bytes == Lengths(recs, |recs|)
    && forall j :: 0 <= j < |recs| ==> JustFits(recs[j]) && recs[j].off == from + Lengths(recs, j + 1)
  }

  lemma {:induction false} LengthsCons(r: Record, recs: seq<Record>, j: nat)
    requires j <= |recs|
    ensures Lengths([r] + recs, j + 1) == r.reclen + Lengths(recs, j)
  {
    if j > 0 {
      LengthsCons(r, recs, j - 1);
      assert ([r] + recs)[j] == recs[j - 1];
    } else {
      assert Lengths([r] + recs, 0) == 0;
    }
  }

  lemma RecFits(e: Dirent, end: nat)
    requires |e.name| == 11
    ensures JustFits(Rec(e, end)) && Rec(e, end).reclen == RecLen(e) && Rec(e, end).off == end
  {
    hide ShownName;
    var n := 24 + |ShownName(e)| + 1 + 7;
    assert n == n / 8 * 8 + n % 8;
  }

  lemma LaidMore(r: Record, recs: seq<Record>, from: nat, bytes: nat)
    requires LaidOut(recs, from + r.reclen, bytes) && JustFits(r) && r.off == from + r.reclen
    ensures LaidOut([r] + recs, from, r.reclen + bytes)
  {
    hide JustFits;
    var all := [r] + recs;
    LengthsCons(r, recs, |recs|);
    forall j | 0 <= j < |all| ensures JustFits(all[j]) && all[j].off == from + Lengths(all, j + 1) {
      LengthsCons(r, recs, j);
      if j > 0 { assert all[j] == recs[j - 1]; }
    }
  }

  lemma LaidNone(from: nat)
    ensures LaidOut([], from, 0)
  {
  }

  /** What one call hands out is laid out so and stays within the buffer. */
  lemma {:induction false} FillLaid(vs: seq<Dirent>, v: nat, skip: nat, used: nat, count: nat)
    requires Named(vs) && v <= |vs|
    ensures LaidOut(Fill(vs, v, skip, used, count).recs, used, Fill(vs, v, skip, used, count).bytes)
    ensures used <= count ==> used + Fill(vs, v, skip, used, count).bytes <= count
    decreases |vs| - v
  {
    hide *;
    LaidNone(used);
    if v < |vs| {
      NamedAt(vs, v);
      FillStep(vs, v, skip, used, count);
      var len := RecLen(vs[v]);
      if skip >= len {
        FillLaid(vs, v + 1, skip - len, used, count);
      } else if used + len <= count {
        FillLaid(vs, v + 1, skip, used + len, count);
        RecFits(vs[v], used + len);
        LaidMore(Rec(vs[v], used + len), Fill(vs, v + 1, skip, used + len, count).recs, used, Fill(vs, v + 1, skip, used + len, count).bytes);
      }
    } else {
      FillPast(vs, skip, used, count);
    }
  }

  // ----- in place -----

  /** The part of an open file this uses: a signed 32-bit position. */
  class File {
    var pos: nat

    constructor ()
      ensures pos == 0
    {
      pos := 0;
    }
  }

  lemma VisibleNext(dir: seq<Dirent>, i: nat)
    requires Named(dir) && i < |dir|
    ensures Named(dir[..i]) && Named(dir[..i + 1])
    ensures Visible(dir[..i + 1]) == Visible(dir[..i]) + (if Hidden(dir[i]) then [] else [dir[i]])
  {
    assert dir[..i + 1][..i] == dir[..i];
  }

  lemma {:induction false} VisiblePrefix(dir: seq<Dirent>, i: nat)
    requires Named(dir) && i <= |dir|
    ensures Visible(dir[..i]) <= Visible(dir)
    decreases |dir| - i
  {
    if i < |dir| {
      VisibleNext(dir, i);
      VisiblePrefix(dir, i + 1);
    } else {
      assert dir[..i] == dir;
    }
  }

  /** Where the loop stands: entries before `v` are done, the rest of the page is still to come. */
  ghost predicate Filling(vs: seq<Dirent>, v: nat, skip: nat, used: nat, count: nat, recs: seq<Record>, page: Page) {
    Named(vs) && page == Page(recs + Fill(vs, v, skip, used, count).recs, used + Fill(vs, v, skip, used, count).bytes)
  }

  lemma FillTurn(vs: seq<Dirent>, v: nat, skip: nat, used: nat, count: nat, recs: seq<Record>, page: Page)
    requires Filling(vs, v, skip, used, count, recs, page) && v < |vs|
    ensures var len := RecLen(vs[v]); skip >= len ==> Filling(vs, v + 1, skip - len, used, count, recs, page)
    ensures var len := RecLen(vs[v]); skip < len && used + len <= count ==> Filling(vs, v + 1, skip, used + len, count, recs + [Rec(vs[v], used + len)], page)
    ensures skip < RecLen(vs[v]) && used + RecLen(vs[v]) > count ==> page == Page(recs, used)
  {
    hide RecLen, Rec;
    if skip < RecLen(vs[v]) && used + RecLen(vs[v]) <= count {
      var rest := Fill(vs, v + 1, skip, used + RecLen(vs[v]), count).recs;
      assert recs + [Rec(vs[v], used + RecLen(vs[v]))] + rest == recs + ([Rec(vs[v], used + RecLen(vs[v]))] + rest);
    }
  }

  /** `mount_get_dirents64` on a directory whose records stay below 2^31 bytes. */
  method GetDirents(f: File, dir: seq<Dirent>, count: nat) returns (n: nat, recs: seq<Record>)
    requires Named(dir) && count < 0x1_0000_0000 && Sum(Visible(dir), |Visible(dir)|) < 0x8000_0000
    modifies f
    ensures Page(recs, n) == Fill(Visible(dir), 0, old(f.pos), 0, count)
    ensures f.pos == old(f.pos) + n
    ensures LaidOut(recs, 0, n) && n <= count
  {
    hide *;
    ghost var vs := Visible(dir);
    FillLaid(vs, 0, f.pos, 0, count);
    var skip := f.pos;
    ghost var pos, page := f.pos, Fill(vs, 0, f.pos, 0, count);
    n, recs := 0, [];
    FillStart(vs, skip, count, page);
    VisibleNone(dir);
    for i := 0 to |dir|
      invariant Named(dir[..i]) && f.pos == pos + n
      invariant Filling(vs, |Visible(dir[..i])|, skip, n, count, recs, page)
    {
      VisibleNext(dir, i);
      NamedAt(dir, i);
      if !Hidden(dir[i]) {
        ghost var v := |Visible(dir[..i])|;
        VisibleAt(dir, i);
        FillTurn(vs, v, skip, n, count, recs, page);
        var reclen := RecLen(dir[i]);
        if skip >= reclen {
          skip := skip - reclen;
        } else {
          if n + reclen > count { return; }
          recs := recs + [Rec(dir[i], n + reclen)];
          n := n + reclen;
          f.pos := f.pos + reclen;
        }
      }
    }
    assert dir[..|dir|] == dir;
    FillEnd(vs, skip, n, count, recs, page);
  }

  lemma VisibleNone(dir: seq<Dirent>)
    requires Named(dir)
    ensures Named(dir[..0]) && Visible(dir[..0]) == []
  {
  }

  lemma VisibleAt(dir: seq<Dirent>, i: nat)
    requires Named(dir) && i < |dir| && !Hidden(dir[i])
    ensures Named(dir[..i]) && |Visible(dir[..i])| < |Visible(dir)| && Visible(dir)[|Visible(dir[..i])|] == dir[i]
    ensures Named(dir[..i + 1]) && |Visible(dir[..i + 1])| == |Visible(dir[..i])| + 1
  {
    VisibleNext(dir, i);
    VisiblePrefix(dir, i + 1);
    hide Hidden, Visible;
    var a := Visible(dir[..i]);
    assert (a + [dir[i]])[|a|] == dir[i];
  }

  lemma FillStart(vs: seq<Dirent>, skip: nat, count: nat, page: Page)
    requires Named(vs) && page == Fill(vs, 0, skip, 0, count)
    ensures Filling(vs, 0, skip, 0, count, [], page)
  {
    assert [] + page.recs == page.recs;
  }

  lemma FillEnd(vs: seq<Dirent>, skip: nat, used: nat, count: nat, recs: seq<Record>, page: Page)
    requires Filling(vs, |vs|, skip, used, count, recs, page)
    ensures page == Page(recs, used)
  {
    assert recs + [] == recs;
  }

  // ----- the stream over many calls -----

  /** The entry a page that starts at entry `k` stops at. */
  function Stop(vs: seq<Dirent>, k: nat, used: nat, count: nat): (e: nat)
    requires Named(vs) && k <= |vs|
    ensures k <= e <= |vs|
    decreases |vs| - k
  {
    if k < |vs| && used + RecLen(vs[k]) <= count then Stop(vs, k + 1, used + RecLen(vs[k]), count) else k
  }

  /** Entries as a caller sees them. */
  function Shown(e: Dirent): (string, nat)
    requires |e.name| == 11
  {
    (ShownName(e), if e.attr / 16 % 2 == 1 then 4 else 8)
  }

  function ShownAll(vs: seq<Dirent>, k: nat, e: nat): (r: seq<(string, nat)>)
    requires Named(vs) && k <= e <= |vs|
    ensures |r| == e - k
  {
    seq(e - k, i requires 0 <= i < e - k => Shown(vs[k + i]))
  }

  lemma ShownAt(vs: seq<Dirent>, k: nat, e: nat, i: nat)
    requires Named(vs) && k <= e <= |vs| && i < e - k
    ensures ShownAll(vs, k, e)[i] == Shown(vs[k + i])
  {
    hide Shown;
  }

  function Seen(recs: seq<Record>): (r: seq<(string, nat)>)
    ensures |r| == |recs| && forall i :: 0 <= i < |recs| ==> r[i] == (recs[i].name, recs[i].kind)
  {
    seq(|recs|, i requires 0 <= i < |recs| => (recs[i].name, recs[i].kind))
  }

  lemma {:induction false} SumMono(vs: seq<Dirent>, k: nat, e: nat)
    requires Named(vs) && k <= e <= |vs|
    ensures Sum(vs, k) + 32 * (e - k) <= Sum(vs, e)
  {
    hide RecLen;
    if k < e { SumMono(vs, k, e - 1); }
  }

  lemma SumNext(vs: seq<Dirent>, k: nat)
    requires Named(vs) && k < |vs|
    ensures Sum(vs, k + 1) == Sum(vs, k) + RecLen(vs[k])
  {
    hide RecLen;
  }

  lemma FillStep(vs: seq<Dirent>, v: nat, skip: nat, used: nat, count: nat)
    requires Named(vs) && v < |vs|
    ensures skip >= RecLen(vs[v]) ==> Fill(vs, v, skip, used, count) == Fill(vs, v + 1, skip - RecLen(vs[v]), used, count)
    ensures skip < RecLen(vs[v]) && used + RecLen(vs[v]) > count ==> Fill(vs, v, skip, used, count) == Page([], 0)
    ensures skip < RecLen(vs[v]) && used + RecLen(vs[v]) <= count ==> Fill(vs, v, skip, used, count) == Page([Rec(vs[v], used + RecLen(vs[v]))] + Fill(vs, v + 1, skip, used + RecLen(vs[v]), count).recs, RecLen(vs[v]) + Fill(vs, v + 1, skip, used + RecLen(vs[v]), count).bytes)
  {
    hide RecLen, Rec;
  }

  lemma FillPast(vs: seq<Dirent>, skip: nat, used: nat, count: nat)
    requires Named(vs)
    ensures Fill(vs, |vs|, skip, used, count) == Page([], 0)
  {
  }

  lemma StopStep(vs: seq<Dirent>, k: nat, used: nat, count: nat)
    requires Named(vs) && k <= |vs|
    ensures Stop(vs, k, used, count) == if k < |vs| && used + RecLen(vs[k]) <= count then Stop(vs, k + 1, used + RecLen(vs[k]), count) else k
  {
    hide RecLen;
  }

  /** Passing over exactly the records handed out before. */
  lemma {:induction false} FillSkips(vs: seq<Dirent>, v: nat, k: nat, count: nat)
    requires Named(vs) && v <= k <= |vs|
    ensures Sum(vs, v) <= Sum(vs, k)
    ensures Fill(vs, v, Sum(vs, k) - Sum(vs, v), 0, count) == Fill(vs, k, 0, 0, count)
    decreases k - v
  {
    hide *;
    SumMono(vs, v, k);
    if v < k {
      FillSkips(vs, v + 1, k, count);
      NamedAt(vs, v);
      SumNext(vs, v);
      FillStep(vs, v, Sum(vs, k) - Sum(vs, v), 0, count);
    }
  }

  lemma NamedAt(vs: seq<Dirent>, v: nat)
    requires Named(vs) && v < |vs|
    ensures |vs[v].name| == 11
  {
  }

  /** A page hands out entries `k` up to its stop, in order. */
  lemma {:induction false} FillShows(vs: seq<Dirent>, k: nat, used: nat, count: nat)
    requires Named(vs) && k <= |vs|
    ensures var e := Stop(vs, k, used, count); Seen(Fill(vs, k, 0, used, count).recs) == ShownAll(vs, k, e)
    ensures var e := Stop(vs, k, used, count); Sum(vs, k) + Fill(vs, k, 0, used, count).bytes == Sum(vs, e)
    decreases |vs| - k
  {
    hide *;
    StopStep(vs, k, used, count);
    if k < |vs| {
      NamedAt(vs, k);
      FillStep(vs, k, 0, used, count);
      SumNext(vs, k);
      if used + RecLen(vs[k]) <= count {
        FillShows(vs, k + 1, used + RecLen(vs[k]), count);
        SeenMore(vs, k, Stop(vs, k, used, count), Fill(vs, k + 1, 0, used + RecLen(vs[k]), count).recs, used + RecLen(vs[k]));
      }
    } else {
      FillPast(vs, 0, used, count);
    }
  }

  lemma SeenMore(vs: seq<Dirent>, k: nat, e: nat, recs: seq<Record>, end: nat)
    requires Named(vs) && k < e <= |vs| && Seen(recs) == ShownAll(vs, k + 1, e)
    ensures Seen([Rec(vs[k], end)] + recs) == ShownAll(vs, k, e)
  {
    hide RecLen, ShownName, ShownAll;
    var a, b := Seen([Rec(vs[k], end)] + recs), ShownAll(vs, k, e);
    assert |recs| == e - k - 1;
    forall i | 0 <= i < e - k ensures a[i] == b[i] {
      ShownAt(vs, k, e, i);
      if i > 0 {
        ShownAt(vs, k + 1, e, i - 1);
        assert a[i] == Seen(recs)[i - 1] == ShownAll(vs, k + 1, e)[i - 1];
      }
    }
  }

  /** The entry reached after the first `i` calls. */
  function Reached(vs: seq<Dirent>, counts: seq<nat>, i: nat): (e: nat)
    requires Named(vs) && i <= |counts|
    ensures e <= |vs|
  {
    if i == 0 then 0 else Stop(vs, Reached(vs, counts, i - 1), 0, counts[i - 1])
  }

  /** The file position after the first `i` calls. */
  function Position(vs: seq<Dirent>, counts: seq<nat>, i: nat): nat
    requires Named(vs) && i <= |counts|
  {
    if i == 0 then 0 else Position(vs, counts, i - 1) + Fill(vs, 0, Position(vs, counts, i - 1), 0, counts[i - 1]).bytes
  }

  /** Everything the first `i` calls handed out. */
  function Stream(vs: seq<Dirent>, counts: seq<nat>, i: nat): seq<(string, nat)>
    requires Named(vs) && i <= |counts|
  {
    if i == 0 then [] else Stream(vs, counts, i - 1) + Seen(Fill(vs, 0, Position(vs, counts, i - 1), 0, counts[i - 1]).recs)
  }

  /** All records of the first `i` calls. */
  function Emitted(vs: seq<Dirent>, counts: seq<nat>, i: nat): seq<Record>
    requires Named(vs) && i <= |counts|
  {
    if i == 0 then [] else Emitted(vs, counts, i - 1) + Fill(vs, 0, Position(vs, counts, i - 1), 0, counts[i - 1]).recs
  }

  lemma {:induction false} LengthsJoin(a: seq<Record>, b: seq<Record>, j: nat)
    requires j <= |b|
    ensures Lengths(a + b, |a| + j) == Lengths(a, |a|) + Lengths(b, j)
  {
    if j > 0 {
      LengthsJoin(a, b, j - 1);
      assert (a + b)[|a| + j - 1] == b[j - 1];
    } else {
      LengthsPrefix(a, b, |a|);
    }
  }

  lemma {:induction false} LengthsPrefix(a: seq<Record>, b: seq<Record>, j: nat)
    requires j <= |a|
    ensures Lengths(a + b, j) == Lengths(a, j)
  {
    if j > 0 { LengthsPrefix(a, b, j - 1); }
  }

  lemma LaidLength(recs: seq<Record>, from: nat, bytes: nat)
    requires LaidOut(recs, from, bytes)
    ensures bytes == Lengths(recs, |recs|)
  {
  }

  /** The file position is the sum of the length fields of all records handed out so far, whatever
      the buffer sizes, and every call's records are laid out in its own buffer. */
  lemma {:induction false} PositionCounts(vs: seq<Dirent>, counts: seq<nat>, i: nat)
    requires Named(vs) && i <= |counts|
    ensures Position(vs, counts, i) == Lengths(Emitted(vs, counts, i), |Emitted(vs, counts, i)|)
    ensures Seen(Emitted(vs, counts, i)) == Stream(vs, counts, i)
    ensures i < |counts| ==> var page := Fill(vs, 0, Position(vs, counts, i), 0, counts[i]); LaidOut(page.recs, 0, page.bytes) && page.bytes <= counts[i]
  {
    hide *;
    if i < |counts| { FillLaid(vs, 0, Position(vs, counts, i), 0, counts[i]); }
    EmittedStep(vs, counts, i);
    if i > 0 {
      PositionCounts(vs, counts, i - 1);
      StreamStep(vs, counts, i);
      var a, page := Emitted(vs, counts, i - 1), Fill(vs, 0, Position(vs, counts, i - 1), 0, counts[i - 1]);
      LaidLength(page.recs, 0, page.bytes);
      LengthsJoin(a, page.recs, |page.recs|);
      SeenJoin(a, page.recs);
    }
  }

  lemma EmittedStep(vs: seq<Dirent>, counts: seq<nat>, i: nat)
    requires Named(vs) && i <= |counts|
    ensures i == 0 ==> Emitted(vs, counts, i) == [] && Lengths([], 0) == Position(vs, counts, i) == 0 && Seen([]) == Stream(vs, counts, i)
    ensures i > 0 ==> Emitted(vs, counts, i) == Emitted(vs, counts, i - 1) + Fill(vs, 0, Position(vs, counts, i - 1), 0, counts[i - 1]).recs
  {
    hide Fill;
  }

  lemma SeenJoin(a: seq<Record>, b: seq<Record>)
    ensures Seen(a + b) == Seen(a) + Seen(b)
  {
  }

  lemma StreamStep(vs: seq<Dirent>, counts: seq<nat>, i: nat)
    requires Named(vs) && 0 < i <= |counts|
    ensures Reached(vs, counts, i) == Stop(vs, Reached(vs, counts, i - 1), 0, counts[i - 1])
    ensures Position(vs, counts, i) == Position(vs, counts, i - 1) + Fill(vs, 0, Position(vs, counts, i - 1), 0, counts[i - 1]).bytes
    ensures Stream(vs, counts, i) == Stream(vs, counts, i - 1) + Seen(Fill(vs, 0, Position(vs, counts, i - 1), 0, counts[i - 1]).recs)
  {
    hide Fill, Stop, Seen;
  }

  lemma StreamNone(vs: seq<Dirent>, counts: seq<nat>)
    requires Named(vs)
    ensures Reached(vs, counts, 0) == Position(vs, counts, 0) == Sum(vs, 0) == 0
    ensures Stream(vs, counts, 0) == ShownAll(vs, 0, 0)
  {
  }

  lemma ShownJoin(vs: seq<Dirent>, k: nat, e: nat)
    requires Named(vs) && k <= e <= |vs|
    ensures ShownAll(vs, 0, k) + ShownAll(vs, k, e) == ShownAll(vs, 0, e)
  {
    hide Shown;
  }

  /** Whatever the buffer sizes, the calls hand out every entry from the first up to where they got,
      once and in order, and the position is the sum of the lengths handed out. */
  lemma {:induction false} StreamInOrder(vs: seq<Dirent>, counts: seq<nat>, i: nat)
    requires Named(vs) && i <= |counts|
    ensures Stream(vs, counts, i) == ShownAll(vs, 0, Reached(vs, counts, i))
    ensures Position(vs, counts, i) == Sum(vs, Reached(vs, counts, i))
  {
    hide *;
    StreamNone(vs, counts);
    if i > 0 {
      StreamInOrder(vs, counts, i - 1);
      StreamStep(vs, counts, i);
      var k := Reached(vs, counts, i - 1);
      FillSkips(vs, 0, k, counts[i - 1]);
      FillShows(vs, k, 0, counts[i - 1]);
      ShownJoin(vs, k, Reached(vs, counts, i));
    }
  }

  /** A call hands out something if and only if the next record fits its buffer. */
  lemma ProgressExactly(vs: seq<Dirent>, counts: seq<nat>, i: nat)
    requires Named(vs) && i < |counts| && Reached(vs, counts, i) < |vs|
    ensures Reached(vs, counts, i) < Reached(vs, counts, i + 1) <==> RecLen(vs[Reached(vs, counts, i)]) <= counts[i]
  {
    hide *;
    var k := Reached(vs, counts, i);
    NamedAt(vs, k);
    StreamStep(vs, counts, i + 1);
    StopStep(vs, k, 0, counts[i]);
  }

  /** Buffers that hold the directory's largest record make progress: n calls hand out n entries or
      all. */
  lemma {:induction false} StreamProgress(vs: seq<Dirent>, counts: seq<nat>, i: nat)
    requires Named(vs) && i <= |counts| && forall j, k :: 0 <= j < |counts| && 0 <= k < |vs| ==> RecLen(vs[k]) <= counts[j]
    ensures Reached(vs, counts, i) >= if i < |vs| then i else |vs|
  {
    hide *;
    StreamNone(vs, counts);
    if i > 0 {
      StreamProgress(vs, counts, i - 1);
      if Reached(vs, counts, i - 1) < |vs| { ProgressExactly(vs, counts, i - 1); } else { StreamEnds(vs, counts, i - 1); }
    }
  }

  /** After the last entry every call returns 0. */
  lemma StreamEnds(vs: seq<Dirent>, counts: seq<nat>, i: nat)
    requires Named(vs) && i < |counts| && Reached(vs, counts, i) == |vs|
    ensures Fill(vs, 0, Position(vs, counts, i), 0, counts[i]) == Page([], 0)
    ensures Reached(vs, counts, i + 1) == |vs|
  {
    hide *;
    StreamInOrder(vs, counts, i);
    StreamStep(vs, counts, i + 1);
    StreamNone(vs, counts);
    FillSkips(vs, 0, |vs|, counts[i]);
    FillPast(vs, 0, 0, counts[i]);
  }
}
