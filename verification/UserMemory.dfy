// A process's memory as it sees it: bytes at virtual addresses and the set of mapped pages.
module UserMemory {
  type Mem = map<int, int>

  function At(m: Mem, a: int): int { if a in m then m[a] else 0 }

  /** A little-endian word. */
  function Word(m: Mem, a: int): int {
    At(m, a) + 0x100 * At(m, a + 1) + 0x1_0000 * At(m, a + 2) + 0x100_0000 * At(m, a + 3)
  }

  function PutWord(m: Mem, a: int, v: int): Mem {
    m[a := v % 0x100][a + 1 := v / 0x100 % 0x100][a + 2 := v / 0x1_0000 % 0x100][a + 3 := v / 0x100_0000 % 0x100]
  }

  /** Only bytes in [lo, hi) differ. */
  ghost predicate OnlyIn(m: Mem, m': Mem, lo: int, hi: int) {
    forall b :: !(lo <= b < hi) ==> At(m', b) == At(m, b)
  }

  lemma PutGet(m: Mem, a: int, v: int)
    requires 0 <= v < 0x1_0000_0000
    ensures Word(PutWord(m, a, v), a) == v && OnlyIn(m, PutWord(m, a, v), a, a + 4)
  {
    var q, r, s := v / 0x100, v / 0x1_0000, v / 0x100_0000;
    assert v == 0x100 * q + v % 0x100 && q == 0x100 * r + q % 0x100 && r == 0x100 * s + r % 0x100 && s % 0x100 == s;
  }

  lemma OnlyTrans(a: Mem, b: Mem, c: Mem, lo: int, mid: int, hi: int)
    requires OnlyIn(a, b, mid, hi) && OnlyIn(b, c, lo, mid) && lo <= mid <= hi
    ensures OnlyIn(a, c, lo, hi)
  {
  }

  lemma SetAt(m: Mem, a: int, v: int, b: int)
    ensures At(m[a := v], b) == if b == a then v else At(m, b)
  {
    assert b in m[a := v] <==> b == a || b in m;
  }

  lemma OnlySet(m: Mem, m1: Mem, lo: int, hi: int, v: int)
    requires OnlyIn(m, m1, lo, hi) && lo <= hi
    ensures OnlyIn(m, m1[hi := v], lo, hi + 1)
  {
    var m' := m1[hi := v];
    forall b | !(lo <= b < hi + 1) ensures At(m', b) == At(m, b) { SetAt(m1, hi, v, b); }
  }

  /** The string `s` and its NUL at address `p`. */
  ghost predicate StrAt(m: Mem, p: int, s: seq<int>) {
    (forall k :: 0 <= k < |s| ==> At(m, p + k) == s[k]) && At(m, p + |s|) == 0
  }

  /** The words `ws` from address `p` on. */
  ghost predicate WordsAt(m: Mem, p: int, ws: seq<int>) {
    forall k :: 0 <= k < |ws| ==> Word(m, p + 4 * k) == ws[k]
  }

  lemma StrKept(m: Mem, m': Mem, lo: int, hi: int, p: int, s: seq<int>)
    requires StrAt(m, p, s) && OnlyIn(m, m', lo, hi) && hi <= p
    ensures StrAt(m', p, s)
  {
  }

  lemma WordKept(m: Mem, m': Mem, lo: int, hi: int, p: int)
    requires OnlyIn(m, m', lo, hi) && hi <= p
    ensures Word(m', p) == Word(m, p)
  {
  }

  lemma WordsPush(m: Mem, p: int, ws: seq<int>, v: int)
    requires WordsAt(m, p, ws) && 0 <= v < 0x1_0000_0000
    ensures WordsAt(PutWord(m, p - 4, v), p - 4, [v] + ws)
  {
    hide PutWord, Word, OnlyIn;
    var m' := PutWord(m, p - 4, v);
    PutGet(m, p - 4, v);
    forall k | 0 <= k < |ws| + 1 ensures Word(m', p - 4 + 4 * k) == ([v] + ws)[k] {
      if k > 0 {
        WordKept(m, m', p - 4, p, p + 4 * (k - 1));
        assert p - 4 + 4 * k == p + 4 * (k - 1);
      } else {
        assert p - 4 + 4 * k == p - 4;
      }
    }
  }

  // ----- mapping -----

  /** A page newly mapped reads as zeros; one that was mapped keeps its bytes. */
  function Mapped(m: Mem, pages: set<int>, lo: int, hi: int): (m': Mem)
    ensures forall a :: At(m', a) == if lo <= a / 4096 < hi && a / 4096 !in pages then 0 else At(m, a)
  {
    map a | a in m && !(lo <= a / 4096 < hi && a / 4096 !in pages) :: m[a]
  }

  function PageSet(lo: int, hi: int): (r: set<int>)
    ensures forall p :: p in r <==> lo <= p < hi
    decreases hi - lo
  {
    if hi <= lo then {} else PageSet(lo, hi - 1) + {hi - 1}
  }
}
