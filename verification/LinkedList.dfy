// The circular doubly linked lists of lib/include/ll.h, whose nodes are two words of memory:
// `next` at the node's address, `prev` four bytes above it.
module LinkedList {

  type Mem = map<int, int>

  function Rd(m: Mem, a: int): int {
    if a in m then m[a] else 0
  }

  function Next(m: Mem, node: int): int { Rd(m, node) }

  function Prev(m: Mem, node: int): int { Rd(m, node + 4) }

  /** The two words of a node. */
  predicate InNode(a: int, node: int) {
    node <= a < node + 8
  }

  predicate Clear(x: int, y: int) {
    x + 8 <= y || y + 8 <= x
  }

  /** No two nodes share a word. */
  ghost predicate Spaced(c: seq<int>) {
    forall i, j :: 0 <= i < j < |c| ==> Clear(c[i], c[j])
  }

  function Succ(c: seq<int>, i: nat): int
    requires i < |c|
  {
    if i + 1 < |c| then c[i + 1] else c[0]
  }

  /** `c` is a ring in memory: head first, every `next` followed by the matching `prev`. */
  ghost predicate Ring(m: Mem, c: seq<int>) {
    && c != [] && Spaced(c)
    && forall i :: 0 <= i < |c| ==> Next(m, c[i]) == Succ(c, i) && Prev(m, Succ(c, i)) == c[i]
  }

  predicate Outside(a: int, nodes: seq<int>) {
    forall i :: 0 <= i < |nodes| ==> !InNode(a, nodes[i])
  }

  /** Only words of the listed nodes differ. */
  ghost predicate OnlyNodes(m: Mem, m': Mem, nodes: seq<int>) {
    forall a :: Outside(a, nodes) ==> Rd(m', a) == Rd(m, a)
  }

  // ----- the operations as functions of memory -----

  function Init(m: Mem, list: int): Mem {
    m[list := list][list + 4 := list]
  }

  /** `__list_add(add, prev, next)`, in the order of its stores. */
  function Insert(m: Mem, add: int, prev: int, next: int): Mem {
    m[next + 4 := add][add := next][add + 4 := prev][prev := add]
  }

  function AddTail(m: Mem, add: int, head: int): Mem {
    Insert(m, add, Prev(m, head), head)
  }

  /** `__list_del` and the clearing of the entry's own pointers. */
  function Del(m: Mem, entry: int): Mem {
    var prev, next := Prev(m, entry), Next(m, entry);
    m[next + 4 := prev][prev := next][entry + 4 := 0][entry := 0]
  }

  function SpliceTail(m: Mem, list: int, head: int): Mem {
    if Next(m, list) == list then m
    else
      var first, last, tail := Next(m, list), Prev(m, list), Prev(m, head);
      m[first + 4 := tail][tail := first][last := head][head + 4 := last][list := list][list + 4 := list]
  }

  // ----- the two fields of any node afterwards -----

  predicate Apart(x: int, y: int) {
    x == y || Clear(x, y)
  }

  lemma InsertFields(m: Mem, add: int, prev: int, next: int, x: int)
    requires Clear(add, prev) && Clear(add, next) && Apart(prev, next)
    requires Apart(x, add) && Apart(x, prev) && Apart(x, next)
    ensures Next(Insert(m, add, prev, next), x) == if x == prev then add else if x == add then next else Next(m, x)
    ensures Prev(Insert(m, add, prev, next), x) == if x == next then add else if x == add then prev else Prev(m, x)
  {
  }

  lemma DelFields(m: Mem, entry: int, x: int)
    requires Clear(x, entry) && Clear(entry, Prev(m, entry)) && Clear(entry, Next(m, entry))
    requires Apart(x, Prev(m, entry)) && Apart(x, Next(m, entry)) && Apart(Prev(m, entry), Next(m, entry))
    ensures Next(Del(m, entry), x) == if x == Prev(m, entry) then Next(m, entry) else Next(m, x)
    ensures Prev(Del(m, entry), x) == if x == Next(m, entry) then Prev(m, entry) else Prev(m, x)
  {
  }

  lemma SpliceFields(m: Mem, list: int, head: int, first: int, last: int, tail: int, x: int)
    requires first == Next(m, list) && last == Prev(m, list) && tail == Prev(m, head)
    requires Clear(list, first) && Clear(list, last) && Apart(first, last) && Apart(head, tail)
    requires Clear(list, head) && Clear(list, tail) && Clear(first, head) && Clear(first, tail) && Clear(last, head) && Clear(last, tail)
    requires Apart(x, list) && Apart(x, first) && Apart(x, last) && Apart(x, head) && Apart(x, tail)
    ensures Next(SpliceTail(m, list, head), x) == if x == list then list else if x == last then head else if x == tail then first else Next(m, x)
    ensures Prev(SpliceTail(m, list, head), x) == if x == list then list else if x == head then last else if x == first then tail else Prev(m, x)
  {
  }

  // ----- what they do to rings -----

  lemma InitRing(m: Mem, list: int)
    ensures Ring(Init(m, list), [list])
    ensures OnlyNodes(m, Init(m, list), [list])
  {
    forall a | Outside(a, [list]) ensures Rd(Init(m, list), a) == Rd(m, a) {
      assert !InNode(a, [list][0]);
    }
  }

  lemma RingLast(m: Mem, c: seq<int>)
    requires Ring(m, c)
    ensures Prev(m, c[0]) == c[|c| - 1] && Next(m, c[|c| - 1]) == c[0]
  {
    assert Succ(c, |c| - 1) == c[0];
  }

  lemma AddTailRing(m: Mem, c: seq<int>, add: int)
    requires Ring(m, c) && forall i :: 0 <= i < |c| ==> Clear(c[i], add)
    ensures Ring(AddTail(m, add, c[0]), c + [add])
    ensures OnlyNodes(m, AddTail(m, add, c[0]), [c[0], c[|c| - 1], add])
  {
    var e, w := c + [add], AddTail(m, add, c[0]);
    AddTailOnly(m, c, add);
    forall i | 0 <= i < |e| ensures Next(w, e[i]) == Succ(e, i) && Prev(w, Succ(e, i)) == e[i] {
      AddTailLink(m, c, add, i);
    }
    assert Spaced(e);
  }

  lemma RingAt(m: Mem, c: seq<int>, i: nat)
    requires Ring(m, c) && i < |c|
    ensures Next(m, c[i]) == Succ(c, i) && Prev(m, Succ(c, i)) == c[i]
    ensures i + 1 < |c| ==> Succ(c, i) == c[i + 1]
    ensures i + 1 == |c| ==> Succ(c, i) == c[0]
    ensures Spaced(c)
  {
  }

  lemma AddTailLink(m: Mem, c: seq<int>, add: int, i: nat)
    requires Ring(m, c) && (forall i :: 0 <= i < |c| ==> Clear(c[i], add)) && i <= |c|
    ensures var e, w := c + [add], AddTail(m, add, c[0]); Next(w, e[i]) == Succ(e, i) && Prev(w, Succ(e, i)) == e[i]
  {
    var n := |c|;
    var e := c + [add];
    RingAt(m, c, n - 1);
    assert AddTail(m, add, c[0]) == Insert(m, add, c[n - 1], c[0]);
    assert Succ(e, i) == if i < n then e[i + 1] else e[0];
    SpacedAdd(c, add);
    if i < n { RingAt(m, c, i); }
    NodesApart(e, 0, n - 1);
    NodesApart(e, n, 0);
    NodesApart(e, n, n - 1);
    NodesApart(e, i, n);
    NodesApart(e, i, 0);
    NodesApart(e, i, n - 1);
    var j := if i < n then i + 1 else 0;
    NodesApart(e, j, n);
    NodesApart(e, j, 0);
    NodesApart(e, j, n - 1);
    hide *;
    InsertFields(m, add, c[n - 1], c[0], e[i]);
    InsertFields(m, add, c[n - 1], c[0], e[j]);
  }

  lemma SpacedAdd(c: seq<int>, add: int)
    requires Spaced(c) && forall i :: 0 <= i < |c| ==> Clear(c[i], add)
    ensures Spaced(c + [add])
  {
  }

  /** Distinct positions of a spaced sequence hold clear nodes. */
  lemma NodesApart(c: seq<int>, i: nat, j: nat)
    requires Spaced(c) && i < |c| && j < |c|
    ensures Apart(c[i], c[j])
    ensures i != j ==> c[i] != c[j] && Clear(c[i], c[j])
  {
    if i < j { assert Clear(c[i], c[j]); }
    if j < i { assert Clear(c[j], c[i]); }
  }

  lemma AddTailOnly(m: Mem, c: seq<int>, add: int)
    requires Ring(m, c)
    ensures OnlyNodes(m, AddTail(m, add, c[0]), [c[0], c[|c| - 1], add])
  {
    RingLast(m, c);
    var nodes := [c[0], c[|c| - 1], add];
    forall a | Outside(a, nodes) ensures Rd(AddTail(m, add, c[0]), a) == Rd(m, a) {
      assert !InNode(a, nodes[0]) && !InNode(a, nodes[1]) && !InNode(a, nodes[2]);
    }
  }

  lemma DelRing(m: Mem, c: seq<int>, k: nat)
    requires Ring(m, c) && 0 < k < |c|
    ensures Ring(Del(m, c[k]), c[..k] + c[k + 1..])
    ensures OnlyNodes(m, Del(m, c[k]), [c[k - 1], c[k], Succ(c, k)])
  {
    var e, w := c[..k] + c[k + 1..], Del(m, c[k]);
    DelOnly(m, c, k);
    forall i | 0 <= i < |e| ensures Next(w, e[i]) == Succ(e, i) && Prev(w, Succ(e, i)) == e[i] {
      hide *;
      DelIndex(c, k, i);
      DelLink(m, c, k, if i < k then i else i + 1);
    }
    SpacedDrop(c, k);
  }

  lemma DelIndex(c: seq<int>, k: nat, i: nat)
    requires 0 < k < |c| && i < |c| - 1
    ensures var e, j := c[..k] + c[k + 1..], if i < k then i else i + 1; |e| == |c| - 1 && e[i] == c[j] && Succ(e, i) == if j == k - 1 then Succ(c, k) else Succ(c, j)
  {
  }

  lemma SpacedDrop(c: seq<int>, k: nat)
    requires Spaced(c) && k < |c|
    ensures Spaced(c[..k] + c[k + 1..])
  {
  }

  lemma DelOnly(m: Mem, c: seq<int>, k: nat)
    requires Ring(m, c) && 0 < k < |c|
    ensures OnlyNodes(m, Del(m, c[k]), [c[k - 1], c[k], Succ(c, k)])
  {
    var nodes := [c[k - 1], c[k], Succ(c, k)];
    assert Prev(m, Succ(c, k - 1)) == c[k - 1] && Next(m, c[k]) == Succ(c, k);
    forall a | Outside(a, nodes) ensures Rd(Del(m, c[k]), a) == Rd(m, a) {
      assert !InNode(a, nodes[0]) && !InNode(a, nodes[1]) && !InNode(a, nodes[2]);
    }
  }

  lemma DelLink(m: Mem, c: seq<int>, k: nat, j: nat)
    requires Ring(m, c) && 0 < k < |c| && j < |c| && j != k
    ensures var w, s := Del(m, c[k]), if j == k - 1 then Succ(c, k) else Succ(c, j); Next(w, c[j]) == s && Prev(w, s) == c[j]
  {
    if j == k - 1 {
      RingAt(m, c, k - 1);
      DelNode(m, c, k, k - 1);
      DelNode(m, c, k, if k + 1 < |c| then k + 1 else 0);
    } else {
      RingAt(m, c, j);
      DelNode(m, c, k, j);
      DelNode(m, c, k, if j + 1 < |c| then j + 1 else 0);
    }
  }

  /** Position of the node behind position `k`. */
  function After(c: seq<int>, k: nat): nat {
    if k + 1 < |c| then k + 1 else 0
  }

  lemma DelNode(m: Mem, c: seq<int>, k: nat, x: nat)
    requires Ring(m, c) && 0 < k < |c| && x < |c| && x != k
    ensures Succ(c, k) == c[After(c, k)] && After(c, k) < |c|
    ensures Next(Del(m, c[k]), c[x]) == if x == k - 1 then Succ(c, k) else Next(m, c[x])
    ensures Prev(Del(m, c[k]), c[x]) == if x == After(c, k) then c[k - 1] else Prev(m, c[x])
  {
    var ks := After(c, k);
    RingAt(m, c, k);
    RingAt(m, c, k - 1);
    assert Succ(c, k) == c[ks] && ks < |c| && ks != k;
    assert Prev(m, c[k]) == c[k - 1] && Next(m, c[k]) == c[ks];
    DelNodeAt(m, c, k, x, ks);
  }

  lemma DelNodeAt(m: Mem, c: seq<int>, k: nat, x: nat, ks: nat)
    requires Spaced(c) && 0 < k < |c| && x < |c| && ks < |c| && x != k && ks != k
    requires Prev(m, c[k]) == c[k - 1] && Next(m, c[k]) == c[ks]
    ensures Next(Del(m, c[k]), c[x]) == if x == k - 1 then c[ks] else Next(m, c[x])
    ensures Prev(Del(m, c[k]), c[x]) == if x == ks then c[k - 1] else Prev(m, c[x])
  {
    hide *;
    NodesApart(c, k, k - 1);
    NodesApart(c, k, ks);
    NodesApart(c, k - 1, ks);
    NodesApart(c, x, k);
    NodesApart(c, x, k - 1);
    NodesApart(c, x, ks);
    DelFields(m, c[k], c[x]);
  }

  /** Splicing moves every entry of the second ring behind those of the first. */
  lemma SpliceRing(m: Mem, l: seq<int>, c: seq<int>)
    requires Ring(m, l) && Ring(m, c)
    requires forall i, j :: 0 <= i < |l| && 0 <= j < |c| ==> Clear(l[i], c[j])
    ensures Ring(SpliceTail(m, l[0], c[0]), c + l[1..])
    ensures Ring(SpliceTail(m, l[0], c[0]), [l[0]])
  {
    var w := SpliceTail(m, l[0], c[0]);
    RingAt(m, l, 0);
    RingAt(m, l, |l| - 1);
    if |l| == 1 {
      assert c + l[1..] == c && l == [l[0]];
    } else {
      var e := c + l[1..];
      SpacedJoin(c, l);
      var d := c + l;
      NodesApart(l, 0, 1);
      forall i | 0 <= i < |e| ensures Next(w, e[i]) == Succ(e, i) && Prev(w, Succ(e, i)) == e[i] {
        SpliceLink(m, l, c, i);
      }
      SpliceEmptied(m, l, c);
      assert Spaced(e) by {
        SpacedDrop(d, |c|);
        assert d[..|c|] + d[|c| + 1..] == e;
      }
    }
  }

  lemma SpacedJoin(c: seq<int>, l: seq<int>)
    requires Spaced(c) && Spaced(l)
    requires forall i, j :: 0 <= i < |l| && 0 <= j < |c| ==> Clear(l[i], c[j])
    ensures Spaced(c + l)
  {
    var d, n := c + l, |c|;
    forall i, j | 0 <= i < j < |d| ensures Clear(d[i], d[j]) {
      if j < n { assert Clear(c[i], c[j]); }
      else if i < n { assert Clear(l[j - n], c[i]); }
      else { assert Clear(l[i - n], l[j - n]); }
    }
  }

  lemma RingSize(m: Mem, c: seq<int>)
    requires Ring(m, c)
    ensures |c| > 0
  {
  }

  lemma SuccAt(c: seq<int>, i: nat)
    requires i < |c|
    ensures Succ(c, i) == if i + 1 == |c| then c[0] else c[i + 1]
  {
  }

  lemma SuccEnds(c: seq<int>)
    requires |c| > 0
    ensures Succ(c, |c| - 1) == c[0] && (|c| > 1 ==> Succ(c, 0) == c[1])
  {
  }

  /** The nodes a splice reads and writes, by position in `c + l`. */
  lemma SpliceNodes(m: Mem, l: seq<int>, c: seq<int>, k: nat)
    requires Ring(m, l) && Ring(m, c) && |l| > 1 && Spaced(c + l) && k < |c + l|
    ensures Next(m, l[0]) == l[1] && Prev(m, l[0]) == l[|l| - 1] && Prev(m, c[0]) == c[|c| - 1]
    ensures var x, w := (c + l)[k], SpliceTail(m, l[0], c[0]); Next(w, x) == if x == l[0] then l[0] else if x == l[|l| - 1] then c[0] else if x == c[|c| - 1] then l[1] else Next(m, x)
    ensures var x, w := (c + l)[k], SpliceTail(m, l[0], c[0]); Prev(w, x) == if x == l[0] then l[0] else if x == c[0] then l[|l| - 1] else if x == l[1] then c[|c| - 1] else Prev(m, x)
  {
    hide *;
    var d, n, t := c + l, |c|, |l|;
    RingSize(m, c);
    RingAt(m, l, 0);
    RingAt(m, l, t - 1);
    RingAt(m, c, n - 1);
    SuccEnds(l);
    SuccEnds(c);
    assert d[n] == l[0] && d[n + 1] == l[1] && d[n + t - 1] == l[t - 1] && d[0] == c[0] && d[n - 1] == c[n - 1];
    NodesApart(d, n, n + 1);
    NodesApart(d, n, n + t - 1);
    NodesApart(d, n + 1, n + t - 1);
    NodesApart(d, 0, n - 1);
    NodesApart(d, n, 0);
    NodesApart(d, n, n - 1);
    NodesApart(d, n + 1, 0);
    NodesApart(d, n + 1, n - 1);
    NodesApart(d, n + t - 1, 0);
    NodesApart(d, n + t - 1, n - 1);
    NodesApart(d, k, n);
    NodesApart(d, k, n + 1);
    NodesApart(d, k, n + t - 1);
    NodesApart(d, k, 0);
    NodesApart(d, k, n - 1);
    SpliceFields(m, l[0], c[0], l[1], l[t - 1], c[n - 1], d[k]);
  }

  lemma SpliceLink(m: Mem, l: seq<int>, c: seq<int>, i: nat)
    requires Ring(m, l) && Ring(m, c) && |l| > 1 && Spaced(c + l) && i < |c| + |l| - 1
    ensures var w, e := SpliceTail(m, l[0], c[0]), c + l[1..]; Next(w, e[i]) == Succ(e, i) && Prev(w, Succ(e, i)) == e[i]
  {
    hide *;
    var d, n, t := c + l, |c|, |l|;
    var e := c + l[1..];
    RingSize(m, c);
    SuccAt(e, i);
    // position of e[i] and of its successor in d
    var k := if i < n then i else i + 1;
    var s := if i + 1 == |e| then 0 else if i + 1 < n then i + 1 else i + 2;
    assert e[i] == d[k] && Succ(e, i) == d[s];
    assert d[n] == l[0] && d[n + 1] == l[1] && d[n + t - 1] == l[t - 1] && d[0] == c[0] && d[n - 1] == c[n - 1];
    if i < n { RingAt(m, c, i); } else { RingAt(m, l, i - n + 1); }
    assert i + 1 < n ==> d[i + 1] == c[i + 1] && d[i] == c[i];
    assert n <= i < |e| - 1 ==> d[i + 1] == l[i - n + 1] && d[i + 2] == l[i - n + 2];
    SpliceNodes(m, l, c, k);
    SpliceNodes(m, l, c, s);
    if i < n { SuccAt(c, i); } else { SuccAt(l, i - n + 1); }
    SuccEnds(c);
    SuccEnds(l);
    NodesApart(d, k, n);
    NodesApart(d, k, n + t - 1);
    NodesApart(d, k, n - 1);
    NodesApart(d, s, n);
    NodesApart(d, s, 0);
    NodesApart(d, s, n + 1);
  }

  lemma SpliceEmptied(m: Mem, l: seq<int>, c: seq<int>)
    requires Ring(m, l) && Ring(m, c) && |l| > 1 && Spaced(c + l)
    ensures Ring(SpliceTail(m, l[0], c[0]), [l[0]])
  {
    assert (c + l)[|c|] == l[0];
    SpliceNodes(m, l, c, |c|);
  }

  // ----- in place -----

  /** Word memory as the kernel sees it. */
  class Memory {
    var words: Mem

    constructor (words: Mem)
      ensures this.words == words
    {
      this.words := words;
    }

    method Store(a: int, v: int)
      modifies this
      ensures words == old(words)[a := v]
    {
      words := words[a := v];
    }

    method InitListHead(list: int)
      modifies this
      ensures words == Init(old(words), list)
    {
      Store(list, list);
      Store(list + 4, list);
    }

    method ListAddTail(add: int, head: int)
      modifies this
      ensures words == AddTail(old(words), add, head)
    {
      var prev := Prev(words, head);
      Store(head + 4, add);
      Store(add, head);
      Store(add + 4, prev);
      Store(prev, add);
    }

    method ListDel(entry: int)
      modifies this
      ensures words == Del(old(words), entry)
    {
      var prev, next := Prev(words, entry), Next(words, entry);
      Store(next + 4, prev);
      Store(prev, next);
      Store(entry + 4, 0);
      Store(entry, 0);
    }

    method ListSpliceTail(list: int, head: int)
      modifies this
      ensures words == SpliceTail(old(words), list, head)
    {
      if Next(words, list) == list {
        return;
      }
      var first, last, tail := Next(words, list), Prev(words, list), Prev(words, head);
      Store(first + 4, tail);
      Store(tail, first);
      Store(last, head);
      Store(head + 4, last);
      Store(list, list);
      Store(list + 4, list);
    }
  }
}
