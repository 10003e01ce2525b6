// The linked queues of the scheduler (final/src/sched.c, lines 33-89 and 200-236): nodes with
// next pointers, each queue tied to the sequence of what it holds.
module ThreadQueues {
  import opened Sched

  class Thread {
    var tid: nat
    var ppid: nat
    var exited: bool
    var ready: bool

    constructor (tid: nat, ppid: nat)
      ensures this.tid == tid && this.ppid == ppid && !exited && ready
    {
      this.tid, this.ppid, exited, ready := tid, ppid, false, true;
    }
  }

  /** `rpi_thread_fifo`. */
  class ReadyNode {
    const t: Thread
    var next: ReadyNode?

    constructor (t: Thread)
      ensures this.t == t && next == null
    {
      this.t, next := t, null;
    }
  }

  /** `ready_q`. */
  class ReadyQueue {
    var head: ReadyNode?
    ghost var nodes: seq<ReadyNode>
    ghost var content: seq<Thread>
    ghost var repr: set<ReadyNode>

    ghost function NodeAt(i: nat): (n: ReadyNode?)
      reads `nodes
      ensures i < |nodes| ==> n == nodes[i]
    {
      if i < |nodes| then nodes[i] else null
    }

    /** Node `i` leads to the next, holds its thread and is none of the earlier ones. */
    ghost predicate NodeOk(i: nat)
      reads this, repr
    {
      && i < |nodes| == |content| && nodes[i] in repr && nodes[i].next == NodeAt(i + 1) && content[i] == nodes[i].t
      && forall j :: 0 <= j < i ==> nodes[j] != nodes[i]
    }

    ghost predicate Valid()
      reads this, repr
    {
      && head == NodeAt(0) && |content| == |nodes|
      && forall i: nat {:trigger NodeOk(i)} :: i < |nodes| ==> NodeOk(i)
    }

    constructor ()
      ensures Valid() && content == [] && repr == {}
    {
      head, nodes, content, repr := null, [], [], {};
    }

    /** `t_pop`. */
    method Pop() returns (t: Thread?)
      requires Valid()
      modifies this
      ensures Valid() && repr == old(repr)
      ensures if old(content) == [] then t == null && content == [] else t == old(content)[0] && content == old(content)[1..]
    {
      t := null;
      if head != null {
        assert NodeOk(0);
        t := head.t;
        head := head.next;
        nodes, content := nodes[1..], content[1..];
        forall i: nat | i < |nodes| ensures NodeOk(i) {
          assert old(NodeOk(i + 1));
          forall j | 0 <= j < i ensures nodes[j] != nodes[i] { assert nodes[j] == old(nodes)[j + 1]; }
        }
      }
    }

    /** `t_push`: the walk to the last node. */
    method Push(x: Thread)
      requires Valid()
      modifies this, repr
      ensures Valid() && content == old(content) + [x] && fresh(repr - old(repr))
    {
      var o := new ReadyNode(x);
      ghost var k := 0;
      if head == null {
        head := o;
      } else {
        var c := head;
        while c.next != null
          invariant k < |nodes| && c == nodes[k] && NodeOk(k)
          decreases |nodes| - k
        {
          assert NodeOk(k + 1);
          c := c.next;
          k := k + 1;
        }
        c.next := o;
      }
      nodes, content, repr := nodes + [o], content + [x], repr + {o};
      forall i: nat | i < |nodes| ensures NodeOk(i) {
        if i < |nodes| - 1 { assert old(NodeOk(i)); }
        else { forall j | 0 <= j < i ensures nodes[j] != o { assert old(NodeOk(j)); } }
      }
    }
  }

  /** `rpi_sleeping_thread_t`. */
  class Sleeping {
    const t: Thread
    var ticks: nat

    constructor (t: Thread, ticks: nat)
      ensures this.t == t && this.ticks == ticks
    {
      this.t, this.ticks := t, ticks;
    }
  }

  /** `rpi_sleeping_thread_fifo`. */
  class SleepNode {
    const s: Sleeping
    var next: SleepNode?

    constructor (s: Sleeping)
      ensures this.s == s && next == null
    {
      this.s, next := s, null;
    }
  }

  /** `sleeping_q`. */
  class SleepQueue {
    var head: SleepNode?
    ghost var nodes: seq<SleepNode>
    ghost var content: seq<Sleeper<Thread>>
    ghost var repr: set<SleepNode>
    ghost var records: set<Sleeping>

    ghost function NodeAt(i: nat): (n: SleepNode?)
      reads `nodes
      ensures i < |nodes| ==> n == nodes[i]
    {
      if i < |nodes| then nodes[i] else null
    }

    /** Node `i` leads to the next and is none of the earlier ones. */
    ghost predicate NodeOk(i: nat)
      reads `nodes, `repr, repr
    {
      && i < |nodes| && nodes[i] in repr && nodes[i].next == NodeAt(i + 1)
      && forall j :: 0 <= j < i ==> nodes[j] != nodes[i]
    }

    /** The next pointers lead through the nodes. */
    ghost predicate Linked()
      reads `head, `nodes, `repr, repr
    {
      head == NodeAt(0) && forall i: nat {:trigger NodeOk(i)} :: i < |nodes| ==> NodeOk(i)
    }

    /** The record of node `i` is its own and holds what `content` says. */
    ghost predicate RecordOk(i: nat)
      reads `nodes, `content, `records, records
    {
      && i < |nodes| == |content| && nodes[i].s in records && content[i] == Sleeper(nodes[i].s.t, nodes[i].s.ticks)
      && forall j :: 0 <= j < i ==> nodes[j].s != nodes[i].s
    }

    ghost predicate Tied()
      reads `nodes, `content, `records, records
    {
      |content| == |nodes| && forall i: nat {:trigger RecordOk(i)} :: i < |nodes| ==> RecordOk(i)
    }

    ghost predicate Valid()
      reads this, repr, records
    {
      Linked() && Tied()
    }

    constructor ()
      ensures Valid() && content == [] && repr == {} && records == {}
    {
      head, nodes, content, repr, records := null, [], [], {}, {};
    }

    /** The walk to the last node. */
    method Append(o: SleepNode)
      requires Linked() && o.next == null && o !in repr
      modifies `head, `nodes, `repr, repr
      ensures Linked() && nodes == old(nodes) + [o] && repr == old(repr) + {o}
    {
      if head == null {
        head := o;
      } else {
        var c := head;
        ghost var k := 0;
        while c.next != null
          invariant k < |nodes| && c == nodes[k] && NodeOk(k)
          decreases |nodes| - k
        {
          assert NodeOk(k + 1);
          c := c.next;
          k := k + 1;
        }
        c.next := o;
      }
      nodes, repr := nodes + [o], repr + {o};
      forall i: nat | i < |nodes| ensures NodeOk(i) {
        if i < |nodes| - 1 { assert old(NodeOk(i)); }
        else { forall j | 0 <= j < i ensures nodes[j] != o { assert old(NodeOk(j)); } }
      }
    }

    /** `s_push`. */
    method Push(x: Sleeping)
      requires Valid() && x !in records
      modifies this, repr
      ensures Valid() && content == old(content) + [Sleeper(x.t, x.ticks)]
      ensures fresh(repr - old(repr)) && records == old(records) + {x}
    {
      var o := new SleepNode(x);
      Append(o);
      content, records := content + [Sleeper(x.t, x.ticks)], records + {x};
      forall i: nat | i < |nodes| ensures RecordOk(i) {
        if i < |nodes| - 1 { assert old(RecordOk(i)); }
        else { forall j | 0 <= j < i ensures nodes[j].s != x { assert old(RecordOk(j)); } }
      }
    }

    /** `curr` is node `i`, or the end, and `prev` the node before it. */
    static ghost predicate Cursor(ns: seq<SleepNode>, prev: SleepNode?, curr: SleepNode?, i: nat) {
      i <= |ns| && curr == (if i < |ns| then ns[i] else null) && prev == (if i > 0 then ns[i - 1] else null)
    }

    /** Line 211: one tick off the record of node `i`. */
    method CountDown(ghost prev: SleepNode?, curr: SleepNode, ghost i: nat)
      requires Valid() && Cursor(nodes, prev, curr, i)
      modifies `content, records
      ensures Valid() && nodes == old(nodes) && i < |content|
      ensures content == old(content)[i := Sleeper(old(content)[i].t, Less(old(content)[i].ticks))] && content[i] == Sleeper(curr.s.t, curr.s.ticks)
    {
      assert RecordOk(i);
      curr.s.ticks := if curr.s.ticks == 0 then 0xFFFF_FFFF else curr.s.ticks - 1;
      content := content[i := Sleeper(curr.s.t, curr.s.ticks)];
      forall k: nat | k < |nodes| ensures RecordOk(k) {
        assert old(RecordOk(k)) && old(RecordOk(i));
      }
    }

    /** Lines 222-227: node `i` unlinked behind `prev`. */
    method Unlink(prev: SleepNode?, curr: SleepNode, ghost i: nat) returns (next: SleepNode?)
      requires Linked() && Cursor(nodes, prev, curr, i)
      modifies `head, `nodes, repr
      ensures Linked() && Cursor(nodes, prev, next, i)
      ensures nodes == old(nodes)[..i] + old(nodes)[i + 1..]
    {
      ghost var ns := nodes;
      assert NodeOk(i) && (i > 0 ==> NodeOk(i - 1));
      if prev != null { prev.next := curr.next; } else { head := curr.next; }
      next := curr.next;
      nodes := ns[..i] + ns[i + 1..];
      forall k: nat | k < |nodes| ensures NodeOk(k) {
        var j := if k < i then k else k + 1;
        assert nodes[k] == ns[j] && old(NodeOk(j));
        forall n | 0 <= n < k ensures nodes[n] != nodes[k] { assert nodes[n] == ns[if n < i then n else n + 1]; }
      }
    }

    /** Lines 222-231: the node removed, and the walk goes on behind it. */
    method Remove(prev: SleepNode?, curr: SleepNode, ghost i: nat) returns (next: SleepNode?)
      requires Valid() && Cursor(nodes, prev, curr, i)
      modifies this, repr
      ensures Valid() && Cursor(nodes, prev, next, i) && repr == old(repr) && records == old(records)
      ensures content == old(content)[..i] + old(content)[i + 1..]
    {
      ghost var ns := nodes;
      next := Unlink(prev, curr, i);
      content := content[..i] + content[i + 1..];
      forall k: nat | k < |nodes| ensures RecordOk(k) {
        var j := if k < i then k else k + 1;
        assert nodes[k] == ns[j] && old(RecordOk(j));
        forall n | 0 <= n < k ensures nodes[n].s != nodes[k].s { assert nodes[n] == ns[if n < i then n else n + 1]; }
      }
    }

    /** Lines 233-234. */
    method Next(prev: SleepNode?, curr: SleepNode, ghost i: nat) returns (next: SleepNode?)
      requires Valid() && Cursor(nodes, prev, curr, i)
      ensures Cursor(nodes, curr, next, i + 1)
    {
      assert NodeOk(i);
      next := curr.next;
    }
  }
}
