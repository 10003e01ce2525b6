// The scheduler's globals and thread records in place (final/src/sched.c), over the linked
// queues of `ThreadQueues`.
module Scheduler {
  import opened Sched
  import opened ThreadQueues

  function PcbOf(t: Thread): Pcb
    reads t
  {
    Pcb(t.tid, t.ppid, t.exited, t.ready)
  }

  /** The boot thread alone; the next thread number is 2 (line 31). */
  function Boot(root: Thread): State<Thread>
    reads root
  {
    var pcb: map<Thread, Pcb> := map[root := PcbOf(root)];
    State(pcb, [], [], root, 2, Running)
  }

  class Globals {
    const readyQ: ReadyQueue
    const sleepingQ: SleepQueue
    var cur: Thread
    var tid: nat
    var mode: Mode
    ghost var threads: set<Thread>

    ghost function Pcbs(): map<Thread, Pcb>
      reads `threads, threads
    {
      map t | t in threads :: PcbOf(t)
    }

    ghost function St(): (s: State<Thread>)
      reads this, threads, readyQ`content, sleepingQ`content
      ensures s.pcb == Pcbs() && s.pcb.Keys == threads && s.ready == readyQ.content && s.sleeping == sleepingQ.content && s.cur == cur && s.nextTid == tid && s.mode == mode
      ensures forall t :: t in threads ==> s.pcb[t] == PcbOf(t)
    {
      State(Pcbs(), readyQ.content, sleepingQ.content, cur, tid, mode)
    }

    /** The linked queues are in order. */
    ghost predicate Queues()
      reads readyQ, readyQ.repr, sleepingQ, sleepingQ.repr, sleepingQ.records
    {
      readyQ.Valid() && sleepingQ.Valid()
    }

    ghost predicate Valid()
      reads this, threads, readyQ, readyQ.repr, sleepingQ, sleepingQ.repr, sleepingQ.records
    {
      Queues() && Known(St())
    }

    /** The boot thread runs alone. */
    constructor (root: Thread)
      requires !root.exited && root.ready
      ensures fresh(this) && fresh(readyQ) && fresh(sleepingQ) && Valid() && threads == {root} && Inv(St())
      ensures St() == Boot(root)
    {
      readyQ := new ReadyQueue();
      sleepingQ := new SleepQueue();
      cur, tid, mode, threads := root, 2, Running, {root};
    }

    /** `t_pop`, seen from the whole state. */
    method TPop() returns (t: Thread?)
      requires Queues()
      modifies readyQ
      ensures Queues() && readyQ.repr == old(readyQ.repr)
      ensures (t == null <==> old(readyQ.content) == []) && (t != null ==> t == old(readyQ.content)[0])
      ensures St() == old(St()).(ready := if t == null then [] else old(readyQ.content)[1..])
    {
      t := readyQ.Pop();
    }

    /** `t_push`. */
    method TPush(x: Thread)
      requires Queues()
      modifies readyQ, readyQ.repr
      ensures Queues() && fresh(readyQ.repr - old(readyQ.repr))
      ensures St() == old(St()).(ready := old(readyQ.content) + [x])
    {
      readyQ.Push(x);
    }

    method Continue(t: Thread, m: Mode)
      requires Queues()
      modifies `cur, `mode
      ensures Queues() && St() == old(St()).(cur := t, mode := m)
    {
      cur, mode := t, m;
    }

    /** The null test of a queue's head. */
    lemma Heads()
      requires Queues()
      ensures (readyQ.head == null <==> St().ready == []) && (sleepingQ.head == null <==> St().sleeping == [])
    {
      assert |readyQ.nodes| == 0 ==> readyQ.NodeAt(0) == null;
      assert |sleepingQ.nodes| == 0 ==> sleepingQ.NodeAt(0) == null;
    }

    /** `cs_do_sched`. */
    method DoSched()
      requires Valid()
      modifies readyQ, readyQ.repr, `cur, `mode
      ensures Valid() && St() == Schedule(old(St()))
      ensures fresh(readyQ.repr - old(readyQ.repr))
      decreases 2 * |readyQ.content| + 1
    {
      hide *;
      ghost var s := St();
      IsKnown();
      ScheduleCases(s);
      ScheduleKeeps(s);
      Flags(cur, s);
      if s.ready != [] { Flags(s.ready[0], s); }
      RestKnown(s);
      var next := TPop();
      if next != null && !next.exited && next.ready {
        if !cur.exited && cur.ready { TPush(cur); }
        Continue(next, Running);
      } else if cur.exited || !cur.ready {
        Starved();
      } else {
        Continue(cur, Running);
      }
      assert St() == Schedule(s);
      MakeValid();
    }

    /** Lines 148-171: nothing to run yet; take the next entry, wait for a tick, or panic. */
    method Starved()
      requires Queues() && Known(St())
      modifies readyQ, readyQ.repr, `cur, `mode
      ensures Queues() && fresh(readyQ.repr - old(readyQ.repr))
      ensures St() == if old(St()).ready != [] then Schedule(old(St())) else old(St()).(mode := if old(St()).sleeping != [] then Idle else Panic)
      decreases if readyQ.content == [] then 0 else 2 * |readyQ.content| + 2
    {
      hide *;
      Heads();
      if readyQ.head != null {
        MakeValid();
        DoSched();
        IsKnown();
      } else {
        Continue(cur, if sleepingQ.head != null then Idle else Panic);
      }
    }

    lemma RestKnown(s: State<Thread>)
      requires Known(s)
      ensures Known(s.(ready := if s.ready == [] then [] else s.ready[1..]))
    {
    }

    lemma Flags(t: Thread, s: State<Thread>)
      requires t in threads && s == St()
      ensures t in s.pcb && (Runnable(s, t) <==> !t.exited && t.ready)
    {
    }

    lemma IsKnown()
      requires Valid()
      ensures Queues() && Known(St()) && cur in threads && forall t :: t in readyQ.content ==> t in threads
      ensures forall i :: 0 <= i < |sleepingQ.content| ==> sleepingQ.content[i].t in threads
    {
    }

    lemma MakeValid()
      requires Queues() && Known(St())
      ensures Valid()
    {
    }

    /** The part of the sleeping list before `n` has been processed. */
    ghost predicate Ticked(s: State<Thread>, l: seq<Sleeper<Thread>>, n: nat)
      requires n <= |l|
      reads this, threads, readyQ`content, sleepingQ`content
    {
      && threads == s.pcb.Keys && cur == s.cur && tid == s.nextTid && mode == s.mode
      && sleepingQ.content == Remaining(l[..n]) + l[n..] && readyQ.content == s.ready + Woken(l[..n])
      && Pcbs() == Wake(s.pcb, Woken(l[..n]))
    }

    /** Line 211. */
    method CountDown(ghost prev: SleepNode?, curr: SleepNode, ghost i: nat)
      requires Queues() && SleepQueue.Cursor(sleepingQ.nodes, prev, curr, i)
      modifies sleepingQ`content, sleepingQ.records
      ensures Queues() && sleepingQ.nodes == old(sleepingQ.nodes)
      ensures readyQ.content == old(readyQ.content) && Pcbs() == old(Pcbs())
      ensures i < |old(sleepingQ.content)| && sleepingQ.content == old(sleepingQ.content)[i := Sleeper(old(sleepingQ.content)[i].t, Less(old(sleepingQ.content)[i].ticks))]
      ensures sleepingQ.content[i] == Sleeper(curr.s.t, curr.s.ticks)
    {
      hide Less;
      sleepingQ.CountDown(prev, curr, i);
    }

    /** Lines 214-221. */
    method WakeThread(t: Thread)
      requires t in threads && Queues()
      modifies readyQ, readyQ.repr, threads`ready
      ensures Queues() && fresh(readyQ.repr - old(readyQ.repr)) && readyQ.content == old(readyQ.content) + [t]
      ensures Pcbs() == old(Pcbs())[t := old(Pcbs()[t]).(ready := true)]
      ensures sleepingQ.content == old(sleepingQ.content) && sleepingQ.nodes == old(sleepingQ.nodes)
    {
      t.ready := true;
      readyQ.Push(t);
    }

    /** Lines 222-231. */
    method Remove(prev: SleepNode?, curr: SleepNode, ghost i: nat) returns (next: SleepNode?)
      requires Queues() && SleepQueue.Cursor(sleepingQ.nodes, prev, curr, i) && i < |sleepingQ.content|
      modifies sleepingQ, sleepingQ.repr
      ensures Queues() && SleepQueue.Cursor(sleepingQ.nodes, prev, next, i)
      ensures readyQ.content == old(readyQ.content) && Pcbs() == old(Pcbs())
      ensures sleepingQ.content == old(sleepingQ.content)[..i] + old(sleepingQ.content)[i + 1..]
      ensures sleepingQ.repr == old(sleepingQ.repr) && sleepingQ.records == old(sleepingQ.records)
    {
      next := sleepingQ.Remove(prev, curr, i);
    }

    method Next(prev: SleepNode?, curr: SleepNode, ghost i: nat) returns (next: SleepNode?)
      requires Queues() && SleepQueue.Cursor(sleepingQ.nodes, prev, curr, i)
      ensures SleepQueue.Cursor(sleepingQ.nodes, curr, next, i + 1)
    {
      next := sleepingQ.Next(prev, curr, i);
    }

    /** The walk has processed `n` entries of the list and stands at node `i` of what is left. */
    ghost predicate Turn(prev: SleepNode?, curr: SleepNode?, i: nat, s: State<Thread>, l: seq<Sleeper<Thread>>, n: nat)
      reads this, threads, readyQ, readyQ.repr, sleepingQ, sleepingQ.repr, sleepingQ.records
    {
      && Queues() && SleepQueue.Cursor(sleepingQ.nodes, prev, curr, i)
      && n <= |l| && i == |Remaining(l[..n])| && Ticked(s, l, n) && (curr != null <==> n < |l|)
      && forall k :: 0 <= k < |l| ==> l[k].t in threads
    }

    lemma TurnParts(prev: SleepNode?, curr: SleepNode?, i: nat, s: State<Thread>, l: seq<Sleeper<Thread>>, n: nat)
      requires Turn(prev, curr, i, s, l, n)
      ensures Queues() && SleepQueue.Cursor(sleepingQ.nodes, prev, curr, i)
      ensures n <= |l| && i == |Remaining(l[..n])| && Ticked(s, l, n) && (curr != null <==> n < |l|)
      ensures n < |l| ==> l[n].t in threads
    {
    }

    lemma TurnMake(prev: SleepNode?, curr: SleepNode?, i: nat, s: State<Thread>, l: seq<Sleeper<Thread>>, n: nat)
      requires Queues() && SleepQueue.Cursor(sleepingQ.nodes, prev, curr, i)
      requires n <= |l| && i == |Remaining(l[..n])| && Ticked(s, l, n) && Known(s) && l == s.sleeping
      ensures Turn(prev, curr, i, s, l, n)
    {
      hide Remaining, Woken, Wake;
      assert |sleepingQ.content| == i + (|l| - n);
    }

    /** One node of the list (lines 211-234): counted down, and on zero woken, queued and unlinked. */
    method TickTurn(prev: SleepNode?, curr: SleepNode, ghost i: nat, ghost s: State<Thread>, ghost l: seq<Sleeper<Thread>>, ghost n: nat)
      returns (prev': SleepNode?, curr': SleepNode?, ghost i': nat)
      requires Turn(prev, curr, i, s, l, n) && Known(s) && l == s.sleeping
      modifies readyQ, readyQ.repr, sleepingQ, sleepingQ.repr, sleepingQ.records, threads`ready
      ensures n < |l| && Turn(prev', curr', i', s, l, n + 1)
      ensures fresh(readyQ.repr - old(readyQ.repr)) && sleepingQ.repr == old(sleepingQ.repr) && sleepingQ.records == old(sleepingQ.records)
    {
      hide *;
      TurnParts(prev, curr, i, s, l, n);
      TickNext(l, n);
      TickedParts(s, l, n);
      ListStep(Remaining(l[..n]), l, n, Sleeper(l[n].t, Less(l[n].ticks)));
      CountDown(prev, curr, i);
      if curr.s.ticks == 0 {
        prev', i' := prev, i;
        curr' := WakeTurn(prev, curr, i, s, l, n);
      } else {
        prev', i' := curr, i + 1;
        curr' := KeepTurn(prev, curr, i, s, l, n);
      }
    }

    method KeepTurn(prev: SleepNode?, curr: SleepNode, ghost i: nat, ghost s: State<Thread>, ghost l: seq<Sleeper<Thread>>, ghost n: nat)
      returns (curr': SleepNode?)
      requires Queues() && SleepQueue.Cursor(sleepingQ.nodes, prev, curr, i) && Known(s) && l == s.sleeping
      requires n < |l| && i == |Remaining(l[..n])| && Less(l[n].ticks) != 0
      requires threads == s.pcb.Keys && cur == s.cur && tid == s.nextTid && mode == s.mode
      requires sleepingQ.content == Remaining(l[..n]) + [Sleeper(l[n].t, Less(l[n].ticks))] + l[n + 1..]
      requires readyQ.content == s.ready + Woken(l[..n]) && Pcbs() == Wake(s.pcb, Woken(l[..n]))
      ensures Turn(curr, curr', i + 1, s, l, n + 1)
    {
      hide *;
      TickNext(l, n);
      curr' := Next(prev, curr, i);
      TickedMake(s, l, n + 1);
      TurnMake(curr, curr', i + 1, s, l, n + 1);
    }

    method WakeTurn(prev: SleepNode?, curr: SleepNode, ghost i: nat, ghost s: State<Thread>, ghost l: seq<Sleeper<Thread>>, ghost n: nat)
      returns (curr': SleepNode?)
      requires Queues() && SleepQueue.Cursor(sleepingQ.nodes, prev, curr, i)
      requires Known(s) && l == s.sleeping
      requires n < |l| && i == |Remaining(l[..n])| && curr.s.t == l[n].t && l[n].t in threads && Less(l[n].ticks) == 0
      requires threads == s.pcb.Keys && cur == s.cur && tid == s.nextTid && mode == s.mode && l[n].t in s.pcb && l[n].t in Pcbs()
      requires i < |sleepingQ.content| && sleepingQ.content[..i] + sleepingQ.content[i + 1..] == Remaining(l[..n]) + l[n + 1..]
      requires readyQ.content == s.ready + Woken(l[..n]) && Pcbs() == Wake(s.pcb, Woken(l[..n]))
      modifies readyQ, readyQ.repr, sleepingQ, sleepingQ.repr, threads`ready
      ensures Turn(prev, curr', i, s, l, n + 1)
      ensures fresh(readyQ.repr - old(readyQ.repr)) && sleepingQ.repr == old(sleepingQ.repr) && sleepingQ.records == old(sleepingQ.records)
    {
      hide *;
      TickNext(l, n);
      WakeOne(s.pcb, Woken(l[..n]), l[n].t);
      WakeThread(curr.s.t);
      curr' := Remove(prev, curr, i);
      assert readyQ.content == s.ready + Woken(l[..n + 1]);
      TickedMake(s, l, n + 1);
      TurnMake(prev, curr', i, s, l, n + 1);
    }

    lemma TickedParts(s: State<Thread>, l: seq<Sleeper<Thread>>, n: nat)
      requires n < |l| && Ticked(s, l, n) && l[n].t in threads
      ensures threads == s.pcb.Keys && cur == s.cur && tid == s.nextTid && mode == s.mode && l[n].t in s.pcb
      ensures sleepingQ.content == Remaining(l[..n]) + l[n..] && readyQ.content == s.ready + Woken(l[..n])
      ensures Pcbs() == Wake(s.pcb, Woken(l[..n])) && l[n].t in Pcbs()
      ensures |sleepingQ.content| > |Remaining(l[..n])|
    {
      hide Remaining, Woken, Wake;
    }

    lemma TickedMake(s: State<Thread>, l: seq<Sleeper<Thread>>, n: nat)
      requires n <= |l| && threads == s.pcb.Keys && cur == s.cur && tid == s.nextTid && mode == s.mode
      requires sleepingQ.content == Remaining(l[..n]) + l[n..] && readyQ.content == s.ready + Woken(l[..n])
      requires Pcbs() == Wake(s.pcb, Woken(l[..n]))
      ensures Ticked(s, l, n)
    {
    }

    /** Unlinking node `n`, or replacing it. */
    static lemma ListStep<X>(r: seq<X>, l: seq<X>, n: nat, y: X)
      requires n < |l|
      ensures (r + l[n..])[|r|] == l[n]
      ensures (r + l[n..])[|r| := y] == r + [y] + l[n + 1..]
      ensures (r + l[n..])[|r| := y][..|r|] + (r + l[n..])[|r| := y][|r| + 1..] == r + l[n + 1..]
    {
    }

    lemma TickStart()
      requires Valid()
      ensures Turn(null, sleepingQ.head, 0, St(), sleepingQ.content, 0)
    {
      Heads();
      TurnMake(null, sleepingQ.head, 0, St(), sleepingQ.content, 0);
    }

    lemma TickEnd(s: State<Thread>, l: seq<Sleeper<Thread>>)
      requires Queues() && Known(s) && l == s.sleeping && Ticked(s, l, |l|)
      ensures Valid() && St() == Tick(s)
    {
      assert l[..|l|] == l;
      TickKnown(s);
      hide Remaining, Woken, Wake, Known;
    }

    /** `tick_try_to_wake_up`. */
    method TickTryToWakeUp()
      requires Valid()
      modifies readyQ, readyQ.repr, sleepingQ, sleepingQ.repr, sleepingQ.records, threads`ready
      ensures Valid() && St() == Tick(old(St()))
      ensures fresh(readyQ.repr - old(readyQ.repr))
    {
      hide *;
      ghost var s := St();
      ghost var l := s.sleeping;
      ghost var n, i: nat := 0, 0;
      IsKnown();
      TickStart();
      var prev: SleepNode?, curr := null, sleepingQ.head;
      while curr != null
        invariant Turn(prev, curr, i, s, l, n) && fresh(readyQ.repr - old(readyQ.repr))
        invariant sleepingQ.records == old(sleepingQ.records) && sleepingQ.repr == old(sleepingQ.repr)
        decreases |l| - n
      {
        prev, curr, i := TickTurn(prev, curr, i, s, l, n);
        n := n + 1;
      }
      TurnParts(prev, curr, i, s, l, n);
      TickEnd(s, l);
    }

    static lemma WakeOne(pcb: map<Thread, Pcb>, ts: seq<Thread>, t: Thread)
      requires t in pcb
      ensures Wake(pcb, ts + [t]) == Wake(pcb, ts)[t := Wake(pcb, ts)[t].(ready := true)]
    {
    }

    /** The steps by name. */
    static lemma StepIs(s: State<Thread>)
      requires Known(s)
      ensures Known(Tick(s)) && Step(s, KernelTick) == Tick(s) && Step(s, UserTick) == Schedule(Tick(s)) && Step(s, IdleTick) == Tick(s)
      ensures Known(Exited(s)) && Step(s, Exit) == Schedule(Exited(s))
      ensures forall ticks :: Known(Asleep(s, ticks)) && Step(s, Sleep(ticks)) == Schedule(Asleep(s, ticks))
    {
      TickKnown(s);
    }

    static lemma AsleepIs(s: State<Thread>, ticks: nat)
      requires Known(s)
      ensures Known(Asleep(s, ticks)) && s.cur in s.pcb
      ensures Asleep(s, ticks) == s.(pcb := s.pcb[s.cur := s.pcb[s.cur].(ready := false)], sleeping := s.sleeping + [Sleeper(s.cur, ticks)])
    {
    }

    static lemma LookIs(s: State<Thread>)
      requires Known(s)
      ensures Step(s, IdleLook) == if s.ready != [] then Schedule(s) else if s.sleeping != [] then s else s.(mode := Panic)
    {
      hide Schedule, Asleep, Exited, Forked, Tick, Known;
    }

    static lemma PanicKnown(s: State<Thread>)
      requires Known(s)
      ensures Known(s.(mode := Panic))
    {
    }

    /** Line 185. */
    method NotReady()
      requires Valid()
      modifies cur`ready
      ensures Queues() && cur in old(St()).pcb && St() == old(St()).(pcb := old(St()).pcb[cur := old(St()).pcb[cur].(ready := false)])
    {
      ghost var s := St();
      cur.ready := false;
      assert forall t :: t in threads ==> St().pcb[t] == s.pcb[cur := s.pcb[cur].(ready := false)][t];
    }

    /** Lines 186-189. */
    method SPush(ticks: nat)
      requires Queues()
      modifies sleepingQ, sleepingQ.repr
      ensures Queues() && St() == old(St()).(sleeping := old(St()).sleeping + [Sleeper(cur, ticks)])
    {
      hide Known, PcbOf;
      var x := new Sleeping(cur, ticks);
      sleepingQ.Push(x);
    }

    /** `cs_svc_sleep`. */
    method SvcSleep(ticks: nat)
      requires Valid() && Legal(St(), Sleep(ticks))
      modifies readyQ, readyQ.repr, sleepingQ, sleepingQ.repr, `cur, `mode, cur`ready
      ensures Valid() && St() == Step(old(St()), Sleep(ticks))
    {
      hide *;
      ghost var s := St();
      IsKnown();
      StepIs(s);
      NotReady();
      SPush(ticks);
      AsleepIs(s, ticks);
      MakeValid();
      DoSched();
    }

    /** `rpi_exit`; the page tables are freed elsewhere. */
    method RpiExit()
      requires Valid() && Legal(St(), Exit)
      modifies readyQ, readyQ.repr, `cur, `mode, cur`exited
      ensures Valid() && St() == Step(old(St()), Exit)
    {
      ghost var s := St();
      cur.exited := true;
      assert St() == Exited(s);
      DoSched();
    }

    /** `rpi_fork`: the scheduling part. */
    method RpiFork() returns (child: Thread)
      requires Valid() && mode == Running
      modifies readyQ, readyQ.repr, `tid, `threads
      ensures fresh(child) && child !in old(threads) && threads == old(threads) + {child}
      ensures Valid() && St() == Step(old(St()), Fork(child))
    {
      hide *;
      ghost var s := St();
      IsKnown();
      child := NewThread();
      TPush(child);
      ForkIs(s, child);
      MakeValid();
    }

    static lemma ForkIs(s: State<Thread>, child: Thread)
      requires Known(s) && child !in s.pcb
      ensures Step(s, Fork(child)) == Forked(s, child) && Known(Forked(s, child))
      ensures s.cur in s.pcb && Forked(s, child) == s.(pcb := s.pcb[child := Pcb(s.nextTid, s.pcb[s.cur].tid, false, true)], ready := s.ready + [child], nextTid := (s.nextTid + 1) % 0x1_0000_0000)
    {
    }

    /** Lines 324-343, the fields that matter here. */
    method NewThread() returns (child: Thread)
      requires Valid()
      modifies `tid, `threads
      ensures Queues() && readyQ.repr == old(readyQ.repr) && fresh(child) && child !in old(threads) && threads == old(threads) + {child}
      ensures cur == old(cur) && old(cur) in old(St()).pcb
      ensures St() == old(St()).(pcb := old(St()).pcb[child := Pcb(old(tid), old(St()).pcb[old(cur)].tid, false, true)], nextTid := (old(tid) + 1) % 0x1_0000_0000)
    {
      child := new Thread(tid, cur.tid);
      AddThread(child);
    }

    method AddThread(child: Thread)
      requires Queues() && child !in threads
      modifies `tid, `threads
      ensures Queues() && threads == old(threads) + {child}
      ensures St() == old(St()).(pcb := old(St()).pcb[child := PcbOf(child)], nextTid := (old(tid) + 1) % 0x1_0000_0000)
    {
      ghost var s := St();
      tid := (tid + 1) % 0x1_0000_0000;
      threads := threads + {child};
      hide Known, Queues, Valid;
      assert forall t :: t in threads ==> St().pcb[t] == s.pcb[child := PcbOf(child)][t];
    }

    /** The timer interrupt (final/src/int.c, lines 36-46). */
    method TimerIrq(userMode: bool)
      requires Valid() && mode == Running
      modifies readyQ, readyQ.repr, sleepingQ, sleepingQ.repr, sleepingQ.records, `cur, `mode, threads`ready
      ensures Valid() && St() == Step(old(St()), if userMode then UserTick else KernelTick)
    {
      hide *;
      ghost var s := St();
      IsKnown();
      TickTryToWakeUp();
      if userMode { DoSched(); }
      StepIs(s);
    }

    /** One timer interrupt during the wait of lines 152-162: it interrupts kernel mode. */
    method IdleIrq()
      requires Valid() && mode == Idle
      modifies readyQ, readyQ.repr, sleepingQ, sleepingQ.repr, sleepingQ.records, threads`ready
      ensures Valid() && St() == Step(old(St()), IdleTick)
    {
      hide *;
      ghost var s := St();
      IsKnown();
      TickTryToWakeUp();
      StepIs(s);
    }

    /** The condition of line 152, and what follows the wait (lines 158-171). */
    method IdleLoop()
      requires Valid() && mode == Idle
      modifies readyQ, readyQ.repr, `cur, `mode
      ensures Valid() && St() == Step(old(St()), IdleLook)
    {
      hide *;
      ghost var s := St();
      IsKnown();
      Heads();
      LookIs(s);
      PanicKnown(s);
      if sleepingQ.head != null && readyQ.head == null { return; }
      if readyQ.head != null { DoSched(); } else { Continue(cur, Panic); MakeValid(); }
    }

    /** `see_if_pid_still_exists`. */
    method SeeIfPidStillExists(pid: nat) returns (found: bool)
      requires Valid()
      ensures found == PidFound(St(), pid)
      ensures NoneLost(St()) ==> (found <==> exists t :: t in threads && t.tid == pid && !t.exited)
    {
      ghost var s := St();
      if NoneLost(s) { PidExact(s, pid); }
      if cur.tid == pid && !cur.exited { return true; }
      var rq, i := readyQ.head, 0;
      while rq != null
        invariant i <= |readyQ.nodes| && rq == readyQ.NodeAt(i)
        invariant forall k :: 0 <= k < i ==> !(s.pcb[s.ready[k]].tid == pid && !s.pcb[s.ready[k]].exited)
        decreases |readyQ.nodes| - i
      {
        assert readyQ.NodeOk(i);
        assert rq.t == s.ready[i] && rq.t in s.pcb;
        if rq.t.tid == pid && !rq.t.exited { return true; }
        rq, i := rq.next, i + 1;
      }
      var sq, k := sleepingQ.head, 0;
      while sq != null
        invariant k <= |sleepingQ.nodes| && sq == sleepingQ.NodeAt(k)
        invariant forall j :: 0 <= j < k ==> !(s.pcb[s.sleeping[j].t].tid == pid && !s.pcb[s.sleeping[j].t].exited)
        decreases |sleepingQ.nodes| - k
      {
        assert sleepingQ.NodeOk(k) && sleepingQ.RecordOk(k);
        assert sq.s.t == s.sleeping[k].t && sq.s.t in s.pcb;
        if sq.s.t.tid == pid && !sq.s.t.exited { return true; }
        sq, k := sq.next, k + 1;
      }
      found := false;
    }
  }
}
