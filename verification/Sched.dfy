// The scheduler as a step machine (final/src/sched.c): ready FIFO, sleeping list, timer
// ticks, fork, exit, the idle wait and the panic path.
module Sched {
  const WRAP: nat := 0x1_0000_0000

  /** The scheduling fields of a thread. */
  datatype Pcb = Pcb(tid: nat, ppid: nat, exited: bool, ready: bool)

  datatype Sleeper<T> = Sleeper(t: T, ticks: nat)

  /** Where the processor is: in a thread, in the wait of lines 152-157, or rebooting. */
  datatype Mode = Running | Idle | Panic

  datatype State<T> = State(pcb: map<T, Pcb>, ready: seq<T>, sleeping: seq<Sleeper<T>>, cur: T, nextTid: nat, mode: Mode)

  predicate Known<T>(s: State<T>) {
    && s.cur in s.pcb
    && (forall t :: t in s.ready ==> t in s.pcb)
    && (forall i :: 0 <= i < |s.sleeping| ==> s.sleeping[i].t in s.pcb)
  }

  predicate Live<T>(s: State<T>, t: T)
    requires t in s.pcb
  {
    !s.pcb[t].exited
  }

  predicate Runnable<T>(s: State<T>, t: T)
    requires t in s.pcb
  {
    !s.pcb[t].exited && s.pcb[t].ready
  }

  // ----- the steps -----

  /** `cs_do_sched`: pop; switch to a live ready thread; drop any other entry; with nothing to
      run either wait for a tick, take the next entry, or panic. */
  function Schedule<T>(s: State<T>): State<T>
    requires Known(s)
    decreases |s.ready|
  {
    if s.ready != [] && Runnable(s, s.ready[0]) then
      s.(ready := s.ready[1..] + (if Runnable(s, s.cur) then [s.cur] else []), cur := s.ready[0], mode := Running)
    else
      var s1 := s.(ready := if s.ready == [] then [] else s.ready[1..]);
      if Runnable(s, s.cur) then s1.(mode := Running)
      else if s1.ready != [] then (Shorter(s); Schedule(s1))
      else if s1.sleeping != [] then s1.(mode := Idle)
      else s1.(mode := Panic)
  }

  lemma Shorter<T>(s: State<T>)
    requires Known(s) && s.ready != []
    ensures Known(s.(ready := s.ready[1..]))
  {
  }

  /** The cases of the scheduler one by one. */
  lemma ScheduleCases<T>(s: State<T>)
    requires Known(s)
    ensures s.ready != [] ==> s.ready[0] in s.pcb && Known(s.(ready := s.ready[1..]))
    ensures s.ready != [] && Runnable(s, s.ready[0]) && Runnable(s, s.cur) ==> Schedule(s) == s.(ready := s.ready[1..] + [s.cur], cur := s.ready[0], mode := Running)
    ensures s.ready != [] && Runnable(s, s.ready[0]) && !Runnable(s, s.cur) ==> Schedule(s) == s.(ready := s.ready[1..], cur := s.ready[0], mode := Running)
    ensures s.ready == [] ==> Schedule(s) == s.(mode := if Runnable(s, s.cur) then Running else if s.sleeping != [] then Idle else Panic)
    ensures s.ready != [] && !Runnable(s, s.ready[0]) && Runnable(s, s.cur) ==> Schedule(s) == s.(ready := s.ready[1..], mode := Running)
    ensures s.ready != [] && !Runnable(s, s.ready[0]) && !Runnable(s, s.cur) && |s.ready| > 1 ==> Schedule(s) == Schedule(s.(ready := s.ready[1..]))
    ensures |s.ready| == 1 && !Runnable(s, s.ready[0]) && !Runnable(s, s.cur) ==> Schedule(s) == s.(ready := [], mode := if s.sleeping != [] then Idle else Panic)
  {
    if s.ready != [] { Shorter(s); }
    hide Runnable;
  }

  /** 32-bit decrement. */
  function Less(ticks: nat): nat { if ticks == 0 then WRAP - 1 else ticks - 1 }

  /** The sleepers a tick wakes, and those it leaves, both in list order. */
  function Woken<T>(l: seq<Sleeper<T>>): seq<T> {
    if l == [] then [] else Woken(l[..|l| - 1]) + (if Less(l[|l| - 1].ticks) == 0 then [l[|l| - 1].t] else [])
  }

  function Remaining<T>(l: seq<Sleeper<T>>): seq<Sleeper<T>> {
    if l == [] then [] else
      Remaining(l[..|l| - 1]) + (if Less(l[|l| - 1].ticks) == 0 then [] else [Sleeper(l[|l| - 1].t, Less(l[|l| - 1].ticks))])
  }

  function Wake<T>(pcb: map<T, Pcb>, ts: seq<T>): map<T, Pcb> {
    map t | t in pcb :: if t in ts then pcb[t].(ready := true) else pcb[t]
  }

  /** `tick_try_to_wake_up`. */
  function Tick<T>(s: State<T>): State<T> {
    s.(pcb := Wake(s.pcb, Woken(s.sleeping)), ready := s.ready + Woken(s.sleeping), sleeping := Remaining(s.sleeping))
  }

  datatype Event<T> =
    | Yield
    | Sleep(ticks: nat)
    | Exit
    | Fork(child: T)
    | UserTick // timer interrupt taken in user mode: tick, then schedule
    | KernelTick // timer interrupt taken in a system call: tick only
    | IdleTick // timer interrupt during the wait
    | IdleLook // the wait looks at the queues again

  predicate Legal<T>(s: State<T>, e: Event<T>) {
    match e
    case IdleTick => s.mode == Idle
    case IdleLook => s.mode == Idle
    case Fork(child) => s.mode == Running && child !in s.pcb
    case Sleep(ticks) => s.mode == Running && ticks < WRAP
    case _ => s.mode == Running
  }

  function Asleep<T>(s: State<T>, ticks: nat): State<T>
    requires Known(s)
  {
    s.(pcb := s.pcb[s.cur := s.pcb[s.cur].(ready := false)], sleeping := s.sleeping + [Sleeper(s.cur, ticks)])
  }

  function Exited<T>(s: State<T>): State<T>
    requires Known(s)
  {
    s.(pcb := s.pcb[s.cur := s.pcb[s.cur].(exited := true)])
  }

  function Forked<T>(s: State<T>, child: T): State<T>
    requires Known(s)
  {
    s.(pcb := s.pcb[child := Pcb(s.nextTid, s.pcb[s.cur].tid, false, true)], ready := s.ready + [child], nextTid := (s.nextTid + 1) % WRAP)
  }

  function Step<T>(s: State<T>, e: Event<T>): State<T>
    requires Known(s)
  {
    match e
    case Yield => Schedule(s)
    case Sleep(ticks) => Schedule(Asleep(s, ticks))
    case Exit => Schedule(Exited(s))
    case Fork(child) => Forked(s, child)
    case UserTick => (TickKnown(s); Schedule(Tick(s)))
    case KernelTick => Tick(s)
    case IdleTick => Tick(s)
    case IdleLook => if s.ready != [] then Schedule(s) else if s.sleeping != [] then s else s.(mode := Panic)
  }

  // ----- ticks -----

  /** A thread is woken exactly when its count reaches zero; the rest stay with one tick less. */
  lemma {:induction false} TickSplits<T>(l: seq<Sleeper<T>>)
    ensures forall t :: t in Woken(l) <==> exists i :: 0 <= i < |l| && l[i].t == t && Less(l[i].ticks) == 0
    ensures forall x :: x in Remaining(l) <==> exists i :: 0 <= i < |l| && Less(l[i].ticks) != 0 && x == Sleeper(l[i].t, Less(l[i].ticks))
  {
    if l != [] {
      var k := |l| - 1;
      TickSplits(l[..k]);
      hide Less;
      forall t ensures t in Woken(l) <==> exists i :: 0 <= i < |l| && l[i].t == t && Less(l[i].ticks) == 0 {
        if t in Woken(l[..k]) {
          var i :| 0 <= i < k && l[..k][i].t == t && Less(l[..k][i].ticks) == 0;
          assert l[i].t == t && Less(l[i].ticks) == 0;
        }
        if i :| 0 <= i < |l| && l[i].t == t && Less(l[i].ticks) == 0 {
          if i < k { assert l[..k][i].t == t && Less(l[..k][i].ticks) == 0; }
        }
      }
      forall x ensures x in Remaining(l) <==> exists i :: 0 <= i < |l| && Less(l[i].ticks) != 0 && x == Sleeper(l[i].t, Less(l[i].ticks)) {
        if x in Remaining(l[..k]) {
          var i :| 0 <= i < k && Less(l[..k][i].ticks) != 0 && x == Sleeper(l[..k][i].t, Less(l[..k][i].ticks));
          assert Less(l[i].ticks) != 0 && x == Sleeper(l[i].t, Less(l[i].ticks));
        }
        if i :| 0 <= i < |l| && Less(l[i].ticks) != 0 && x == Sleeper(l[i].t, Less(l[i].ticks)) {
          if i < k { assert Less(l[..k][i].ticks) != 0 && x == Sleeper(l[..k][i].t, Less(l[..k][i].ticks)); }
        }
      }
    }
  }

  /** A tick is an order-preserving filter: it works on any two parts of the list separately. */
  lemma {:induction false} TickJoin<T>(a: seq<Sleeper<T>>, b: seq<Sleeper<T>>)
    ensures Remaining(a + b) == Remaining(a) + Remaining(b) && Woken(a + b) == Woken(a) + Woken(b)
    decreases |b|
  {
    hide Remaining, Woken, Less;
    TickNone<T>();
    if b == [] {
      assert a + b == a;
    } else {
      var k := |b| - 1;
      TickJoin(a, b[..k]);
      TickLast(b);
      TickLast(a + b);
      assert (a + b)[..|a + b| - 1] == a + b[..k];
    }
  }

  lemma TickNone<T>()
    ensures Remaining<T>([]) == [] && Woken<T>([]) == []
  {
  }

  lemma TickLast<T>(l: seq<Sleeper<T>>)
    requires l != []
    ensures var x := l[|l| - 1]; Remaining(l) == Remaining(l[..|l| - 1]) + (if Less(x.ticks) == 0 then [] else [Sleeper(x.t, Less(x.ticks))])
    ensures var x := l[|l| - 1]; Woken(l) == Woken(l[..|l| - 1]) + (if Less(x.ticks) == 0 then [x.t] else [])
  {
    hide Less;
  }

  /** Woken and remaining threads were in the list. */
  lemma SleeperAt<T>(l: seq<Sleeper<T>>, t: T) returns (k: nat)
    requires t in Woken(l) || exists x :: x in Remaining(l) && x.t == t
    ensures k < |l| && l[k].t == t
  {
    hide Less;
    TickSplits(l);
    if t in Woken(l) {
      k :| 0 <= k < |l| && l[k].t == t && Less(l[k].ticks) == 0;
    } else {
      var x :| x in Remaining(l) && x.t == t;
      k :| 0 <= k < |l| && Less(l[k].ticks) != 0 && x == Sleeper(l[k].t, Less(l[k].ticks));
    }
  }

  /** One more sleeper looked at. */
  lemma TickNext<T>(l: seq<Sleeper<T>>, n: nat)
    requires n < |l|
    ensures Remaining(l[..n + 1]) == if Less(l[n].ticks) == 0 then Remaining(l[..n]) else Remaining(l[..n]) + [Sleeper(l[n].t, Less(l[n].ticks))]
    ensures Woken(l[..n + 1]) == if Less(l[n].ticks) == 0 then Woken(l[..n]) + [l[n].t] else Woken(l[..n])
  {
    assert l[..n + 1][..n] == l[..n];
    hide Less;
  }

  lemma TickKnown<T>(s: State<T>)
    requires Known(s)
    ensures Known(Tick(s))
  {
    TickSplits(s.sleeping);
    var l := Remaining(s.sleeping);
    forall i | 0 <= i < |l| ensures l[i].t in s.pcb {
      assert l[i] in l;
      var k := SleeperAt(s.sleeping, l[i].t);
    }
    forall t | t in Woken(s.sleeping) ensures t in s.pcb {
      var k := SleeperAt(s.sleeping, t);
    }
  }

  // ----- the invariant -----

  ghost predicate Distinct<T>(l: seq<Sleeper<T>>) {
    forall i, j :: 0 <= i < j < |l| ==> l[i].t != l[j].t
  }

  ghost predicate IsAsleep<T>(l: seq<Sleeper<T>>, t: T) {
    exists i :: 0 <= i < |l| && l[i].t == t
  }

  /** No live thread is lost: a ready one is running or queued, one that is not ready is in the
      sleeping list, once, and nothing else is. */
  ghost predicate NoneLost<T>(s: State<T>) {
    && Known(s) && Distinct(s.sleeping)
    && (forall t :: t in s.pcb && Runnable(s, t) ==> t == s.cur || t in s.ready)
    && (forall t :: t in s.pcb ==> (IsAsleep(s.sleeping, t) <==> Live(s, t) && !s.pcb[t].ready))
  }

  ghost predicate Inv<T>(s: State<T>) {
    && NoneLost(s)
    && (s.mode == Running ==> Runnable(s, s.cur))
    && (s.mode == Idle ==> (s.ready != [] || s.sleeping != []) && (Runnable(s, s.cur) ==> s.cur in s.ready))
    && (s.mode == Panic ==> forall t :: t in s.pcb ==> s.pcb[t].exited)
  }

  lemma {:induction false} ScheduleInv<T>(s: State<T>)
    requires NoneLost(s)
    ensures Inv(Schedule(s))
    decreases |s.ready|
  {
    if s.ready != [] && Runnable(s, s.ready[0]) {
      SwitchLost(s);
    } else {
      var s1 := s.(ready := if s.ready == [] then [] else s.ready[1..]);
      DropLost(s);
      if !Runnable(s, s.cur) && s1.ready != [] { ScheduleInv(s1); }
      else if !Runnable(s, s.cur) && s1.sleeping == [] { AllExited(s1); }
    }
  }

  lemma SwitchLost<T>(s: State<T>)
    requires NoneLost(s) && s.ready != [] && Runnable(s, s.ready[0])
    ensures NoneLost(s.(ready := s.ready[1..] + (if Runnable(s, s.cur) then [s.cur] else []), cur := s.ready[0], mode := Running))
  {
    var s' := s.(ready := s.ready[1..] + (if Runnable(s, s.cur) then [s.cur] else []), cur := s.ready[0], mode := Running);
    forall t | t in s'.pcb && Runnable(s', t) ensures t == s'.cur || t in s'.ready {
      assert Runnable(s, t);
      if t == s.cur { assert t in [s.cur]; }
      else { assert t in s.ready; assert s.ready == [s.ready[0]] + s.ready[1..]; }
    }
  }

  lemma DropLost<T>(s: State<T>)
    requires NoneLost(s) && (s.ready == [] || !Runnable(s, s.ready[0]))
    ensures NoneLost(s.(ready := if s.ready == [] then [] else s.ready[1..]))
  {
    if s.ready != [] {
      var s' := s.(ready := s.ready[1..]);
      assert s.ready == [s.ready[0]] + s.ready[1..];
      forall t | t in s'.pcb && Runnable(s', t) ensures t == s'.cur || t in s'.ready {
        assert Runnable(s, t);
      }
    }
  }

  lemma AllExited<T>(s: State<T>)
    requires NoneLost(s) && s.ready == [] && s.sleeping == [] && !Runnable(s, s.cur)
    ensures forall t :: t in s.pcb ==> s.pcb[t].exited
  {
    forall t | t in s.pcb ensures s.pcb[t].exited {
      assert !IsAsleep(s.sleeping, t);
      assert Runnable(s, t) ==> t == s.cur;
    }
  }

  lemma TickAsleep<T>(l: seq<Sleeper<T>>, t: T)
    requires Distinct(l)
    ensures IsAsleep(Remaining(l), t) <==> IsAsleep(l, t) && t !in Woken(l)
  {
    TickSplits(l);
    if IsAsleep(Remaining(l), t) {
      var k :| 0 <= k < |Remaining(l)| && Remaining(l)[k].t == t;
      assert Remaining(l)[k] in Remaining(l);
    }
    if IsAsleep(l, t) && t !in Woken(l) {
      var i :| 0 <= i < |l| && l[i].t == t;
      assert Sleeper(t, Less(l[i].ticks)) in Remaining(l);
    }
  }

  lemma {:induction false} RemainingDistinct<T>(l: seq<Sleeper<T>>)
    requires Distinct(l)
    ensures Distinct(Remaining(l))
  {
    if l != [] {
      var k := |l| - 1;
      RemainingDistinct(l[..k]);
      TickSplits(l[..k]);
      hide Less;
      var r := Remaining(l[..k]);
      forall i | 0 <= i < |r| ensures r[i].t != l[k].t { assert r[i] in r; }
    }
  }

  lemma TickLost<T>(s: State<T>)
    requires NoneLost(s)
    ensures NoneLost(Tick(s)) && Tick(s).mode == s.mode && Tick(s).cur == s.cur
  {
    TickKnown(s);
    RemainingDistinct(s.sleeping);
    var s' := Tick(s);
    forall t | t in s'.pcb ensures (IsAsleep(s'.sleeping, t) <==> Live(s', t) && !s'.pcb[t].ready) && (Runnable(s', t) ==> t == s'.cur || t in s'.ready) {
      TickAsleep(s.sleeping, t);
      WokenAsleep(s.sleeping, t);
      hide Remaining, Woken, IsAsleep, Less, Distinct;
    }
  }

  lemma WokenAsleep<T>(l: seq<Sleeper<T>>, t: T)
    ensures t in Woken(l) ==> IsAsleep(l, t)
  {
    TickSplits(l);
  }

  lemma AsleepLost<T>(s: State<T>, ticks: nat)
    requires NoneLost(s) && Runnable(s, s.cur)
    ensures NoneLost(Asleep(s, ticks))
  {
    var s' := Asleep(s, ticks);
    assert !IsAsleep(s.sleeping, s.cur);
    forall t | t in s'.pcb ensures IsAsleep(s'.sleeping, t) <==> IsAsleep(s.sleeping, t) || t == s.cur {
      if IsAsleep(s.sleeping, t) {
        var i :| 0 <= i < |s.sleeping| && s.sleeping[i].t == t;
        assert s'.sleeping[i].t == t;
      }
      assert s'.sleeping[|s.sleeping|].t == s.cur;
    }
    forall t | t in s'.pcb && Runnable(s', t) ensures t == s'.cur || t in s'.ready {
      assert t != s.cur && Runnable(s, t);
    }
  }

  lemma ExitedLost<T>(s: State<T>)
    requires NoneLost(s) && Runnable(s, s.cur)
    ensures NoneLost(Exited(s))
  {
    var s' := Exited(s);
    forall t | t in s'.pcb ensures (IsAsleep(s'.sleeping, t) <==> Live(s', t) && !s'.pcb[t].ready) && (Runnable(s', t) ==> t == s'.cur || t in s'.ready) {
      assert IsAsleep(s.sleeping, t) <==> Live(s, t) && !s.pcb[t].ready;
      hide IsAsleep;
      if t != s.cur { assert Runnable(s', t) ==> Runnable(s, t); }
    }
  }

  lemma ForkedLost<T>(s: State<T>, child: T)
    requires NoneLost(s) && child !in s.pcb
    ensures NoneLost(Forked(s, child)) && Forked(s, child).mode == s.mode
    ensures Runnable(s, s.cur) ==> Runnable(Forked(s, child), s.cur)
  {
    var s' := Forked(s, child);
    forall t | t in s'.pcb ensures (IsAsleep(s'.sleeping, t) <==> Live(s', t) && !s'.pcb[t].ready) && (Runnable(s', t) ==> t == s'.cur || t in s'.ready) {
      if t in s.pcb { assert Runnable(s', t) ==> Runnable(s, t); }
    }
  }

  /** In the wait a woken thread is always in the queue, the current one too. */
  lemma IdleWakes<T>(s: State<T>)
    requires Inv(s) && s.mode == Idle
    ensures Inv(Tick(s))
  {
    TickLost(s);
    RemainingWhole(s.sleeping);
  }

  lemma {:induction false} RemainingWhole<T>(l: seq<Sleeper<T>>)
    ensures |Woken(l)| + |Remaining(l)| == |l|
  {
    if l != [] { RemainingWhole(l[..|l| - 1]); }
  }

  lemma KernelTickInv<T>(s: State<T>)
    requires Inv(s) && s.mode == Running
    ensures Inv(Tick(s))
  {
    TickLost(s);
    hide NoneLost, Woken, Remaining;
  }

  /** Every step keeps the invariant. */
  lemma StepInv<T>(s: State<T>, e: Event<T>)
    requires Inv(s) && Legal(s, e)
    ensures Inv(Step(s, e))
  {
    hide NoneLost, Schedule, Tick, Asleep, Exited, Forked;
    InvKnown(s);
    match e
    case Yield => ScheduleInv(s);
    case Sleep(ticks) => AsleepLost(s, ticks); ScheduleInv(Asleep(s, ticks));
    case Exit => ExitedLost(s); ScheduleInv(Exited(s));
    case Fork(child) => ForkedLost(s, child); ForkedInv(s, child);
    case UserTick => TickLost(s); ScheduleInv(Tick(s));
    case KernelTick => KernelTickInv(s);
    case IdleTick => IdleWakes(s);
    case IdleLook => if s.ready != [] { ScheduleInv(s); } else { IdleWaits(s); }
  }

  lemma IdleWaits<T>(s: State<T>)
    requires Inv(s) && s.mode == Idle && s.ready == []
    ensures s.sleeping != []
  {
  }

  lemma InvKnown<T>(s: State<T>)
    requires Inv(s)
    ensures Known(s) && NoneLost(s) && (s.mode == Running ==> Runnable(s, s.cur))
  {
  }

  lemma ForkedInv<T>(s: State<T>, child: T)
    requires Inv(s) && s.mode == Running && child !in s.pcb && NoneLost(Forked(s, child))
    ensures Inv(Forked(s, child))
  {
    hide NoneLost;
  }

  // ----- whole runs -----

  ghost predicate IsRun<T>(trace: seq<State<T>>, events: seq<Event<T>>) {
    && |trace| == |events| + 1
    && forall i :: 0 <= i < |events| ==> Known(trace[i]) && Legal(trace[i], events[i]) && trace[i + 1] == Step(trace[i], events[i])
  }

  lemma RunStep<T>(trace: seq<State<T>>, events: seq<Event<T>>, i: nat)
    requires IsRun(trace, events) && i < |events|
    ensures Known(trace[i]) && Legal(trace[i], events[i]) && trace[i + 1] == Step(trace[i], events[i])
  {
    hide Known, Legal, Step;
  }

  /** In every reachable state no live thread is lost. */
  lemma {:induction false} RunInv<T>(trace: seq<State<T>>, events: seq<Event<T>>, i: nat)
    requires IsRun(trace, events) && i <= |events| && Inv(trace[0])
    ensures Inv(trace[i])
  {
    if i > 0 {
      RunInv(trace, events, i - 1);
      RunStep(trace, events, i - 1);
      hide Inv, Legal, Step, IsRun;
      StepInv(trace[i - 1], events[i - 1]);
    }
  }

  /** The kernel panics only when every thread has exited. */
  lemma PanicOnlyAtEnd<T>(trace: seq<State<T>>, events: seq<Event<T>>, i: nat, t: T)
    requires IsRun(trace, events) && i <= |events| && Inv(trace[0]) && trace[i].mode == Panic && t in trace[i].pcb
    ensures trace[i].pcb[t].exited
  {
    RunInv(trace, events, i);
    hide NoneLost, IsRun;
  }

  /** `see_if_pid_still_exists`: the current thread, the ready queue and the sleeping list in turn. */
  predicate PidFound<T>(s: State<T>, pid: nat)
    requires Known(s)
  {
    || (s.pcb[s.cur].tid == pid && !s.pcb[s.cur].exited)
    || (exists i :: 0 <= i < |s.ready| && s.pcb[s.ready[i]].tid == pid && !s.pcb[s.ready[i]].exited)
    || (exists i :: 0 <= i < |s.sleeping| && s.pcb[s.sleeping[i].t].tid == pid && !s.pcb[s.sleeping[i].t].exited)
  }

  /** It answers exactly whether a live thread has that number. */
  lemma PidExact<T>(s: State<T>, pid: nat)
    requires NoneLost(s)
    ensures PidFound(s, pid) <==> exists t :: t in s.pcb && s.pcb[t].tid == pid && !s.pcb[t].exited
  {
    if t :| t in s.pcb && s.pcb[t].tid == pid && !s.pcb[t].exited {
      if s.pcb[t].ready {
        assert Runnable(s, t);
        if t != s.cur {
          var i :| 0 <= i < |s.ready| && s.ready[i] == t;
        }
      } else {
        assert IsAsleep(s.sleeping, t);
        var i :| 0 <= i < |s.sleeping| && s.sleeping[i].t == t;
      }
    }
  }

  // ----- timing -----

  predicate IsTick<T>(e: Event<T>) { e.UserTick? || e.KernelTick? || e.IdleTick? }

  function Ticks<T>(events: seq<Event<T>>, i: nat): nat
    requires i <= |events|
  {
    if i == 0 then 0 else Ticks(events, i - 1) + (if IsTick(events[i - 1]) then 1 else 0)
  }

  /** The scheduler never touches threads or the sleeping list. */
  lemma {:induction false} ScheduleKeeps<T>(s: State<T>)
    requires Known(s)
    ensures Known(Schedule(s)) && Schedule(s).pcb == s.pcb && Schedule(s).sleeping == s.sleeping && Schedule(s).nextTid == s.nextTid
    decreases |s.ready|
  {
    if s.ready != [] {
      Shorter(s);
      if !Runnable(s, s.ready[0]) && !Runnable(s, s.cur) && |s.ready| > 1 { ScheduleKeeps(s.(ready := s.ready[1..])); }
    }
  }

  /** One step takes one tick off a sleeper if it is a tick and nothing otherwise; the sleeper
      leaves the list, ready, exactly when its count reaches zero. */
  lemma StepSleeper<T>(s: State<T>, e: Event<T>, t: T, k: nat)
    requires Inv(s) && Legal(s, e) && Sleeper(t, k) in s.sleeping
    ensures var s' := Step(s, e); !IsTick(e) ==> Sleeper(t, k) in s'.sleeping
    ensures var s' := Step(s, e); IsTick(e) && Less(k) != 0 ==> Sleeper(t, Less(k)) in s'.sleeping
    ensures var s' := Step(s, e); IsTick(e) && Less(k) == 0 ==> !IsAsleep(s'.sleeping, t) && t in s'.pcb && Runnable(s', t)
  {
    InvKnown(s);
    hide Inv, Less, Schedule, Woken, Remaining, Wake;
    match e
    case Yield => ScheduleKeeps(s);
    case Sleep(ticks) => ScheduleKeeps(Asleep(s, ticks));
    case Exit => ScheduleKeeps(Exited(s));
    case Fork(child) =>
    case UserTick => TickKnown(s); ScheduleKeeps(Tick(s)); TickSleeper(s, t, k);
    case KernelTick => TickSleeper(s, t, k);
    case IdleTick => TickSleeper(s, t, k);
    case IdleLook => ScheduleKeeps(s);
  }

  lemma TickSleeper<T>(s: State<T>, t: T, k: nat)
    requires NoneLost(s) && Sleeper(t, k) in s.sleeping
    ensures Less(k) != 0 ==> Sleeper(t, Less(k)) in Tick(s).sleeping
    ensures Less(k) == 0 ==> !IsAsleep(Tick(s).sleeping, t) && t in Tick(s).pcb && Runnable(Tick(s), t)
  {
    TickSplits(s.sleeping);
    TickAsleep(s.sleeping, t);
    var i :| 0 <= i < |s.sleeping| && s.sleeping[i] == Sleeper(t, k);
    assert s.sleeping[i].t == t && Less(s.sleeping[i].ticks) == (if k == 0 then WRAP - 1 else k - 1);
    assert IsAsleep(s.sleeping, t);
  }

  /** The number of ticks a sleep lasts: the count is decremented before it is looked at, so 0
      means 2^32. */
  function Duration(k: nat): nat { if k == 0 then WRAP else k }

  /** The count after `n` ticks. */
  function Left(k: nat, n: nat): nat
    requires n < Duration(k)
  {
    if n == 0 then k else Duration(k) - n
  }

  /** A thread that asked for `k` ticks, 0 included, stays asleep for all but the last of them,
      whatever else happens ... */
  lemma {:induction false} SleepsThrough<T>(trace: seq<State<T>>, events: seq<Event<T>>, t: T, k: nat, i: nat)
    requires IsRun(trace, events) && i <= |events| && Inv(trace[0]) && Sleeper(t, k) in trace[0].sleeping
    requires Ticks(events, i) < Duration(k)
    ensures Sleeper(t, Left(k, Ticks(events, i))) in trace[i].sleeping
  {
    hide Known, Legal, Step, Inv, IsTick;
    TicksNext(events, i);
    RunLength(trace, events);
    if i > 0 {
      SleepsThrough(trace, events, t, k, i - 1);
      RunInv(trace, events, i - 1);
      RunStep(trace, events, i - 1);
      StepSleeper(trace[i - 1], events[i - 1], t, Left(k, Ticks(events, i - 1)));
    }
  }

  lemma RunLength<T>(trace: seq<State<T>>, events: seq<Event<T>>)
    requires IsRun(trace, events)
    ensures |trace| == |events| + 1
  {
    hide Known, Legal, Step;
  }

  lemma TicksNext<T>(events: seq<Event<T>>, i: nat)
    requires i <= |events|
    ensures Ticks(events, i) == if i == 0 then 0 else Ticks(events, i - 1) + (if IsTick(events[i - 1]) then 1 else 0)
  {
    hide IsTick;
  }

  /** ... and is woken by exactly the last. */
  lemma WokenOnTime<T>(trace: seq<State<T>>, events: seq<Event<T>>, t: T, k: nat, i: nat)
    requires IsRun(trace, events) && i < |events| && Inv(trace[0]) && Sleeper(t, k) in trace[0].sleeping
    requires Ticks(events, i) == Duration(k) - 1 && IsTick(events[i])
    ensures !IsAsleep(trace[i + 1].sleeping, t) && t in trace[i + 1].pcb && Runnable(trace[i + 1], t)
    ensures t == trace[i + 1].cur || t in trace[i + 1].ready
  {
    SleepsThrough(trace, events, t, k, i);
    RunInv(trace, events, i);
    RunInv(trace, events, i + 1);
    RunStep(trace, events, i);
    InvKnown(trace[i + 1]);
    hide Inv, Legal, Step, IsRun, IsTick;
    StepSleeper(trace[i], events[i], t, 1);
  }

  // ----- bounded wait -----

  predicate Schedules<T>(e: Event<T>) { e.Yield? || e.Sleep? || e.Exit? || e.UserTick? || e.IdleLook? }

  /** The current thread, unless the processor is in the wait. */
  predicate Runs<T>(s: State<T>, t: T) { s.cur == t && s.mode == Running }

  function Calls<T>(events: seq<Event<T>>, i: nat): nat
    requires i <= |events|
  {
    if i == 0 then 0 else Calls(events, i - 1) + (if Schedules(events[i - 1]) then 1 else 0)
  }

  /** Thread `t` is live and ready, and running or at most `k` places from the front. */
  ghost predicate Within<T>(s: State<T>, t: T, k: int) {
    && Known(s) && t in s.pcb && Runnable(s, t) && exists j :: 0 <= j <= k && j < |s.ready| && s.ready[j] == t
  }

  lemma {:induction false} ScheduleNearer<T>(s: State<T>, t: T, k: nat)
    requires Within(s, t, k)
    ensures Runs(Schedule(s), t) || Within(Schedule(s), t, k - 1)
    ensures Schedule(s).mode == Running
    decreases |s.ready|
  {
    var j :| 0 <= j <= k && j < |s.ready| && s.ready[j] == t;
    ScheduleKeeps(s);
    if Runnable(s, s.ready[0]) {
      if j > 0 { assert Schedule(s).ready[j - 1] == t; }
    } else {
      Shorter(s);
      var s1 := s.(ready := s.ready[1..]);
      assert s1.ready[j - 1] == t;
      if !Runnable(s, s.cur) {
        ScheduleNearer(s1, t, j - 1);
      }
    }
  }

  /** Other steps never push it back. */
  lemma StepNearer<T>(s: State<T>, e: Event<T>, t: T, k: nat)
    requires Inv(s) && Legal(s, e) && Within(s, t, k) && !Runs(s, t)
    ensures Runs(Step(s, e), t) || Within(Step(s, e), t, if Schedules(e) then k - 1 else k)
  {
    InvKnown(s);
    var j :| 0 <= j <= k && j < |s.ready| && s.ready[j] == t;
    hide Schedule, Woken, Remaining, NoneLost, Legal;
    LegalParts(s, e);
    match e
    case Yield => ScheduleNearer(s, t, k);
    case Sleep(ticks) => assert Asleep(s, ticks).ready[j] == t; ScheduleNearer(Asleep(s, ticks), t, k);
    case Exit => assert Exited(s).ready[j] == t; ScheduleNearer(Exited(s), t, k);
    case Fork(child) => assert Forked(s, child).ready[j] == t; ForkedKnown(s, child);
    case UserTick => TickKnown(s); assert Tick(s).ready[j] == t; ScheduleNearer(Tick(s), t, k);
    case KernelTick => TickKnown(s); assert Tick(s).ready[j] == t;
    case IdleTick => TickKnown(s); assert Tick(s).ready[j] == t;
    case IdleLook => ScheduleNearer(s, t, k);
  }

  lemma LegalParts<T>(s: State<T>, e: Event<T>)
    requires Legal(s, e)
    ensures e.IdleTick? || e.IdleLook? || s.mode == Running
    ensures e.Fork? ==> e.child !in s.pcb
  {
  }

  lemma ForkedKnown<T>(s: State<T>, child: T)
    requires Known(s) && child !in s.pcb
    ensures Known(Forked(s, child))
  {
  }

  /** A live ready thread `k` places from the front runs within k + 1 calls of the scheduler. */
  lemma {:induction false} BoundedWait<T>(trace: seq<State<T>>, events: seq<Event<T>>, t: T, k: nat, i: nat)
    requires IsRun(trace, events) && i <= |events| && Inv(trace[0]) && Within(trace[0], t, k)
    requires forall j :: 0 <= j <= i ==> !Runs(trace[j], t)
    ensures Calls(events, i) <= k && Within(trace[i], t, k - Calls(events, i))
  {
    hide *;
    CallsNext(events, i);
    RunLength(trace, events);
    if i > 0 {
      BoundedWait(trace, events, t, k, i - 1);
      RunInv(trace, events, i - 1);
      RunStep(trace, events, i - 1);
      StepNearer(trace[i - 1], events[i - 1], t, k - Calls(events, i - 1));
      WithinSome(trace[i], t, k - Calls(events, i));
    }
  }

  lemma CallsNext<T>(events: seq<Event<T>>, i: nat)
    requires i <= |events|
    ensures Calls(events, i) == if i == 0 then 0 else Calls(events, i - 1) + (if Schedules(events[i - 1]) then 1 else 0)
  {
    hide Schedules;
  }

  lemma WithinSome<T>(s: State<T>, t: T, k: int)
    requires Within(s, t, k)
    ensures k >= 0
  {
  }
}
