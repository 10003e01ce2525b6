// What a thread's own calls do to it over the rest of a run (final/src/sched.c, lines 33-61, 179-236
// and 318-350): an exit is final, a sleep lasts, a forked thread runs and has its number.
module ThreadLives {
  import opened Sched

  // ----- one step, record by record -----

  /** The other fields of a record never change, an exit is the only thing that marks one, and it
      marks the current thread's only. */
  lemma StepRecord<T>(s: State<T>, e: Event<T>, t: T)
    requires Inv(s) && Legal(s, e) && t in s.pcb
    ensures var s' := Step(s, e); t in s'.pcb && s'.pcb[t].tid == s.pcb[t].tid && s'.pcb[t].ppid == s.pcb[t].ppid
    ensures Step(s, e).pcb[t].exited <==> s.pcb[t].exited || (e == Exit && t == s.cur)
  {
    InvKnown(s);
    hide Inv, Schedule, Woken, Remaining;
    match e
    case Yield => ScheduleKeeps(s);
    case Sleep(ticks) => ScheduleKeeps(Asleep(s, ticks));
    case Exit => ScheduleKeeps(Exited(s));
    case Fork(child) =>
    case UserTick => TickKnown(s); ScheduleKeeps(Tick(s));
    case KernelTick =>
    case IdleTick =>
    case IdleLook => ScheduleKeeps(s);
  }

  // ----- exit -----

  /** An exit marks the current thread's record and leaves every other one, the sleepers and the next
      number alone. */
  lemma ExitMarks<T>(s: State<T>)
    requires Inv(s) && Legal(s, Exit)
    ensures var s' := Step(s, Exit); s'.pcb.Keys == s.pcb.Keys && s.cur in s.pcb && s'.pcb[s.cur] == Pcb(s.pcb[s.cur].tid, s.pcb[s.cur].ppid, true, s.pcb[s.cur].ready)
    ensures forall t :: t in s.pcb && t != s.cur ==> t in Step(s, Exit).pcb && Step(s, Exit).pcb[t] == s.pcb[t]
    ensures Step(s, Exit).sleeping == s.sleeping && Step(s, Exit).nextTid == s.nextTid
  {
    InvKnown(s);
    hide Inv, Schedule;
    ScheduleKeeps(Exited(s));
  }

  lemma {:induction false} ExitStays<T>(trace: seq<State<T>>, events: seq<Event<T>>, m: nat, i: nat, t: T)
    requires IsRun(trace, events) && m <= i <= |events| && Inv(trace[0]) && t in trace[m].pcb && trace[m].pcb[t].exited
    ensures t in trace[i].pcb && trace[i].pcb[t].exited && trace[i].pcb[t].tid == trace[m].pcb[t].tid
  {
    hide *;
    RunLength(trace, events);
    if m < i {
      ExitStays(trace, events, m, i - 1, t);
      RunInv(trace, events, i - 1);
      RunStep(trace, events, i - 1);
      StepRecord(trace[i - 1], events[i - 1], t);
    }
  }

  /** An exited thread is never running, and its number is found only for another thread. */
  lemma ExitedOut<T>(s: State<T>, t: T)
    requires Inv(s) && t in s.pcb && s.pcb[t].exited
    ensures !(s.cur == t && s.mode == Running)
    ensures Known(s) && (PidFound(s, s.pcb[t].tid) <==> exists u :: u in s.pcb && u != t && s.pcb[u].tid == s.pcb[t].tid && !s.pcb[u].exited)
  {
    InvKnown(s);
    PidExact(s, s.pcb[t].tid);
    hide Inv, NoneLost, PidFound, Known;
    if u :| u in s.pcb && s.pcb[u].tid == s.pcb[t].tid && !s.pcb[u].exited {
      assert u != t;
    }
  }

  /** From its exit on, over the whole rest of the run, the thread stays marked, never runs again, and
      its number exists only if another live thread has it. */
  lemma ExitIsFinal<T>(trace: seq<State<T>>, events: seq<Event<T>>, m: nat, i: nat)
    requires IsRun(trace, events) && m < i <= |events| && Inv(trace[0]) && events[m] == Exit
    ensures var t := trace[m].cur; t in trace[m].pcb && t in trace[i].pcb && trace[i].pcb[t].exited && trace[i].pcb[t].tid == trace[m].pcb[t].tid
    ensures !(trace[i].cur == trace[m].cur && trace[i].mode == Running)
    ensures var t, s := trace[m].cur, trace[i]; Known(s) && ((forall u :: u in s.pcb && u != t && s.pcb[u].tid == s.pcb[t].tid ==> s.pcb[u].exited) <==> !PidFound(s, s.pcb[t].tid))
  {
    hide *;
    RunLength(trace, events);
    RunInv(trace, events, m);
    RunInv(trace, events, i);
    RunStep(trace, events, m);
    ExitMarks(trace[m]);
    ExitStays(trace, events, m + 1, i, trace[m].cur);
    ExitedOut(trace[i], trace[m].cur);
  }

  // ----- sleep -----

  /** A sleep puts the current thread at the end of the list with its count, not ready, and leaves
      every other record alone. */
  lemma SleepMarks<T>(s: State<T>, k: nat)
    requires Inv(s) && Legal(s, Sleep(k))
    ensures var s' := Step(s, Sleep(k)); s'.sleeping == s.sleeping + [Sleeper(s.cur, k)] && s'.nextTid == s.nextTid
    ensures var s' := Step(s, Sleep(k)); s'.pcb.Keys == s.pcb.Keys && s.cur in s.pcb && s'.pcb[s.cur] == Pcb(s.pcb[s.cur].tid, s.pcb[s.cur].ppid, false, false)
    ensures forall t :: t in s.pcb && t != s.cur ==> t in Step(s, Sleep(k)).pcb && Step(s, Sleep(k)).pcb[t] == s.pcb[t]
  {
    InvKnown(s);
    assert Runnable(s, s.cur);
    hide Inv, Schedule;
    ScheduleKeeps(Asleep(s, k));
  }

  /** Whoever is in the list is not running. */
  lemma AsleepOut<T>(s: State<T>, t: T, k: nat)
    requires Inv(s) && Sleeper(t, k) in s.sleeping
    ensures !(s.cur == t && s.mode == Running) && t in s.pcb && !s.pcb[t].exited && !s.pcb[t].ready
  {
    var i :| 0 <= i < |s.sleeping| && s.sleeping[i] == Sleeper(t, k);
    assert s.sleeping[i].t == t;
    assert IsAsleep(s.sleeping, t);
  }

  lemma {:induction false} TicksSuffix<T>(events: seq<Event<T>>, i: nat)
    requires 0 < i <= |events| && !IsTick(events[0])
    ensures Ticks(events, i) == Ticks(events[1..], i - 1)
  {
    hide IsTick;
    TicksNext(events, i);
    TicksNext(events[1..], i - 1);
    if i > 1 {
      TicksSuffix(events, i - 1);
      assert events[1..][i - 2] == events[i - 1];
    } else {
      TicksNext(events, 0);
    }
  }

  lemma RunSuffix<T>(trace: seq<State<T>>, events: seq<Event<T>>)
    requires IsRun(trace, events) && events != []
    ensures |trace| == |events| + 1 && IsRun(trace[1..], events[1..])
  {
    hide Known, Legal, Step;
    forall i | 0 <= i < |events[1..]| ensures Known(trace[1..][i]) && Legal(trace[1..][i], events[1..][i]) && trace[1..][i + 1] == Step(trace[1..][i], events[1..][i]) {
      assert trace[1..][i] == trace[i + 1] && events[1..][i] == events[i + 1];
    }
  }

  /** A thread that sleeps for k ticks does not run before the last of them ... */
  lemma SleepLasts<T>(trace: seq<State<T>>, events: seq<Event<T>>, k: nat, i: nat)
    requires IsRun(trace, events) && 0 < i <= |events| && Inv(trace[0]) && events[0] == Sleep(k) && Ticks(events, i) < Duration(k)
    ensures Sleeper(trace[0].cur, Left(k, Ticks(events, i))) in trace[i].sleeping
    ensures !(trace[i].cur == trace[0].cur && trace[i].mode == Running)
  {
    hide *;
    RunLength(trace, events);
    RunInv(trace, events, 1);
    RunInv(trace, events, i);
    RunStep(trace, events, 0);
    SleepMarks(trace[0], k);
    SleepNoTick<T>(k);
    assert trace[1].sleeping[|trace[0].sleeping|] == Sleeper(trace[0].cur, k);
    RunSuffix(trace, events);
    TicksSuffix(events, i);
    SleepsThrough(trace[1..], events[1..], trace[0].cur, k, i - 1);
    AsleepOut(trace[i], trace[0].cur, Left(k, Ticks(events, i)));
  }

  lemma SleepNoTick<T>(k: nat)
    ensures !IsTick<T>(Sleep(k))
  {
  }

  /** ... and is ready again, running or queued, right after it. */
  lemma SleepEnds<T>(trace: seq<State<T>>, events: seq<Event<T>>, k: nat, i: nat)
    requires IsRun(trace, events) && 0 < i < |events| && Inv(trace[0]) && events[0] == Sleep(k)
    requires Ticks(events, i) == Duration(k) - 1 && IsTick(events[i])
    ensures var t, s := trace[0].cur, trace[i + 1]; t in s.pcb && s.pcb[t].ready && !s.pcb[t].exited && (t == s.cur || t in s.ready) && !IsAsleep(s.sleeping, t)
  {
    hide *;
    RunLength(trace, events);
    RunInv(trace, events, 1);
    RunStep(trace, events, 0);
    SleepMarks(trace[0], k);
    SleepNoTick<T>(k);
    assert trace[1].sleeping[|trace[0].sleeping|] == Sleeper(trace[0].cur, k);
    RunSuffix(trace, events);
    TicksSuffix(events, i);
    WokenOnTime(trace[1..], events[1..], trace[0].cur, k, i - 1);
    RunnableIs(trace[i + 1], trace[0].cur);
  }

  lemma RunnableIs<T>(s: State<T>, t: T)
    requires t in s.pcb
    ensures Runnable(s, t) <==> !s.pcb[t].exited && s.pcb[t].ready
  {
  }

  // ----- fork -----

  /** A fork adds one live ready thread at the end of the queue, a child of the current one with the
      next number, and leaves every other record alone. */
  lemma ForkMarks<T>(s: State<T>, child: T)
    requires Inv(s) && Legal(s, Fork(child))
    ensures var s' := Step(s, Fork(child)); s'.pcb.Keys == s.pcb.Keys + {child} && child !in s.pcb && s.cur in s.pcb && s'.pcb[child] == Pcb(s.nextTid, s.pcb[s.cur].tid, false, true)
    ensures forall t :: t in s.pcb ==> t in Step(s, Fork(child)).pcb && Step(s, Fork(child)).pcb[t] == s.pcb[t]
    ensures var s' := Step(s, Fork(child)); s'.ready == s.ready + [child] && s'.sleeping == s.sleeping && s'.cur == s.cur && s'.mode == Running
    ensures Step(s, Fork(child)).nextTid == (s.nextTid + 1) % 0x1_0000_0000
  {
    InvKnown(s);
  }

  /** The child runs after at most as many calls of the scheduler as threads were queued before it,
      and one more. */
  lemma ForkRuns<T>(trace: seq<State<T>>, events: seq<Event<T>>, child: T, i: nat)
    requires IsRun(trace, events) && 0 < i <= |events| && Inv(trace[0]) && events[0] == Fork(child)
    requires forall j :: 1 <= j <= i ==> !(trace[j].cur == child && trace[j].mode == Running)
    ensures Calls(events, i) <= |trace[0].ready|
  {
    hide *;
    RunLength(trace, events);
    RunInv(trace, events, 1);
    RunStep(trace, events, 0);
    ForkMarks(trace[0], child);
    RunSuffix(trace, events);
    CallsSuffix(events, i);
    Queued(trace[0], trace[1], child);
    forall j | 0 <= j <= i - 1 ensures !Runs(trace[1..][j], child) {
      NotRuns(trace[j + 1], child);
    }
    BoundedWait(trace[1..], events[1..], child, |trace[0].ready|, i - 1);
  }

  lemma NotRuns<T>(s: State<T>, t: T)
    ensures Runs(s, t) <==> s.cur == t && s.mode == Running
  {
  }

  lemma Queued<T>(s: State<T>, s': State<T>, child: T)
    requires Inv(s') && child in s'.pcb && !s'.pcb[child].exited && s'.pcb[child].ready && s'.ready == s.ready + [child]
    ensures Within(s', child, |s.ready|)
  {
    InvKnown(s');
    assert s'.ready[|s.ready|] == child;
  }

  lemma {:induction false} CallsSuffix<T>(events: seq<Event<T>>, i: nat)
    requires 0 < i <= |events| && events[0].Fork?
    ensures Calls(events, i) == Calls(events[1..], i - 1)
  {
    CallsNext(events, i);
    CallsNext(events[1..], i - 1);
    if i > 1 {
      hide Schedules;
      CallsSuffix(events, i - 1);
      assert events[1..][i - 2] == events[i - 1];
    } else {
      CallsNext(events, 0);
    }
  }

  // ----- thread numbers -----

  /** Forks among the first `i` events. */
  function Forks<T>(events: seq<Event<T>>, i: nat): nat
    requires i <= |events|
  {
    if i == 0 then 0 else Forks(events, i - 1) + (if events[i - 1].Fork? then 1 else 0)
  }

  lemma StepNumber<T>(s: State<T>, e: Event<T>)
    requires Inv(s) && Legal(s, e)
    ensures Step(s, e).nextTid == if e.Fork? then (s.nextTid + 1) % 0x1_0000_0000 else s.nextTid
  {
    InvKnown(s);
    hide Inv, Schedule, Woken, Remaining, Wake;
    match e
    case Yield => ScheduleKeeps(s);
    case Sleep(ticks) => ScheduleKeeps(Asleep(s, ticks));
    case Exit => ScheduleKeeps(Exited(s));
    case Fork(child) =>
    case UserTick => TickKnown(s); ScheduleKeeps(Tick(s));
    case KernelTick =>
    case IdleTick =>
    case IdleLook => ScheduleKeeps(s);
  }

  /** The number counts the forks, in 32-bit arithmetic. */
  lemma {:induction false} NextNumber<T>(trace: seq<State<T>>, events: seq<Event<T>>, i: nat)
    requires IsRun(trace, events) && i <= |events| && Inv(trace[0]) && trace[0].nextTid < 0x1_0000_0000
    ensures trace[i].nextTid == (trace[0].nextTid + Forks(events, i)) % 0x1_0000_0000
  {
    hide Inv, IsRun, Step, Legal, Known;
    RunLength(trace, events);
    if i > 0 {
      NextNumber(trace, events, i - 1);
      RunInv(trace, events, i - 1);
      RunStep(trace, events, i - 1);
      StepNumber(trace[i - 1], events[i - 1]);
    }
  }

  lemma {:induction false} NumberStays<T>(trace: seq<State<T>>, events: seq<Event<T>>, m: nat, i: nat, t: T)
    requires IsRun(trace, events) && m <= i <= |events| && Inv(trace[0]) && t in trace[m].pcb
    ensures t in trace[i].pcb && trace[i].pcb[t].tid == trace[m].pcb[t].tid
  {
    hide *;
    RunLength(trace, events);
    if m < i {
      NumberStays(trace, events, m, i - 1, t);
      RunInv(trace, events, i - 1);
      RunStep(trace, events, i - 1);
      StepRecord(trace[i - 1], events[i - 1], t);
    }
  }

  /** The number a forked thread has ever after. */
  lemma ForkNumber<T>(trace: seq<State<T>>, events: seq<Event<T>>, a: nat, i: nat)
    requires IsRun(trace, events) && a < i <= |events| && Inv(trace[0]) && trace[0].nextTid < 0x1_0000_0000 && events[a].Fork?
    ensures events[a].child in trace[i].pcb && trace[i].pcb[events[a].child].tid == (trace[0].nextTid + Forks(events, a)) % 0x1_0000_0000
  {
    hide *;
    RunLength(trace, events);
    RunInv(trace, events, a);
    RunStep(trace, events, a);
    NextNumber(trace, events, a);
    ForkMarks(trace[a], events[a].child);
    NumberStays(trace, events, a + 1, i, events[a].child);
  }

  /** Two forked threads share a number if and only if a multiple of 2^32 forks lies between them:
      numbers are unique in every run of fewer forks. */
  lemma NumbersUnique<T>(trace: seq<State<T>>, events: seq<Event<T>>, a: nat, b: nat, i: nat)
    requires IsRun(trace, events) && a < b < i <= |events| && Inv(trace[0]) && trace[0].nextTid < 0x1_0000_0000 && events[a].Fork? && events[b].Fork?
    ensures events[a].child in trace[i].pcb && events[b].child in trace[i].pcb
    ensures trace[i].pcb[events[a].child].tid == trace[i].pcb[events[b].child].tid <==> (Forks(events, b) - Forks(events, a)) % 0x1_0000_0000 == 0
    ensures Forks(events, a) < Forks(events, b)
  {
    hide *;
    RunLength(trace, events);
    ForkNumber(trace, events, a, i);
    ForkNumber(trace, events, b, i);
    ForksGrow(events, a, b);
    SameRest(trace[0].nextTid, Forks(events, a), Forks(events, b));
  }

  lemma {:induction false} ForksGrow<T>(events: seq<Event<T>>, a: nat, b: nat)
    requires a < b <= |events| && events[a].Fork?
    ensures Forks(events, a) < Forks(events, b)
  {
    if a < b - 1 { ForksGrow(events, a, b - 1); }
  }

  lemma SameRest(n: nat, x: nat, y: nat)
    ensures (n + x) % 0x1_0000_0000 == (n + y) % 0x1_0000_0000 <==> (y - x) % 0x1_0000_0000 == 0
  {
    var m := 0x1_0000_0000;
    var p, q := (n + x) / m, (n + y) / m;
    assert n + x == m * p + (n + x) % m && n + y == m * q + (n + y) % m;
    if (n + x) % m == (n + y) % m { assert y - x == m * (q - p); }
  }
}
