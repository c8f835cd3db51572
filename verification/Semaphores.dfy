/** Semaphores under every schedule: no lost wake-up, and conservation of the value. */
module Semaphores {
  import opened Wrappers
  import opened Scheduler
  import opened SchedulerProofs

  /** The event lets the current thread through sem_down of x. */
  predicate Takes(s: Kernel, e: Event, x: SemId) {
    e == Down(x) && x in s.sems && s.sems[x].value > 0
  }

  function Bump(b: bool): nat { if b then 1 else 0 }

  /** What one step does to the semaphores and to who waits where, whatever schedule does. */
  ghost predicate Effect(s: Kernel, e: Event, q: Kernel) {
    && q.sems.Keys == s.sems.Keys && q.idle == s.idle
    && (forall x :: x in s.sems ==> SemEffect(s, e, q, x))
    && q.threads.Keys == (if e.Start? then s.threads.Keys + {e.t} else s.threads.Keys)
    && (forall t :: t in s.threads ==> q.threads[t].wait == WaitAfter(s, e, t))
    && (e.Start? ==> q.threads[e.t].wait == None)
  }

  ghost predicate SemEffect(s: Kernel, e: Event, q: Kernel, x: SemId)
    requires x in s.sems && x in q.sems
  {
    var v, w := s.sems[x], q.sems[x];
    && w.value + Bump(Takes(s, e, x)) == v.value + Bump(e == Up(x))
    && w.initial == v.initial && w.ups == v.ups + Bump(e == Up(x)) && w.downs == v.downs + Bump(Takes(s, e, x))
  }

  function WaitAfter(s: Kernel, e: Event, t: Tid): Option<SemId>
    requires t in s.threads
  {
    if e.Down? && t == s.current then (if Takes(s, e, e.x) then None else Some(e.x)) else s.threads[t].wait
  }

  /** What schedule does on top changes no semaphore and no thread's place. */
  lemma ScheduleEffect(s: Kernel, e: Event, m: Kernel, q: Kernel)
    requires Effect(s, e, m) && SameSleep(m, q)
    ensures Effect(s, e, q)
  {
    SameSleepSems(m, q);
    forall t | t in m.threads ensures q.threads[t].wait == m.threads[t].wait { assert SameThread(m, q, t); }
    hide SameSleep, Takes, SameThread;
    assert forall t :: t in s.threads ==> t in m.threads;
  }

  lemma DownEffect(s: Kernel, x: SemId)
    requires SchedInv(s) && Enabled(s, Down(x))
    ensures Effect(s, Down(x), SemDown(s, x))
    ensures Takes(s, Down(x), x) ==> SemDown(s, x).current == s.current
  {
    DownKeepsSched(s, x);
    if s.sems[x].value == 0 {
      AsleepEffect(s, x);
      hide *;
      ScheduleEffect(s, Down(x), Asleep(s, x), SemDown(s, x));
    } else {
      TakenEffect(s, x);
    }
  }

  lemma AsleepEffect(s: Kernel, x: SemId)
    requires x in s.sems && s.current in s.threads && s.sems[x].value == 0
    ensures Effect(s, Down(x), Asleep(s, x))
  {
  }

  lemma TakenEffect(s: Kernel, x: SemId)
    requires x in s.sems && s.current in s.threads && s.idle in s.threads && s.sems[x].value > 0
    ensures Effect(s, Down(x), SemDown(s, x)) && SemDown(s, x).current == s.current
  {
    hide ThreadBlock;
  }

  lemma UpEffect(s: Kernel, x: SemId)
    requires SchedInv(s) && x in s.sems && s.sems[x].value < 255
    ensures Effect(s, Up(x), SemUp(s, x)) && SemUp(s, x).current == s.current
  {
    WakeWaiterKeeps(s, x);
    UpKeepsSched(s, x);
    WokenEffect(s, x);
    RaisedEffect(s, WakeWaiter(s, x), x);
    hide *;
  }

  /** Nothing but the queue changes when a waiter is woken. */
  ghost predicate SameUnits(s: Kernel, m: Kernel) {
    && m.sems.Keys == s.sems.Keys && m.idle == s.idle && m.current == s.current && m.threads.Keys == s.threads.Keys
    && (forall x :: x in s.sems ==> m.sems[x] == s.sems[x].(waiters := m.sems[x].waiters))
    && (forall t :: t in s.threads ==> m.threads[t].wait == s.threads[t].wait)
  }

  lemma WokenEffect(s: Kernel, x: SemId)
    requires x in s.sems
    requires s.sems[x].waiters != [] ==> s.sems[x].waiters[0] in s.threads && WakeWaiter(s, x) == Waking(s, x)
    ensures SameUnits(s, WakeWaiter(s, x))
  {
  }

  lemma RaisedEffect(s: Kernel, m: Kernel, x: SemId)
    requires x in s.sems && s.sems[x].value < 255 && SameUnits(s, m)
    ensures Effect(s, Up(x), Raise(m, x)) && Raise(m, x).current == s.current
  {
  }

  /** What one step does to the semaphores and to who waits where. */
  lemma StepEffect(s: Kernel, e: Event)
    requires SchedInv(s) && Enabled(s, e) && !Apply(s, e).panic
    requires forall x :: x in s.sems ==> s.sems[x].value < BYTE
    ensures Effect(s, e, Apply(s, e))
    ensures e.Down? && Takes(s, e, e.x) ==> Apply(s, e).current == s.current
    ensures e.Up? ==> Apply(s, e).current == s.current
  {
    hide ReadyOk, WaitersOk, ThreadsOk, AllOk, Schedule, SameSleep, Effect, SemDown, SemUp;
    match e
    case Down(x) => DownEffect(s, x);
    case Up(x) => UpKeepsSched(s, x); UpEffect(s, x);
    case TimerTick => TickEffect(s);
    case Yield => YieldKeepsSched(s); QuietEffect(s, e); ScheduleEffect(s, e, s, ThreadYield(s));
    case IdleBlock => IdleBlockKeepsSched(s); QuietEffect(s, e); ScheduleEffect(s, e, s, ThreadBlock(s));
    case Start(t, prio) => StartEffect(s, t, prio);
  }

  lemma QuietEffect(s: Kernel, e: Event)
    requires e.Yield? || e.IdleBlock? || e.TimerTick?
    ensures Effect(s, e, s)
  {
  }

  lemma TickEffect(s: Kernel)
    requires SchedInv(s)
    ensures Effect(s, TimerTick, Tick(s))
  {
    TickKeepsSched(s);
    TickedEffect(s);
    if s.threads[s.current].ava == 0 {
      hide *;
      ScheduleEffect(s, TimerTick, Ticked(s), Tick(s));
    }
  }

  lemma TickedEffect(s: Kernel)
    requires s.current in s.threads && s.idle in s.threads
    ensures Effect(s, TimerTick, Ticked(s))
    ensures s.threads[s.current].ava > 0 ==> Effect(s, TimerTick, Tick(s))
  {
    hide Schedule;
  }

  lemma StartEffect(s: Kernel, t: Tid, prio: int)
    requires SchedInv(s) && t !in s.threads
    ensures Effect(s, Start(t, prio), ThreadStart(s, t, prio))
  {
    StartUnqueued(s, t);
    hide ReadyOk, WaitersOk, ThreadsOk, AllOk;
  }

  lemma SameSleepSems(s: Kernel, q: Kernel)
    requires SameSleep(s, q)
    ensures q.sems == s.sems && q.idle == s.idle && q.threads.Keys == s.threads.Keys
  {
  }

  lemma StartUnqueued(s: Kernel, t: Tid)
    requires SchedInv(s) && t !in s.threads
    ensures t !in s.ready && t !in s.all
  {
    assert !IsReady(s, t);
  }

  // ---- No lost wake-up ----

  /** Woken threads are the same when nobody but idle changes between asleep and awake. */
  lemma WokenSame(s: Kernel, q: Kernel, x: SemId)
    requires SameSleep(s, q) && ThreadsOk(s) && ThreadsOk(q)
    ensures Woken(q, x) == Woken(s, x)
  {
    forall t ensures t in Woken(q, x) <==> t in Woken(s, x) {
      if t in s.threads { assert SameThread(s, q, t) && ThreadOk(s, t) && ThreadOk(q, t); }
    }
  }

  /** If anybody is asleep on x, at least as many woken threads have yet to retest as x has units. */
  ghost predicate NoLostWakeup(s: Kernel, x: SemId)
    requires x in s.sems
  {
    s.sems[x].waiters != [] ==> s.sems[x].value <= |Woken(s, x)|
  }

  lemma DownTakenWakeups(s: Kernel, x: SemId, y: SemId)
    requires SchedInv(s) && Enabled(s, Down(x)) && y in s.sems && NoLostWakeup(s, y) && s.sems[x].value > 0
    ensures y in SemDown(s, x).sems && NoLostWakeup(SemDown(s, x), y)
  {
    hide ReadyOk, WaitersOk, AllOk, ThreadsOk, Schedule;
    var q := SemDown(s, x);
    assert Woken(q, y) == if y == x then Woken(s, y) - {s.current} else Woken(s, y);
  }

  lemma DownAsleepWakeups(s: Kernel, x: SemId, y: SemId)
    requires SchedInv(s) && Enabled(s, Down(x)) && y in s.sems && NoLostWakeup(s, y) && s.sems[x].value == 0
    ensures y in SemDown(s, x).sems && NoLostWakeup(SemDown(s, x), y)
  {
    DownKeepsSched(s, x);
    AsleepBase(s, x);
    var m := Asleep(s, x);
    var q := SemDown(s, x);
    SameSleepSems(m, q);
    WokenSame(m, q, y);
    hide Base, Schedule, SemDown, SameSleep;
    if y != x { assert Woken(m, y) == Woken(s, y); }
  }

  lemma UpWakeups(s: Kernel, x: SemId, y: SemId)
    requires SchedInv(s) && x in s.sems && y in s.sems && NoLostWakeup(s, y)
    requires s.sems[x].value < 255
    ensures y in SemUp(s, x).sems && NoLostWakeup(SemUp(s, x), y)
  {
    WakeWaiterKeeps(s, x);
    UpKeepsSched(s, x);
    var m := WakeWaiter(s, x);
    assert Woken(SemUp(s, x), y) == Woken(m, y) by { hide WakeWaiter, Base; }
    if s.sems[x].waiters != [] {
      FirstWaiter(s, x);
      hide Base;
      WakingWoken(s, x, y);
    }
  }

  /** The thread sem_up unblocks joins those that have yet to retest. */
  lemma WakingWoken(s: Kernel, x: SemId, y: SemId)
    requires SchedInv(s) && x in s.sems && s.sems[x].waiters != [] && s.sems[x].waiters[0] in s.threads
    requires Sleeps(s, s.sems[x].waiters[0], x)
    ensures Woken(Waking(s, x), y) == if y == x then Woken(s, y) + {s.sems[x].waiters[0]} else Woken(s, y)
    ensures y == x ==> s.sems[x].waiters[0] !in Woken(s, y)
  {
    hide Base;
  }

  lemma ScheduleWakeups(s: Kernel, m: Kernel, q: Kernel, y: SemId)
    requires y in s.sems && NoLostWakeup(s, y) && Base(m) && SchedInv(q) && SameSleep(m, q)
    requires m.sems == s.sems && Woken(m, y) == Woken(s, y)
    ensures y in q.sems && NoLostWakeup(q, y)
  {
    WokenSame(m, q, y);
  }

  lemma OtherWakeups(s: Kernel, e: Event, y: SemId)
    requires SchedInv(s) && Enabled(s, e) && !e.Down? && !e.Up? && y in s.sems && NoLostWakeup(s, y)
    ensures y in Apply(s, e).sems && NoLostWakeup(Apply(s, e), y)
  {
    hide ReadyOk, WaitersOk, AllOk, Schedule, SameSleep, ThreadsOk;
    var q := Apply(s, e);
    match e
    case TimerTick =>
      TickKeepsSched(s);
      assert Woken(Ticked(s), y) == Woken(s, y);
      if s.threads[s.current].ava == 0 {
        ScheduleWakeups(s, Ticked(s), q, y);
      } else {
        assert Woken(q, y) == Woken(s, y);
      }
    case Yield => YieldKeepsSched(s); ScheduleWakeups(s, s, q, y);
    case IdleBlock => IdleBlockKeepsSched(s); ScheduleWakeups(s, s, q, y);
    case Start(t, prio) => StartUnqueued(s, t); assert Woken(q, y) == Woken(s, y);
  }

  /** Every step loses no wake-up and keeps value + downs equal to the initial value + ups. */
  lemma StepKeepsSem(s: Kernel, e: Event)
    requires SchedInv(s) && SemInv(s) && Enabled(s, e) && !Apply(s, e).panic
    ensures SemInv(Apply(s, e))
  {
    hide ReadyOk, WaitersOk, ThreadsOk, AllOk, SemDown, SemUp, ThreadYield, Tick, ThreadBlock, ThreadStart, Woken;
    StepEffect(s, e);
    StepKeepsSched(s, e);
    var q := Apply(s, e);
    forall y | y in q.sems ensures NoLostWakeup(q, y) {
      assert NoLostWakeup(s, y);
      match e
      case Down(x) => if s.sems[x].value == 0 { DownAsleepWakeups(s, x, y); } else { DownTakenWakeups(s, x, y); }
      case Up(x) => UpWakeups(s, x, y);
      case TimerTick => OtherWakeups(s, e, y);
      case Yield => OtherWakeups(s, e, y);
      case IdleBlock => OtherWakeups(s, e, y);
      case Start(t, prio) => OtherWakeups(s, e, y);
    }
    forall y | y in q.sems ensures q.sems[y].value < BYTE {}
  }

  // ---- Only sem_up wakes ----

  lemma SameSleepSleeps(m: Kernel, q: Kernel, t: Tid, x: SemId)
    requires SameSleep(m, q) && Sleeps(m, t, x)
    ensures Sleeps(q, t, x)
  {
    assert SameThread(m, q, t);
  }

  lemma UpLeavesAsleep(s: Kernel, y: SemId, t: Tid, x: SemId)
    requires SchedInv(s) && y in s.sems && x in s.sems && y != x && Sleeps(s, t, x)
    ensures Sleeps(SemUp(s, y), t, x)
  {
    hide ReadyOk, ThreadsOk, AllOk;
    WakeWaiterKeeps(s, y);
    assert QueueOk(s, x) && QueueOk(s, y);
    assert !Sleeps(s, t, y);
  }

  /** A thread asleep on x stays asleep until somebody raises x. */
  lemma StaysAsleep(s: Kernel, e: Event, t: Tid, x: SemId)
    requires SchedInv(s) && Enabled(s, e) && Sleeps(s, t, x) && x in s.sems && e != Up(x)
    ensures Sleeps(Apply(s, e), t, x)
  {
    hide ReadyOk, WaitersOk, ThreadsOk, AllOk, Schedule, SameSleep, SemUp;
    match e
    case Down(y) =>
      DownKeepsSched(s, y);
      if s.sems[y].value == 0 { SameSleepSleeps(Asleep(s, y), SemDown(s, y), t, x); }
    case Up(y) => UpLeavesAsleep(s, y, t, x);
    case TimerTick =>
      TickKeepsSched(s);
      if s.threads[s.current].ava == 0 { SameSleepSleeps(Ticked(s), Tick(s), t, x); }
    case Yield => YieldKeepsSched(s); SameSleepSleeps(s, ThreadYield(s), t, x);
    case IdleBlock => IdleBlockKeepsSched(s); SameSleepSleeps(s, ThreadBlock(s), t, x);
    case Start(u, prio) => StartUnqueued(s, u);
  }
}
