/** How long a thread runs: what thread_start gives it, and when schedule is called on it. */
module TimeSlices {
  import opened Wrappers
  import opened Scheduler
  import opened SchedulerProofs
  import opened Accounting
  import opened KernelRuns

  // ---- thread_start ----

  /** The new thread is ready, last of the ready and of all threads, with the priority in the byte and the slice in
      the word they are stored in; no time is charged to it, it waits for nothing, and nothing else changes. */
  lemma StartOrder(s: Kernel, t: Tid, prio: int)
    requires SchedInv(s) && t !in s.threads
    ensures var q := ThreadStart(s, t, prio);
            && !q.panic && q.ready == s.ready + [t] && q.all == s.all + [t] && q.current == s.current
            && q.idle == s.idle && q.sems == s.sems && q.total == s.total
            && q.threads.Keys == s.threads.Keys + {t} && (forall u :: u in s.threads ==> q.threads[u] == s.threads[u])
            && var v := q.threads[t];
               && v.status == READY && v.elapsed == 0 && v.wait == None && v.ticks == 0 && v.refills == 0
               && v.priority == prio % 256 && v.ava == prio % 0x1_0000_0000
               && (0 <= prio < 256 ==> v.priority == prio && v.ava == prio)
  {
    assert !IsReady(s, t);
    hide ReadyOk, WaitersOk, ThreadsOk;
    assert t !in s.ready && t !in s.all by { Unlisted(s, t); }
  }

  lemma Unlisted(s: Kernel, t: Tid)
    requires SchedInv(s) && t !in s.threads
    ensures t !in s.ready && t !in s.all
  {
    assert !IsReady(s, t);
  }

  /** The state thread_init leaves: main runs with 32 ticks, idle is ready with 10. */
  lemma BootThreads(main: Tid, idle: Tid, sems: map<SemId, Sem>)
    requires main != idle
    ensures var s := Boot(main, idle, sems);
            && s.threads == map[main := Thread(RUNNING, 32, 32, 0, None, 0, 0),
                                idle := Thread(READY, 10, 10, 0, None, 0, 0)]
            && s.ready == [idle] && s.all == [main, idle] && s.current == main && s.idle == idle && s.sems == sems
            && s.total == 0 && !s.panic
  {
    assert 32 % BYTE == 32 % WORD == 32 && 10 % BYTE == 10 % WORD == 10;
  }

  // ---- Assertions ----

  /** Where an assertion of thread.c or sem_down fails the kernel stops, in every state: unblocking a thread that is
      not blocked or is ready, and queueing one that is in the queue. */
  lemma AssertionsStop(s: Kernel, t: Tid, x: SemId, prio: int)
    requires !s.panic && s.current in s.threads && s.idle in s.threads && t in s.threads && x in s.sems
    ensures ThreadUnblock(s, t).panic <==> s.threads[t].status in {RUNNING, READY, DIED} || t in s.ready
    ensures s.current in s.ready ==> ThreadYield(s).panic
    ensures s.threads[s.current].status == RUNNING && s.current in s.ready ==> Schedule(s).panic
    ensures s.sems[x].value == 0 && s.current in s.sems[x].waiters ==> SemDown(s, x).panic
    ensures ThreadStart(s, t, prio).panic <==> t in s.ready || t in s.all
  {
    var st := s.threads[t].status;
    assert st.RUNNING? || st.READY? || st.DIED? || st.BLOCKED? || st.WAITING? || st.HANGING?;
  }

  // ---- While others run ----

  /** Only the status of t may be another. */
  predicate SameBut(s: Kernel, q: Kernel, t: Tid) {
    t in s.threads && t in q.threads && q.threads[t] == s.threads[t].(status := q.threads[t].status)
  }

  /** A step by another thread leaves t everything but its status. */
  lemma OthersStep(s: Kernel, e: Event, t: Tid)
    requires SchedInv(s) && Enabled(s, e) && !Apply(s, e).panic && t in s.threads && t != s.current
    ensures SameBut(s, Apply(s, e), t)
  {
    CurrentUnqueued(s);
    hide ReadyOk, WaitersOk, ThreadsOk, AllOk, Schedule, ThreadUnblock;
    match e
    case Down(x) =>
      if s.sems[x].value == 0 { ScheduleSame(Asleep(s, x), t); }
    case Up(x) => UpSame(s, x, t);
    case TimerTick =>
      if s.threads[s.current].ava == 0 { ScheduleSame(Ticked(s), t); }
    case Yield => ScheduleSame(SetStatus(s.(ready := s.ready + [s.current]), s.current, READY), t);
    case IdleBlock => ScheduleSame(SetStatus(s, s.current, BLOCKED), t);
    case Start(u, prio) =>
  }

  lemma ScheduleSame(m: Kernel, t: Tid)
    requires m.current in m.threads && m.idle in m.threads && t in m.threads && t != m.current
    requires m.threads[m.current].status == RUNNING ==> m.current !in m.ready
    ensures SameBut(m, Schedule(m), t)
  {
    ScheduleSlices(m);
    assert SliceAfter(m, Schedule(m), t);
  }

  lemma UpSame(s: Kernel, x: SemId, t: Tid)
    requires SchedInv(s) && x in s.sems && t in s.threads
    ensures SameBut(s, SemUp(s, x), t)
  {
    WakeWaiterKeeps(s, x);
    hide ReadyOk, WaitersOk, ThreadsOk, AllOk;
  }

  /** t runs in no state of the run before its last. */
  ghost predicate Waits(s: Kernel, es: seq<Event>, t: Tid)
    decreases |es|
  {
    es != [] && Enabled(s, es[0]) ==> s.current != t && Waits(Apply(s, es[0]), es[1..], t)
  }

  lemma {:induction false} WaitingKeeps(s: Kernel, es: seq<Event>, q: Kernel, t: Tid)
    requires SchedInv(s) && Reaches(s, es, q) && !q.panic && Waits(s, es, t) && t in s.threads
    ensures SchedInv(q) && SameBut(s, q, t)
    decreases |es|
  {
    if es != [] {
      hide Apply, Enabled, SchedInv;
      var m := Apply(s, es[0]);
      if m.panic {
        PanicEnds(m, es[1..], q);
      } else {
        StepKeepsSched(s, es[0]);
        OthersStep(s, es[0], t);
        WaitingKeeps(m, es[1..], q, t);
      }
    }
  }

  // ---- While it runs ----

  predicate OnlyTicks(es: seq<Event>) { forall i :: 0 <= i < |es| ==> es[i] == TimerTick }

  /** A tick in a thread with time left takes one unit of it and switches to nobody. */
  lemma TickStays(s: Kernel)
    requires SchedInv(s) && s.threads[s.current].ava > 0
    ensures var q := Tick(s);
            && SchedInv(q) && q.current == s.current && q.ready == s.ready
            && q.threads[q.current].ava == s.threads[s.current].ava - 1
            && q.threads[q.current].priority == s.threads[s.current].priority
  {
    TickKeepsSched(s);
    hide ReadyOk, WaitersOk, ThreadsOk, AllOk;
  }

  /** A tick in a thread with none left calls schedule: the thread gets a new slice and goes behind all ready
      threads, and the first of them runs. */
  lemma TickSwitches(s: Kernel)
    requires SchedInv(s) && s.threads[s.current].ava == 0
    ensures var q := Tick(s);
            && (if s.ready == [] then q.current == s.current && q.ready == []
                else q.current == s.ready[0] && q.ready == s.ready[1..] + [s.current])
            && s.current in q.threads && q.threads[s.current].ava == s.threads[s.current].priority
            && q.threads[s.current].refills == s.threads[s.current].refills + 1
  {
    TickKeepsSched(s);
    RoundRobin(Ticked(s));
    CurrentUnqueued(s);
    ScheduleSlices(Ticked(s));
    assert SliceAfter(Ticked(s), Tick(s), s.current);
    hide ReadyOk, WaitersOk, ThreadsOk, AllOk, Schedule;
  }

  /** A thread keeps the processor for as many ticks as its slice has; the next one calls schedule. */
  lemma {:induction false} SliceLasts(s: Kernel, es: seq<Event>, q: Kernel)
    requires SchedInv(s) && Reaches(s, es, q) && OnlyTicks(es)
    ensures var c := s.current;
            && (|es| <= s.threads[c].ava ==> q.current == c && q.ready == s.ready)
            && (|es| == s.threads[c].ava + 1 ==>
                  && c in q.threads && q.threads[c].ava == s.threads[c].priority
                  && if s.ready == [] then q.current == c && q.ready == []
                     else q.current == s.ready[0] && q.ready == s.ready[1..] + [c])
    decreases |es|
  {
    if es != [] {
      hide SchedInv, Tick;
      assert es[0] == TimerTick && OnlyTicks(es[1..]);
      CurrentThere(s);
      if s.threads[s.current].ava > 0 {
        TickStays(s);
        SliceLasts(Tick(s), es[1..], q);
      } else {
        TickSwitches(s);
      }
    }
  }

  lemma CurrentThere(s: Kernel)
    requires SchedInv(s)
    ensures s.current in s.threads && s.idle in s.threads
  {
  }

  /** The first slice of a new thread, however long it waits for it: prio ticks leave it running, and the next one
      calls schedule. */
  lemma FirstSlice(s: Kernel, t: Tid, prio: int, es: seq<Event>, m: Kernel, ticks: seq<Event>, q: Kernel)
    requires SchedInv(s) && t !in s.threads && 0 <= prio < 256
    requires var s1 := ThreadStart(s, t, prio); Reaches(s1, es, m) && Waits(s1, es, t)
    requires m.current == t && !m.panic && Reaches(m, ticks, q) && OnlyTicks(ticks)
    ensures |ticks| <= prio ==> q.current == t && q.ready == m.ready
    ensures |ticks| == prio + 1 ==>
              && t in q.threads && q.threads[t].ava == prio
              && if m.ready == [] then q.current == t && q.ready == []
                 else q.current == m.ready[0] && q.ready == m.ready[1..] + [t]
  {
    hide SchedInv, Reaches, Waits;
    StartOrder(s, t, prio);
    StartKeepsSched(s, t, prio);
    WaitingKeeps(ThreadStart(s, t, prio), es, m, t);
    CurrentThere(m);
    SliceLasts(m, ticks, q);
  }
}
