/** Whole runs of the scheduler, its semaphores and the tick handler, from thread_init on. */
module KernelRuns {
  import opened Scheduler
  import opened SchedulerProofs
  import opened Semaphores
  import opened Accounting

  const MAIN_PRIO: nat := 32
  const IDLE_PRIO: nat := 10

  ghost predicate KernelInv(s: Kernel) { SchedInv(s) && SemInv(s) && BooksOk(s) && TotalOk(s) }

  function SemInit(value: nat): Sem { Sem(value, [], value, 0, 0) }

  /** The state thread_init leaves: the main thread runs and idle is ready. */
  function Boot(main: Tid, idle: Tid, sems: map<SemId, Sem>): Kernel {
    Kernel(map[main := NewThread(MAIN_PRIO).(status := RUNNING), idle := NewThread(IDLE_PRIO)],
           [idle], [main, idle], main, idle, sems, 0, false)
  }

  lemma BootSched(main: Tid, idle: Tid, sems: map<SemId, Sem>)
    requires main != idle && forall x :: x in sems ==> sems[x] == SemInit(sems[x].value)
    ensures SchedInv(Boot(main, idle, sems))
  {
    var s := Boot(main, idle, sems);
    assert IsReady(s, idle) && !IsReady(s, main);
    forall x | x in s.sems ensures QueueOk(s, x) {}
    forall t | t in s.threads ensures ThreadOk(s, t) {}
  }

  /** Semaphores initialised with any byte start in order. */
  lemma BootInv(main: Tid, idle: Tid, sems: map<SemId, Sem>)
    requires main != idle
    requires forall x :: x in sems ==> sems[x].value < BYTE && sems[x] == SemInit(sems[x].value)
    ensures KernelInv(Boot(main, idle, sems))
  {
    var s := Boot(main, idle, sems);
    BootSched(main, idle, sems);
    NewThreadBooks(MAIN_PRIO);
    NewThreadBooks(IDLE_PRIO);
    assert s.all[..1] == [main] && s.all[..1][..0] == [];
    assert Elapsed([main], s.threads) == 0;
    assert Elapsed(s.all, s.threads) == Elapsed(s.all[..1], s.threads) + s.threads[idle].elapsed;
  }

  /** A semaphore initialised under a new name disturbs nothing. */
  lemma NewSemaphore(s: Kernel, x: SemId, value: nat)
    requires SchedInv(s) && SemInv(s) && x !in s.sems && value < BYTE
    ensures var q := s.(sems := s.sems[x := SemInit(value)]); SchedInv(q) && SemInv(q)
  {
    var q := s.(sems := s.sems[x := SemInit(value)]);
    forall t ensures t in q.ready <==> IsReady(q, t) { assert t in s.ready <==> IsReady(s, t); }
    forall t | t in q.threads ensures ThreadOk(q, t) { assert ThreadOk(s, t); }
    forall y | y in q.sems ensures QueueOk(q, y) {
      if y != x { assert QueueOk(s, y); }
      forall t ensures t in q.sems[y].waiters <==> Sleeps(q, t, y) {
        if t in s.threads { assert ThreadOk(s, t); }
        if y != x { assert t in s.sems[y].waiters <==> Sleeps(s, t, y); }
      }
    }
    assert forall y :: y in s.sems ==> Woken(q, y) == Woken(s, y);
  }

  /** One step that does not raise a semaphore past its byte keeps the scheduler and the semaphores. */
  lemma KernelStep(s: Kernel, e: Event)
    requires SchedInv(s) && SemInv(s) && Enabled(s, e) && (e.Up? ==> s.sems[e.x].value < 255)
    ensures var q := Apply(s, e);
            !q.panic && SchedInv(q) && SemInv(q) && Effect(s, e, q)
            && (e.Up? || (e.Down? && Takes(s, e, e.x)) ==> q.current == s.current)
  {
    StepKeepsSched(s, e);
    StepKeepsSem(s, e);
    assert forall x :: x in s.sems ==> s.sems[x].value < BYTE;
    hide *;
    StepEffect(s, e);
  }

  // ---- Runs ----

  ghost predicate Reaches(s: Kernel, es: seq<Event>, q: Kernel)
    decreases |es|
  {
    if es == [] then q == s else Enabled(s, es[0]) && Reaches(Apply(s, es[0]), es[1..], q)
  }

  /** Somewhere in the run, sem_up meets a semaphore already at 255. */
  ghost predicate Overflows(s: Kernel, es: seq<Event>)
    decreases |es|
  {
    es != [] && Enabled(s, es[0])
    && ((es[0].Up? && s.sems[es[0].x].value == 255) || Overflows(Apply(s, es[0]), es[1..]))
  }

  /** Every thread is started with a priority that fits its byte. */
  predicate BytePriorities(es: seq<Event>) { forall i :: 0 <= i < |es| && es[i].Start? ==> 0 <= es[i].prio < BYTE }

  /** In every run, whatever the interleaving, the queues, the semaphores and the books stay in order; an
      assertion fails exactly when a semaphore is raised past 255. */
  lemma {:induction false} RunKeeps(s: Kernel, es: seq<Event>, q: Kernel)
    requires KernelInv(s) && Reaches(s, es, q) && BytePriorities(es)
    ensures q.panic <==> Overflows(s, es)
    ensures !q.panic ==> KernelInv(q)
    decreases |es|
  {
    assert !s.panic;
    if es != [] {
      var e := es[0];
      var m := Apply(s, e);
      assert Enabled(s, e);
      hide Apply, Enabled, KernelInv;
      KernelInvStep(s, e);
      if m.panic {
        PanicEnds(m, es[1..], q);
      } else {
        assert forall i :: 0 <= i < |es[1..]| ==> es[1..][i] == es[i + 1];
        RunKeeps(m, es[1..], q);
      }
    }
  }

  lemma PanicEnds(s: Kernel, es: seq<Event>, q: Kernel)
    requires s.panic && Reaches(s, es, q)
    ensures q == s && !Overflows(s, es)
  {
  }

  lemma KernelInvStep(s: Kernel, e: Event)
    requires KernelInv(s) && Enabled(s, e) && (e.Start? ==> 0 <= e.prio < BYTE)
    ensures Apply(s, e).panic <==> e.Up? && s.sems[e.x].value == 255
    ensures !Apply(s, e).panic ==> KernelInv(Apply(s, e))
  {
    StepKeepsSched(s, e);
    assert e.Up? ==> s.sems[e.x].value < BYTE;
    if !Apply(s, e).panic {
      StepKeepsSem(s, e);
      hide SchedInv, SemInv, BooksOk, TotalOk, Apply;
      StepKeepsBooks(s, e);
    }
  }

  /** The books of any thread, and the total, in any run from boot. */
  lemma RunFromBoot(main: Tid, idle: Tid, sems: map<SemId, Sem>, es: seq<Event>, q: Kernel, x: SemId, t: Tid)
    requires main != idle
    requires forall x :: x in sems ==> sems[x].value < BYTE && sems[x] == SemInit(sems[x].value)
    requires Reaches(Boot(main, idle, sems), es, q) && BytePriorities(es) && !q.panic
    requires x in q.sems && t in q.threads
    ensures t in q.ready <==> q.threads[t].status == READY
    ensures t == q.current <==> q.threads[t].status == RUNNING
    ensures t in q.sems[x].waiters <==> Sleeps(q, t, x)
    ensures q.sems[x].waiters != [] ==> q.sems[x].value <= |Woken(q, x)|
    ensures q.sems[x].value + q.sems[x].downs == q.sems[x].initial + q.sems[x].ups
    ensures Books(q.threads[t])
    ensures (forall u :: u in q.all ==> u in q.threads) && q.total == Elapsed(q.all, q.threads) % WORD
  {
    BootInv(main, idle, sems);
    RunKeeps(Boot(main, idle, sems), es, q);
    assert t in q.ready <==> IsReady(q, t);
    assert QueueOk(q, x) && ThreadOk(q, t);
  }

  /** Why idle may not go down on a semaphore: if it has to sleep when nothing else is ready, schedule
      wakes it at once and it runs while its tag is still linked into the wait queue. */
  lemma IdleMustNotSleep(s: Kernel, x: SemId)
    requires SchedInv(s) && s.current == s.idle && s.ready == [] && x in s.sems && s.sems[x].value == 0
    ensures var q := SemDown(s, x);
            !q.panic && q.current == s.idle && q.threads[s.idle].status == RUNNING && s.idle in q.sems[x].waiters
  {
    CurrentUnqueued(s);
  }

  // ---- The same with something else ready ----

  /** The idle thread's tag is linked into the queue of x; as any thread's, its status says where it is. */
  ghost predicate IdleLinked(s: Kernel, x: SemId) {
    && x in s.sems && s.idle in s.sems[x].waiters
    && (!s.panic ==>
          && s.current in s.threads && s.threads[s.current].status == RUNNING && s.idle in s.threads
          && s.threads[s.idle].status in {RUNNING, READY, BLOCKED}
          && (s.threads[s.idle].status == RUNNING ==> s.current == s.idle)
          && (s.threads[s.idle].status == READY ==> s.idle in s.ready))
  }

  /** The same inside schedule, when the current thread may have stopped running. */
  ghost predicate LinkedInside(m: Kernel, x: SemId) {
    && m.current in m.threads && m.idle in m.threads && x in m.sems && m.idle in m.sems[x].waiters
    && (!m.panic ==>
          && m.threads[m.idle].status in {RUNNING, READY, BLOCKED}
          && (m.threads[m.idle].status == RUNNING ==> m.current == m.idle)
          && (m.threads[m.idle].status == READY ==> m.idle in m.ready))
  }

  lemma RequeueLinked(m: Kernel, x: SemId)
    requires LinkedInside(m, x) && !m.panic
    ensures var r := Requeue(m);
            LinkedInside(r, x) && r.idle == m.idle && (!r.panic ==> r.threads[r.idle].status != RUNNING)
  {
  }

  lemma WakeLinked(m: Kernel, x: SemId)
    requires LinkedInside(m, x) && (!m.panic ==> m.threads[m.idle].status != RUNNING)
    ensures var r := WakeIdle(m);
            LinkedInside(r, x) && r.idle == m.idle && (!r.panic ==> r.threads[r.idle].status != RUNNING)
  {
  }

  lemma DispatchLinked(m: Kernel, x: SemId)
    requires LinkedInside(m, x) && (!m.panic ==> m.threads[m.idle].status != RUNNING)
    ensures IdleLinked(Dispatch(m), x) && Dispatch(m).idle == m.idle
  {
    if !m.panic && m.threads[m.idle].status == READY { assert m.ready == [m.ready[0]] + m.ready[1..]; }
  }

  /** schedule leaves it linked. */
  lemma ScheduleLinked(m: Kernel, x: SemId)
    requires LinkedInside(m, x) && !m.panic
    ensures m.current in m.threads && m.idle in m.threads && Schedule(m).idle == m.idle && IdleLinked(Schedule(m), x)
  {
    hide Requeue, WakeIdle, Dispatch, IdleLinked;
    RequeueLinked(m, x);
    WakeLinked(Requeue(m), x);
    DispatchLinked(WakeIdle(Requeue(m)), x);
  }

  lemma ScheduleFindsIdle(m: Kernel)
    requires !m.panic && m.current in m.threads && m.idle in m.threads && m.ready == []
    requires m.threads[m.current].status == BLOCKED && m.threads[m.idle].status == BLOCKED
    ensures !Schedule(m).panic && Schedule(m).current == m.idle
  {
  }

  /** Only sem_up of x unlinks it. */
  lemma LinkedStep(s: Kernel, e: Event, x: SemId)
    requires IdleLinked(s, x) && Enabled(s, e) && e != Up(x)
    ensures IdleLinked(Apply(s, e), x) && Apply(s, e).idle == s.idle
  {
    hide Schedule;
    match e
    case Down(y) =>
      if s.sems[y].value == 0 && s.current !in s.sems[y].waiters { ScheduleLinked(Asleep(s, y), x); }
    case Up(y) =>
    case TimerTick => if s.threads[s.current].ava == 0 { ScheduleLinked(Ticked(s), x); }
    case Yield =>
      if s.current !in s.ready {
        ScheduleLinked(SetStatus(s.(ready := s.ready + [s.current]), s.current, READY), x);
      }
    case IdleBlock => ScheduleLinked(SetStatus(s, s.current, BLOCKED), x);
    case Start(t, prio) =>
  }

  lemma {:induction false} LinkedRun(s: Kernel, es: seq<Event>, q: Kernel, x: SemId)
    requires IdleLinked(s, x) && Reaches(s, es, q) && forall i :: 0 <= i < |es| ==> es[i] != Up(x)
    ensures IdleLinked(q, x) && q.idle == s.idle
    decreases |es|
  {
    if es != [] {
      hide IdleLinked, Enabled, Apply;
      LinkedStep(s, es[0], x);
      assert forall i :: 0 <= i < |es[1..]| ==> es[1..][i] == es[i + 1];
      LinkedRun(Apply(s, es[0]), es[1..], q, x);
    }
  }

  /** After a sem_down on top of idle that had to sleep, whatever else runs: as long as nobody raises that
      semaphore, the idle thread's tag stays linked into its queue; so the idle thread runs although it is
      linked whenever it runs, and it does as soon as the last ready thread falls asleep. */
  lemma SleepingIdleRuns(s: Kernel, x: SemId, es: seq<Event>, q: Kernel, y: SemId)
    requires SchedInv(s) && s.current == s.idle && x in s.sems && s.sems[x].value == 0
    requires Reaches(SemDown(s, x), es, q) && (forall i :: 0 <= i < |es| ==> es[i] != Up(x)) && !q.panic
    ensures q.idle == s.idle && x in q.sems && s.idle in q.sems[x].waiters && s.idle in q.threads
    ensures q.current == s.idle ==> q.threads[s.idle].status == RUNNING
    ensures q.ready == [] && q.current != s.idle && Enabled(q, Down(y)) && q.sems[y].value == 0
            && q.current !in q.sems[y].waiters ==>
              var r := SemDown(q, y);
              && !r.panic && r.current == s.idle && s.idle in r.threads && r.threads[s.idle].status == RUNNING
              && x in r.sems && s.idle in r.sems[x].waiters
  {
    CurrentUnqueued(s);
    hide ReadyOk, WaitersOk, ThreadsOk, AllOk, Schedule;
    ScheduleLinked(Asleep(s, x), x);
    LinkedRun(SemDown(s, x), es, q, x);
    if q.ready == [] && q.current != s.idle && Enabled(q, Down(y)) && q.sems[y].value == 0
       && q.current !in q.sems[y].waiters {
      ScheduleLinked(Asleep(q, y), x);
      ScheduleFindsIdle(Asleep(q, y));
    }
  }
}
