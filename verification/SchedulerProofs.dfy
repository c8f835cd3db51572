/** Every step keeps the queues in order, loses no wake-up and never stops the kernel, except that a
    semaphore raised above 255 overflows its byte. */
module SchedulerProofs {
  import opened Wrappers
  import opened Scheduler

  /** Who is asleep on what, and who exists, is the same in both states. */
  ghost predicate SameSleep(s: Kernel, q: Kernel) {
    q.sems == s.sems && q.idle == s.idle && q.all == s.all && q.total == s.total && q.threads.Keys == s.threads.Keys
    && forall t :: t in s.threads ==> SameThread(s, q, t)
  }

  /** Everything schedule leaves alone in a thread; only idle may start or stop sleeping. */
  predicate SameThread(s: Kernel, q: Kernel, t: Tid)
    requires t in s.threads && t in q.threads
  {
    var v, w := s.threads[t], q.threads[t];
    w.wait == v.wait && w.elapsed == v.elapsed && w.ticks == v.ticks && w.priority == v.priority
    && (t != s.idle ==> (w.status == BLOCKED <==> v.status == BLOCKED))
  }

  lemma WaitersTransfer(s: Kernel, q: Kernel)
    requires WaitersOk(s) && AllOk(s) && SameSleep(s, q)
    ensures WaitersOk(q) && AllOk(q)
  {
    forall x | x in q.sems ensures QueueOk(q, x) {
      assert QueueOk(s, x);
      forall t ensures Sleeps(q, t, x) == Sleeps(s, t, x) {
        if t in s.threads { assert SameThread(s, q, t); }
      }
    }
  }

  lemma SameSleepTrans(s: Kernel, m: Kernel, q: Kernel)
    requires SameSleep(s, m) && SameSleep(m, q)
    ensures SameSleep(s, q)
  {
    forall t | t in s.threads ensures SameThread(s, q, t) {
      assert SameThread(s, m, t) && SameThread(m, q, t);
    }
  }

  // ---- schedule ----

  /** One thread becomes READY at one end of the ready list. */
  lemma ReadyGrows(s: Kernel, q: Kernel, t: Tid)
    requires ReadyOk(s) && t in s.threads && s.threads[t].status != READY
    requires q.ready == s.ready + [t] || q.ready == [t] + s.ready
    requires q.threads.Keys == s.threads.Keys && q.threads[t].status == READY
    requires forall u :: u in s.threads && u != t ==> q.threads[u].status == s.threads[u].status
    ensures ReadyOk(q)
  {
    assert !IsReady(s, t);
    forall u ensures u in q.ready <==> IsReady(q, u) {
      assert u in s.ready <==> IsReady(s, u);
    }
  }

  lemma RequeueKeeps(s: Kernel)
    requires Base(s)
    ensures var q := Requeue(s); Base(q) && SameSleep(s, q) && q.threads[q.current].status != RUNNING
  {
    var q := Requeue(s);
    var t := s.current;
    if s.threads[t].status == RUNNING {
      assert !IsReady(s, t);
      hide WaitersOk, AllOk, NoDup;
      ReadyGrows(s, q, t);
      WaitersTransfer(s, q);
      forall u | u in q.threads ensures ThreadOk(q, u) { assert ThreadOk(s, u); }
    }
  }

  /** When the ready list is empty and no thread is running, the idle thread is asleep and in no queue,
      even when it is the idle thread itself that is blocking: so it can be woken. */
  lemma IdleIsAsleep(s: Kernel)
    requires Base(s) && s.threads[s.current].status != RUNNING && s.ready == []
    ensures s.threads[s.idle].status == BLOCKED && s.idle !in s.ready
    ensures forall x :: x in s.sems ==> s.idle !in s.sems[x].waiters
  {
    assert ThreadOk(s, s.idle) && !IsReady(s, s.idle);
    forall x | x in s.sems ensures s.idle !in s.sems[x].waiters {
      assert QueueOk(s, x) && !Sleeps(s, s.idle, x);
    }
  }

  lemma WakeIdleKeeps(s: Kernel)
    requires Base(s) && s.threads[s.current].status != RUNNING
    ensures var q := WakeIdle(s);
            Base(q) && SameSleep(s, q) && q.ready != [] && q.threads[q.current].status != RUNNING
  {
    if s.ready == [] {
      IdleIsAsleep(s);
      hide WaitersOk, AllOk, NoDup;
      var q := WakeIdle(s);
      ReadyGrows(s, q, s.idle);
      WaitersTransfer(s, q);
      forall u | u in q.threads ensures ThreadOk(q, u) { assert ThreadOk(s, u); }
    }
  }

  lemma DispatchKeeps(s: Kernel)
    requires Base(s) && s.threads[s.current].status != RUNNING && s.ready != []
    ensures var q := Dispatch(s); SchedInv(q) && SameSleep(s, q) && q.current == s.ready[0]
  {
    var q := Dispatch(s);
    var t := s.ready[0];
    assert t in s.ready && IsReady(s, t);
    assert s.ready == [t] + q.ready && t !in q.ready;
    forall u ensures u in q.ready <==> IsReady(q, u) {
      assert u in s.ready <==> IsReady(s, u);
    }
    assert ReadyOk(q);
    hide WaitersOk, AllOk, NoDup;
    WaitersTransfer(s, q);
    forall u | u in q.threads ensures ThreadOk(q, u) { assert ThreadOk(s, u); }
  }

  /** schedule always finds a thread to run. */
  lemma ScheduleKeeps(s: Kernel)
    requires Base(s)
    ensures SchedInv(Schedule(s)) && SameSleep(s, Schedule(s))
  {
    hide ReadyOk, WaitersOk, ThreadsOk, AllOk, SameSleep, Requeue, WakeIdle, Dispatch;
    RequeueKeeps(s);
    WakeIdleKeeps(Requeue(s));
    DispatchKeeps(WakeIdle(Requeue(s)));
    SameSleepTrans(s, Requeue(s), WakeIdle(Requeue(s)));
    SameSleepTrans(s, WakeIdle(Requeue(s)), Schedule(s));
  }

  // ---- sem_down ----

  /** The state in which sem_down calls schedule. */
  function Asleep(s: Kernel, x: SemId): Kernel
    requires x in s.sems && s.current in s.threads
  {
    var v := s.sems[x];
    var t := s.current;
    SetStatus(SetThread(SetSem(s, x, v.(waiters := v.waiters + [t])), t, s.threads[t].(wait := Some(x))), t, BLOCKED)
  }

  lemma CurrentUnqueued(s: Kernel)
    requires SchedInv(s)
    ensures s.current !in s.ready && forall x :: x in s.sems ==> s.current !in s.sems[x].waiters
  {
    assert !IsReady(s, s.current);
    forall x | x in s.sems ensures s.current !in s.sems[x].waiters {
      assert QueueOk(s, x) && !Sleeps(s, s.current, x);
    }
  }

  lemma AsleepBase(s: Kernel, x: SemId)
    requires SchedInv(s) && x in s.sems && s.current != s.idle
    ensures Base(Asleep(s, x))
  {
    var q := Asleep(s, x);
    var t := s.current;
    CurrentUnqueued(s);
    forall u ensures u in q.ready <==> IsReady(q, u) {
      assert u in s.ready <==> IsReady(s, u);
    }
    forall y | y in q.sems ensures QueueOk(q, y) {
      assert QueueOk(s, y);
      forall u ensures u in q.sems[y].waiters <==> Sleeps(q, u, y) {
        assert u in s.sems[y].waiters <==> Sleeps(s, u, y);
      }
    }
    forall u | u in q.threads ensures ThreadOk(q, u) { assert ThreadOk(s, u); }
    assert forall u :: u in q.threads <==> u in s.threads;
  }

  /** Rewriting the running thread's history, slice or finished wait, or a semaphore's value, changes
      no queue. */
  lemma RunningEdit(s: Kernel, q: Kernel)
    requires SchedInv(s) && q == s.(threads := q.threads, sems := q.sems, total := q.total)
    requires q.threads.Keys == s.threads.Keys && q.threads[s.current].status == RUNNING
    requires forall t :: t in s.threads && t != s.current ==> q.threads[t] == s.threads[t]
    requires q.threads[s.current].wait in {None, s.threads[s.current].wait}
    requires q.sems.Keys == s.sems.Keys && forall x :: x in s.sems ==> q.sems[x].waiters == s.sems[x].waiters
    ensures SchedInv(q)
  {
    forall u ensures u in q.ready <==> IsReady(q, u) {
      assert u in s.ready <==> IsReady(s, u);
    }
    forall y | y in q.sems ensures QueueOk(q, y) {
      assert QueueOk(s, y);
      forall u ensures Sleeps(q, u, y) == Sleeps(s, u, y) {}
    }
    forall u | u in q.threads ensures ThreadOk(q, u) { assert ThreadOk(s, u); }
    assert forall u :: u in q.threads <==> u in s.threads;
  }

  lemma DownKeepsSched(s: Kernel, x: SemId)
    requires SchedInv(s) && Enabled(s, Down(x))
    ensures SchedInv(SemDown(s, x))
    ensures if s.sems[x].value == 0
            then SemDown(s, x) == Schedule(Asleep(s, x)) && SameSleep(Asleep(s, x), SemDown(s, x))
            else SemDown(s, x).threads.Keys == s.threads.Keys
  {
    CurrentUnqueued(s);
    hide ReadyOk, WaitersOk, ThreadsOk, AllOk, SameSleep, Schedule;
    if s.sems[x].value == 0 {
      AsleepBase(s, x);
      ScheduleKeeps(Asleep(s, x));
    } else {
      RunningEdit(s, SemDown(s, x));
    }
  }

  /** A down on top of idle keeps the queues in order if and only if the semaphore is positive: the test the
      handler's caller could make. */
  lemma IdleDownIff(s: Kernel, x: SemId)
    requires SchedInv(s) && s.current == s.idle && x in s.sems
    ensures SchedInv(SemDown(s, x)) <==> s.sems[x].value > 0
  {
    CurrentUnqueued(s);
    var q := SemDown(s, x);
    if s.sems[x].value > 0 {
      RunningEdit(s, q);
    } else {
      IdleAsleep(s, x);
    }
  }

  /** The idle thread's tag stays linked into the wait queue, whatever schedule does. */
  lemma IdleAsleep(s: Kernel, x: SemId)
    requires SchedInv(s) && s.current == s.idle && x in s.sems && s.sems[x].value == 0
    ensures !SchedInv(SemDown(s, x))
  {
    CurrentUnqueued(s);
    var m := Asleep(s, x);
    var q := SemDown(s, x);
    assert q == Schedule(m);
    ScheduleSems(m);
    hide Schedule, SemDown, NoDup;
    assert s.idle in q.sems[x].waiters && !Sleeps(q, s.idle, x);
    assert SchedInv(q) ==> QueueOk(q, x);
  }

  lemma ScheduleSems(m: Kernel)
    requires m.current in m.threads && m.idle in m.threads
    ensures Schedule(m).sems == m.sems && Schedule(m).idle == m.idle
  {
  }

  // ---- sem_up ----

  /** The state in which sem_up raises the value: the first waiter, if any, is ready. */
  function Waking(s: Kernel, x: SemId): Kernel
    requires x in s.sems && s.sems[x].waiters != [] && s.sems[x].waiters[0] in s.threads
  {
    var v := s.sems[x];
    SetStatus(SetSem(s, x, v.(waiters := v.waiters[1..])).(ready := [v.waiters[0]] + s.ready), v.waiters[0], READY)
  }

  lemma FirstWaiter(s: Kernel, x: SemId)
    requires SchedInv(s) && x in s.sems && s.sems[x].waiters != []
    ensures var t := s.sems[x].waiters[0];
            Sleeps(s, t, x) && t != s.current && t !in s.ready && t !in s.sems[x].waiters[1..]
            && forall u :: u in s.sems[x].waiters <==> u == t || u in s.sems[x].waiters[1..]
  {
    var w := s.sems[x].waiters;
    assert QueueOk(s, x) && w[0] in w && w == [w[0]] + w[1..];
    assert !IsReady(s, w[0]);
  }

  lemma WakingInv(s: Kernel, x: SemId)
    requires SchedInv(s) && x in s.sems && s.sems[x].waiters != []
    ensures s.sems[x].waiters[0] in s.threads && SchedInv(Waking(s, x))
  {
    FirstWaiter(s, x);
    var q := Waking(s, x);
    var t := s.sems[x].waiters[0];
    ReadyGrows(s, q, t);
    assert QueueOk(s, x);
    assert NoDup(q.sems[x].waiters);
    hide NoDup;
    forall y | y in q.sems ensures QueueOk(q, y) {
      assert QueueOk(s, y);
      forall u ensures u in q.sems[y].waiters <==> Sleeps(q, u, y) {
        assert u in s.sems[y].waiters <==> Sleeps(s, u, y);
      }
    }
    forall u | u in q.threads ensures ThreadOk(q, u) { assert ThreadOk(s, u); }
    assert forall u :: u in q.threads <==> u in s.threads;
  }

  /** sem_up's assertions on the thread it wakes hold. */
  lemma WakeWaiterKeeps(s: Kernel, x: SemId)
    requires SchedInv(s) && x in s.sems
    ensures SchedInv(WakeWaiter(s, x))
    ensures s.sems[x].waiters != [] ==> s.sems[x].waiters[0] in s.threads && WakeWaiter(s, x) == Waking(s, x)
  {
    if s.sems[x].waiters != [] {
      FirstWaiter(s, x);
      WakingInv(s, x);
    }
  }

  lemma UpKeepsSched(s: Kernel, x: SemId)
    requires SchedInv(s) && x in s.sems
    ensures SemUp(s, x).panic <==> s.sems[x].value % BYTE == 255
    ensures !SemUp(s, x).panic ==> SchedInv(SemUp(s, x)) && SemUp(s, x) == Raise(WakeWaiter(s, x), x)
  {
    hide ReadyOk, WaitersOk, ThreadsOk, AllOk;
    WakeWaiterKeeps(s, x);
    var m := WakeWaiter(s, x);
    hide WakeWaiter, Waking;
    RunningEdit(m, SetSem(m, x, m.sems[x].(value := (m.sems[x].value + 1) % BYTE, ups := m.sems[x].ups + 1)));
  }

  // ---- The other steps ----

  lemma YieldKeepsSched(s: Kernel)
    requires SchedInv(s)
    ensures SchedInv(ThreadYield(s)) && SameSleep(s, ThreadYield(s))
  {
    CurrentUnqueued(s);
    var m := SetStatus(s.(ready := s.ready + [s.current]), s.current, READY);
    ReadyGrows(s, m, s.current);
    hide NoDup, WaitersOk, AllOk, ReadyOk, Schedule;
    WaitersTransfer(s, m);
    forall u | u in m.threads ensures ThreadOk(m, u) { assert ThreadOk(s, u); }
    ScheduleKeeps(m);
    SameSleepTrans(s, m, ThreadYield(s));
  }

  /** The tick's bookkeeping before it may call schedule. */
  function Ticked(s: Kernel): Kernel
    requires s.current in s.threads
  {
    var v := s.threads[s.current];
    SetThread(s.(total := (s.total + 1) % WORD), s.current, v.(elapsed := (v.elapsed + 1) % WORD, ticks := v.ticks + 1))
  }

  lemma TickKeepsSched(s: Kernel)
    requires SchedInv(s)
    ensures SchedInv(Tick(s)) && SchedInv(Ticked(s))
    ensures s.threads[s.current].ava == 0 ==> Tick(s) == Schedule(Ticked(s)) && SameSleep(Ticked(s), Tick(s))
  {
    hide ReadyOk, WaitersOk, ThreadsOk, AllOk, Schedule, SameSleep;
    var v := s.threads[s.current];
    RunningEdit(s, Ticked(s));
    if v.ava == 0 {
      ScheduleKeeps(Ticked(s));
    } else {
      RunningEdit(s, Tick(s));
    }
  }

  lemma IdleBlockKeepsSched(s: Kernel)
    requires SchedInv(s) && s.current == s.idle
    ensures SchedInv(ThreadBlock(s)) && SameSleep(s, ThreadBlock(s))
  {
    var m := SetStatus(s, s.current, BLOCKED);
    forall u ensures u in m.ready <==> IsReady(m, u) {
      assert u in s.ready <==> IsReady(s, u);
    }
    hide NoDup, WaitersOk, AllOk, Schedule;
    WaitersTransfer(s, m);
    forall u | u in m.threads ensures ThreadOk(m, u) { assert ThreadOk(s, u); }
    ScheduleKeeps(m);
    SameSleepTrans(s, m, ThreadBlock(s));
  }

  lemma StartKeepsSched(s: Kernel, t: Tid, prio: int)
    requires SchedInv(s) && t !in s.threads
    ensures SchedInv(ThreadStart(s, t, prio))
  {
    assert !IsReady(s, t);
    assert t !in s.ready && t !in s.all;
    var q := ThreadStart(s, t, prio);
    forall u ensures u in q.ready <==> IsReady(q, u) {
      assert u in s.ready <==> IsReady(s, u);
    }
    forall y | y in q.sems ensures QueueOk(q, y) {
      assert QueueOk(s, y);
      forall u ensures Sleeps(q, u, y) == Sleeps(s, u, y) {}
    }
    forall u | u in q.threads ensures ThreadOk(q, u) { if u != t { assert ThreadOk(s, u); } }
    assert NoDup(q.ready) && NoDup(q.all);
  }

  /** Every step keeps the scheduler's invariant and meets every assertion, except that sem_up stops the
      kernel exactly when the semaphore's byte is at 255. */
  lemma StepKeepsSched(s: Kernel, e: Event)
    requires SchedInv(s) && Enabled(s, e)
    ensures Apply(s, e).panic <==> e.Up? && s.sems[e.x].value % BYTE == 255
    ensures !Apply(s, e).panic ==> SchedInv(Apply(s, e))
  {
    hide ReadyOk, WaitersOk, ThreadsOk, AllOk, SameSleep, SemDown, SemUp, ThreadYield, Tick, ThreadBlock, ThreadStart;
    match e
    case Down(x) => DownKeepsSched(s, x);
    case Up(x) => UpKeepsSched(s, x);
    case TimerTick => TickKeepsSched(s);
    case Yield => YieldKeepsSched(s);
    case IdleBlock => IdleBlockKeepsSched(s);
    case Start(t, prio) => StartKeepsSched(s, t, prio);
  }

  /** A thread is in at most one queue of the whole system, and the running thread is in none. */
  lemma OneQueue(s: Kernel, t: Tid)
    requires SchedInv(s)
    ensures t in s.ready ==> forall x :: x in s.sems ==> t !in s.sems[x].waiters
    ensures forall x, y :: x in s.sems && y in s.sems && t in s.sems[x].waiters && t in s.sems[y].waiters ==> x == y
    ensures t == s.current ==> t !in s.ready && forall x :: x in s.sems ==> t !in s.sems[x].waiters
  {
    CurrentUnqueued(s);
    assert t in s.ready <==> IsReady(s, t);
    forall x | x in s.sems ensures t in s.sems[x].waiters <==> Sleeps(s, t, x) {
      assert QueueOk(s, x);
    }
  }

  // ---- The order in which threads run ----

  /** Round robin: a running thread that calls schedule goes behind all ready threads, and the first of
      them runs; with none ready it runs on. */
  lemma RoundRobin(s: Kernel)
    requires SchedInv(s)
    ensures var q := Schedule(s);
            if s.ready == [] then q.current == s.current && q.ready == []
            else q.current == s.ready[0] && q.ready == s.ready[1..] + [s.current]
  {
    CurrentUnqueued(s);
    if s.ready != [] { assert IsReady(s, s.ready[0]); }
    hide ReadyOk, WaitersOk, ThreadsOk, AllOk;
  }

  /** thread_yield rotates the ready list in the same way. */
  lemma YieldOrder(s: Kernel)
    requires SchedInv(s)
    ensures var q := ThreadYield(s);
            if s.ready == [] then q.current == s.current && q.ready == []
            else q.current == s.ready[0] && q.ready == s.ready[1..] + [s.current]
  {
    CurrentUnqueued(s);
    if s.ready != [] { assert IsReady(s, s.ready[0]); }
    hide ReadyOk, WaitersOk, ThreadsOk, AllOk;
  }

  /** Sleepers queue up in order, and a thread that gives up the processor without being ready makes room
      for the first ready one, or for idle. */
  lemma SleepOrder(s: Kernel, x: SemId)
    requires SchedInv(s) && Enabled(s, Down(x)) && s.sems[x].value == 0
    ensures var q := SemDown(s, x);
            && q.sems[x].waiters == s.sems[x].waiters + [s.current]
            && (if s.ready == [] then q.current == s.idle && q.ready == []
                else q.current == s.ready[0] && q.ready == s.ready[1..])
  {
    var m := Asleep(s, x);
    DownKeepsSched(s, x);
    AsleepBase(s, x);
    assert SemDown(s, x).sems == m.sems;
    BlockedSchedule(m);
  }

  lemma BlockedSchedule(m: Kernel)
    requires Base(m) && m.threads[m.current].status == BLOCKED
    ensures var q := Schedule(m);
            if m.ready == [] then q.current == m.idle && q.ready == []
            else q.current == m.ready[0] && q.ready == m.ready[1..]
  {
    if m.ready == [] { IdleIsAsleep(m); } else { assert m.ready[0] in m.ready && IsReady(m, m.ready[0]); }
    hide ReadyOk, WaitersOk, ThreadsOk, AllOk;
  }

  /** Idle, when it blocks, gives way to the first ready thread, and with none ready runs on. */
  lemma IdleBlockOrder(s: Kernel)
    requires SchedInv(s) && s.current == s.idle
    ensures var q := ThreadBlock(s);
            if s.ready == [] then q.current == s.idle && q.ready == []
            else q.current == s.ready[0] && q.ready == s.ready[1..] && q.threads[s.idle].status == BLOCKED
  {
    CurrentUnqueued(s);
    if s.ready != [] { assert IsReady(s, s.ready[0]); }
    hide ReadyOk, WaitersOk, ThreadsOk, AllOk;
  }

  /** sem_up wakes the thread that has slept longest and puts it before all ready threads, so it is the next
      to run. */
  lemma WakeOrder(s: Kernel, x: SemId)
    requires SchedInv(s) && x in s.sems && s.sems[x].waiters != [] && s.sems[x].value < 255
    ensures var t := s.sems[x].waiters[0];
            var q := SemUp(s, x);
            && q.sems[x].waiters == s.sems[x].waiters[1..] && q.ready == [t] + s.ready
            && q.current == s.current && Schedule(q).current == t
  {
    WakeWaiterKeeps(s, x);
    UpKeepsSched(s, x);
    RoundRobin(SemUp(s, x));
    hide ReadyOk, WaitersOk, ThreadsOk, AllOk, Schedule;
  }
}
