/** Who waits for ever on the queue's mutex, and who need not: an interrupt handler's putchar on top of an
    operation of the thread it interrupts. */
module IoQueueJams {
  import opened Wrappers
  import opened Scheduler
  import opened SchedulerProofs
  import opened Semaphores
  import opened KernelRuns
  import opened IoQueues

  // ---- How the operations of a thread are nested ----

  /** The operation of t that runs when t does. */
  function Top(s: Queue, t: Tid): Op { (t, Level(s, t)) }

  predicate Holding(s: Queue, f: Op) { In(At(s, f), Critical) }

  /** Before the mutex. */
  predicate Before(p: Pc) { p.PSlots? || p.PMutex? || p.CItems? || p.CMutex? }

  /** The operations of t are those up to its level, and none that is below another runs: so with a lower one
      in the critical section, all above it are before the mutex. */
  ghost predicate NestOk(s: Queue, t: Tid) {
    && (forall m: nat :: At(s, (t, m)) != Out <==> 1 <= m <= Level(s, t))
    && (forall n: nat, m: nat :: n < m <= Level(s, t) && Holding(s, (t, n)) ==> Before(At(s, (t, m))))
    && (Level(s, t) > 0 ==> t in s.k.threads)
    && (t in s.k.threads ==> WaitOk(s, t))
  }

  /** A thread asleep on one of the three semaphores, or woken from it, is at that sem_down in its operation. */
  predicate WaitOk(s: Queue, t: Tid)
    requires t in s.k.threads
  {
    var w := s.k.threads[t].wait;
    w.Some? && Own(s, w.value) ==> Level(s, t) > 0 && SemEvent(s, At(s, Top(s, t))) == Some(Down(w.value))
  }

  ghost predicate Live(s: Queue) { Inv(s) && forall t :: NestOk(s, t) }

  predicate SameQueue(s: Queue, q: Queue) { q.slots == s.slots && q.items == s.items && q.mutex == s.mutex }

  /** A thread whose operations and whose place in the kernel stay. */
  ghost predicate SameOps(s: Queue, q: Queue, t: Tid) {
    && (forall m: nat :: At(q, (t, m)) == At(s, (t, m))) && Level(q, t) == Level(s, t)
    && (t in s.k.threads ==> t in q.k.threads && q.k.threads[t].wait == s.k.threads[t].wait)
    && (t !in s.k.threads && t in q.k.threads ==> q.k.threads[t].wait == None)
  }

  lemma NestSame(s: Queue, q: Queue, t: Tid)
    requires NestOk(s, t) && SameQueue(s, q) && SameOps(s, q, t)
    ensures NestOk(q, t)
  {
    hide In, Before;
    forall n: nat, m: nat | n < m <= Level(q, t) && Holding(q, (t, n)) ensures Before(At(q, (t, m))) {
      assert Holding(s, (t, n));
    }
  }

  lemma NestCall(s: Queue, q: Queue, p: Pc)
    requires NestOk(s, s.k.current) && s.k.current in s.k.threads && s.k.threads[s.k.current].wait == None
    requires q == Call(s, p) && (p.PSlots? || p.CItems?)
    ensures NestOk(q, s.k.current)
  {
    var t := s.k.current;
    hide In;
    forall m: nat ensures At(q, (t, m)) == if m == Level(s, t) + 1 then p else At(s, (t, m)) {}
    forall n: nat, m: nat | n < m <= Level(q, t) && Holding(q, (t, n)) ensures Before(At(q, (t, m))) {
      assert m <= Level(s, t) ==> Holding(s, (t, n));
    }
  }

  /** The top operation goes on to p. */
  predicate Moves(s: Queue, q: Queue, p: Pc) {
    var t := s.k.current;
    && SameQueue(s, q) && Level(s, t) > 0 && q.pc == s.pc[Cur(s) := p] && q.level == Return(s, p)
    && t in q.k.threads && q.k.threads[t].wait == None
  }

  lemma NestMove(s: Queue, q: Queue, p: Pc)
    requires NestOk(s, s.k.current) && Moves(s, q, p)
    requires Before(p) || forall n: nat :: n < Level(s, s.k.current) ==> !Holding(s, (s.k.current, n))
    ensures NestOk(q, s.k.current)
  {
    var t := s.k.current;
    hide In, Before;
    forall m: nat ensures At(q, (t, m)) == if m == Level(s, t) then p else At(s, (t, m)) {}
    assert Level(q, t) == if p == Out then Level(s, t) - 1 else Level(s, t);
    forall n: nat, m: nat | n < m <= Level(q, t) && Holding(q, (t, n)) ensures Before(At(q, (t, m))) {
      assert Holding(s, (t, n));
    }
  }

  /** Nothing below an operation past the mutex is past it too. */
  lemma NothingBelow(s: Queue)
    requires NestOk(s, s.k.current) && Level(s, s.k.current) > 0 && !Before(At(s, Cur(s)))
    ensures forall n: nat :: n < Level(s, s.k.current) ==> !Holding(s, (s.k.current, n))
  {
    hide In, Before;
  }

  /** Nothing is in the critical section while the mutex is free. */
  lemma NobodyIn(s: Queue, f: Op)
    requires Shaped(s) && Counts(s) && s.k.sems[s.mutex].value > 0
    ensures !Holding(s, f)
  {
    hide In;
    assert !In(Out, Critical) by { NothingOut(); }
    CountAt(s, f, Critical);
  }

  lemma NothingOut()
    ensures !In(Out, Critical)
  {
  }

  // ---- Every step keeps the nesting ----

  lemma OthersSame(s: Queue, a: Act, e: Event, t: Tid)
    requires Inv(s) && CanAct(s, a) && !IoQueues.Apply(s, a).k.panic && t != s.k.current
    requires a == Other(e) || (a == Go && SemEvent(s, At(s, Cur(s))) == Some(e))
    ensures SameOps(s, IoQueues.Apply(s, a), t)
  {
    hide SchedInv, SemInv, Counts, Contents, Scheduler.Apply, Effect;
    StepRaises(s, a, e);
    if a == Go { SemEnabled(s, e); }
    KernelStep(s.k, e);
    EffectWaits(s.k, e, Scheduler.Apply(s.k, e), t);
  }

  lemma EffectWaits(s: Kernel, e: Event, q: Kernel, t: Tid)
    requires Effect(s, e, q)
    ensures t in s.threads ==> t in q.threads && q.threads[t].wait == WaitAfter(s, e, t)
    ensures t !in s.threads && t in q.threads ==> q.threads[t].wait == None
  {
  }

  lemma StepRaises(s: Queue, a: Act, e: Event)
    requires Inv(s) && CanAct(s, a) && !IoQueues.Apply(s, a).k.panic
    requires a == Other(e) || (a == Go && SemEvent(s, At(s, Cur(s))) == Some(e))
    ensures Enabled(s.k, e) && (e.Up? ==> s.k.sems[e.x].value < 255)
  {
    if a == Go {
      SemEnabled(s, e);
      UpFits(s, e);
    } else {
      StepKeeps(s, a);
      assert e.Up? ==> s.k.sems[e.x].value < BYTE;
    }
  }

  lemma CallNest(s: Queue, a: Act)
    requires Live(s) && CanAct(s, a) && (a.Put? || a.Get?)
    ensures forall t :: NestOk(IoQueues.Apply(s, a), t)
  {
    hide Inv;
    var q := IoQueues.Apply(s, a);
    forall t ensures NestOk(q, t) {
      assert NestOk(s, t);
      hide NestOk;
      if t == s.k.current { NestCall(s, q, if a.Put? then PSlots(a.c) else CItems); } else { NestSame(s, q, t); }
    }
  }

  lemma OtherNest(s: Queue, e: Event)
    requires Live(s) && CanAct(s, Other(e)) && !IoQueues.Apply(s, Other(e)).k.panic
    ensures forall t :: NestOk(IoQueues.Apply(s, Other(e)), t)
  {
    hide SchedInv, SemInv, Counts, Contents, Scheduler.Apply, Effect;
    var q := IoQueues.Apply(s, Other(e));
    forall t ensures NestOk(q, t) {
      assert NestOk(s, t);
      if t == s.k.current {
        StepRaises(s, Other(e), e);
        KernelStep(s.k, e);
        EffectWaits(s.k, e, q.k, t);
        NestOther(s, q, e);
      } else {
        OthersSame(s, Other(e), e, t);
        NestSame(s, q, t);
      }
    }
  }

  lemma NestOther(s: Queue, q: Queue, e: Event)
    requires NestOk(s, s.k.current) && q == s.(k := q.k) && ((e.Down? || e.Up?) ==> !Own(s, e.x))
    requires s.k.current in s.k.threads && s.k.current in q.k.threads
    requires q.k.threads[s.k.current].wait == WaitAfter(s.k, e, s.k.current)
    ensures NestOk(q, s.k.current)
  {
    var t := s.k.current;
    hide In, Before;
    forall n: nat, m: nat | n < m <= Level(q, t) && Holding(q, (t, n)) ensures Before(At(q, (t, m))) {
      assert Holding(s, (t, n));
    }
    forall m: nat ensures At(q, (t, m)) == At(s, (t, m)) {}
  }

  lemma BufferNest(s: Queue)
    requires Live(s) && CanAct(s, Go) && SemEvent(s, At(s, Cur(s))).None?
    ensures forall t :: NestOk(IoQueues.Apply(s, Go), t)
  {
    hide Inv;
    var q := IoQueues.Apply(s, Go);
    forall t ensures NestOk(q, t) {
      assert NestOk(s, t);
      if t == s.k.current {
        NothingBelow(s);
        StatementMoves(s);
        NestMove(s, q, At(q, Cur(s)));
      } else {
        NestSame(s, q, t);
      }
    }
  }

  lemma StatementMoves(s: Queue)
    requires NestOk(s, s.k.current) && CanAct(s, Go) && SemEvent(s, At(s, Cur(s))).None?
    ensures Moves(s, IoQueues.Apply(s, Go), At(IoQueues.Apply(s, Go), Cur(s)))
    ensures !Before(At(s, Cur(s)))
  {
  }

  lemma SemNest(s: Queue, e: Event)
    requires Live(s) && CanAct(s, Go) && SemEvent(s, At(s, Cur(s))) == Some(e)
    ensures forall t :: NestOk(IoQueues.Apply(s, Go), t)
  {
    SemEnabled(s, e);
    SemStep(s, e);
    StepRaises(s, Go, e);
    hide SchedInv, SemInv, Counts, Contents, Scheduler.Apply, Effect;
    KernelStep(s.k, e);
    var q := IoQueues.Apply(s, Go);
    forall t ensures NestOk(q, t) {
      assert NestOk(s, t);
      if t == s.k.current {
        EffectWaits(s.k, e, q.k, t);
        SemNestCurrent(s, q, e);
      } else {
        OthersSame(s, Go, e, t);
        NestSame(s, q, t);
      }
    }
  }

  lemma SemNestCurrent(s: Queue, q: Queue, e: Event)
    requires Inv(s) && NestOk(s, s.k.current) && SemEvent(s, At(s, Cur(s))) == Some(e)
    requires Enabled(s.k, e) && q == SemStatement(s, e) && s.k.current in q.k.threads
    requires q.k.threads[s.k.current].wait == WaitAfter(s.k, e, s.k.current)
    ensures NestOk(q, s.k.current)
  {
    hide SchedInv, SemInv, Counts, Contents, Scheduler.Apply;
    var t := s.k.current;
    if e.Down? && s.k.sems[e.x].value == 0 {
      forall n: nat, m: nat | n < m <= Level(q, t) && Holding(q, (t, n)) ensures Before(At(q, (t, m))) {
        assert Holding(s, (t, n));
      }
      forall m: nat ensures At(q, (t, m)) == At(s, (t, m)) {}
    } else {
      var p := Next(s, At(s, Cur(s)));
      if Before(At(s, Cur(s))) {
        if !Before(p) {
          forall n: nat | n < Level(s, t) ensures !Holding(s, (t, n)) { NobodyIn(s, (t, n)); }
        }
      } else {
        NothingBelow(s);
      }
      NestMove(s, q, p);
    }
  }

  /** Every step keeps the operations nested. */
  lemma LiveStep(s: Queue, a: Act)
    requires Live(s) && CanAct(s, a) && !IoQueues.Apply(s, a).k.panic
    ensures Live(IoQueues.Apply(s, a)) && SameQueue(s, IoQueues.Apply(s, a))
  {
    hide NestOk, Counts, Contents, SchedInv, SemInv, Scheduler.Apply, Enabled;
    StepKeeps(s, a);
    match a
    case Put(c) => CallNest(s, a);
    case Get => CallNest(s, a);
    case Other(e) => OtherNest(s, e);
    case Go =>
      if SemEvent(s, At(s, Cur(s))).None? { BufferNest(s); } else { SemNest(s, SemEvent(s, At(s, Cur(s))).value); }
  }

  lemma FreshLive(s: Queue)
    requires Fresh(s)
    ensures Live(s) && Calm(s)
  {
    InitInv(s);
    hide Counts, Contents, SchedInv, SemInv, In;
    forall t ensures NestOk(s, t) { NothingOut(); }
  }

  // ---- Operations that block on nothing else ----

  /** A thread in the middle of an operation neither sleeps on a foreign semaphore nor, when it is idle, has
      blocked itself. */
  ghost predicate Calm(s: Queue) {
    forall t :: t in s.k.threads && Level(s, t) > 0 ==> CalmIn(s, t)
  }

  predicate CalmIn(s: Queue, t: Tid)
    requires t in s.k.threads
  {
    var v := s.k.threads[t];
    (v.wait.Some? ==> Own(s, v.wait.value)) && !(t == s.k.idle && v.status == BLOCKED)
  }

  /** What runs on top of an operation of the queue: ticks, sem_ups and operations of the queue. */
  predicate Plain(s: Queue, a: Act) {
    a.Other? && (a.e.Down? || a.e.IdleBlock?) ==> Level(s, s.k.current) == 0
  }

  lemma ScheduleIdle(m: Kernel)
    requires m.current in m.threads && m.idle in m.threads && m.threads[m.idle].status != BLOCKED
    ensures var q := Schedule(m); m.idle in q.threads && q.threads[m.idle].status != BLOCKED && q.idle == m.idle
  {
  }

  /** Only idle blocks idle. */
  lemma IdleAwake(s: Kernel, e: Event)
    requires SchedInv(s) && Enabled(s, e) && !e.IdleBlock? && s.threads[s.idle].status != BLOCKED
    ensures var q := Scheduler.Apply(s, e); s.idle in q.threads && q.threads[s.idle].status != BLOCKED
  {
    hide ReadyOk, WaitersOk, ThreadsOk, AllOk, Schedule;
    match e
    case Down(x) => if s.sems[x].value == 0 { DownKeepsSched(s, x); ScheduleIdle(Asleep(s, x)); }
    case Up(x) => WakeWaiterKeeps(s, x);
    case TimerTick => TickKeepsSched(s); if s.threads[s.current].ava == 0 { ScheduleIdle(Ticked(s)); }
    case Yield => ScheduleIdle(SetStatus(s.(ready := s.ready + [s.current]), s.current, READY)); YieldKeepsSched(s);
    case Start(t, prio) =>
  }

  lemma CalmStep(s: Queue, a: Act)
    requires Live(s) && Calm(s) && CanAct(s, a) && Plain(s, a) && !IoQueues.Apply(s, a).k.panic
    ensures Calm(IoQueues.Apply(s, a))
  {
    hide Counts, Contents, SemInv, Scheduler.Apply, Effect, In;
    var q := IoQueues.Apply(s, a);
    forall t | t in q.k.threads && Level(q, t) > 0 ensures CalmIn(q, t) {
      assert NestOk(s, t) && NestOk(s, s.k.current);
      hide NestOk;
      match a
      case Put(c) =>
      case Get =>
      case Other(e) => CalmEvent(s, a, e, t);
      case Go => if SemEvent(s, At(s, Cur(s))).Some? { CalmEvent(s, a, SemEvent(s, At(s, Cur(s))).value, t); }
    }
  }

  lemma CalmEvent(s: Queue, a: Act, e: Event, t: Tid)
    requires Inv(s) && Calm(s) && NestOk(s, t) && CanAct(s, a) && Plain(s, a) && !IoQueues.Apply(s, a).k.panic
    requires a == Other(e) || (a == Go && SemEvent(s, At(s, Cur(s))) == Some(e))
    requires NestOk(s, s.k.current)
    requires t in IoQueues.Apply(s, a).k.threads && Level(IoQueues.Apply(s, a), t) > 0
    ensures CalmIn(IoQueues.Apply(s, a), t)
  {
    StepRaises(s, a, e);
    KernelStep(s.k, e);
    if a == Go { SemEnabled(s, e); }
    assert s.k.threads[s.k.current].status == RUNNING;
    hide SchedInv, SemInv, Counts, Contents, Scheduler.Apply, Effect, In, Before;
    var k := Scheduler.Apply(s.k, e);
    EffectWaits(s.k, e, k, t);
    EffectIdle(s.k, e, k);
    if t != s.k.current { OthersSame(s, a, e, t); } else { assert Level(s, t) > 0; }
    assert CalmIn(s, t);
    if t == s.k.idle { IdleAwake(s.k, e); }
  }

  lemma EffectIdle(s: Kernel, e: Event, q: Kernel)
    requires Effect(s, e, q)
    ensures q.idle == s.idle
  {
  }

  // ---- Jams ----

  /** f is in the critical section, below another operation of its thread. */
  predicate JamsAt(s: Queue, f: Op) { Holding(s, f) && f.1 < Level(s, f.0) }

  ghost predicate Jammed(s: Queue) { exists f :: JamsAt(s, f) }

  lemma OneHolder(s: Queue, f: Op, g: Op)
    requires Shaped(s) && Counts(s) && Holding(s, f) && Holding(s, g)
    ensures f == g
  {
    NothingOut();
    hide In;
    assert f in Ops(s.pc, Critical) && g in Ops(s.pc, Critical);
    CountOne(s.pc, f, g, Critical);
  }

  /** putchar on top of an operation in the critical section of the same queue makes a jam, and its thread is
      asleep in it. */
  lemma InterruptSticks(s: Queue, n: nat)
    requires Live(s) && CanAct(s, Go) && SemEvent(s, At(s, Cur(s))) == Some(Down(s.mutex))
    requires n < Level(s, s.k.current) && Holding(s, (s.k.current, n))
    ensures var q := IoQueues.Apply(s, Go); JamsAt(q, (s.k.current, n)) && Sleeps(q.k, s.k.current, s.mutex)
  {
    var t := s.k.current;
    hide SchedInv, SemInv, Contents, In, NestOk;
    NothingOut();
    CountAt(s, (t, n), Critical);
    SemEnabled(s, Down(s.mutex));
    hide Counts, CanAct;
    DownKeepsSched(s.k, s.mutex);
    AsleepSleeps(s.k, s.mutex);
    SameSleepSleeps(Asleep(s.k, s.mutex), SemDown(s.k, s.mutex), t, s.mutex);
  }

  lemma AsleepSleeps(k: Kernel, x: SemId)
    requires x in k.sems && k.current in k.threads && k.current != k.idle
    ensures Sleeps(Asleep(k, x), k.current, x)
  {
  }

  lemma JamsStepSem(s: Queue, e: Event, f: Op)
    requires Live(s) && CanAct(s, Go) && SemEvent(s, At(s, Cur(s))) == Some(e) && JamsAt(s, f)
    ensures JamsAt(IoQueues.Apply(s, Go), f) && e != Up(s.mutex)
  {
    SemEnabled(s, e);
    assert NestOk(s, f.0) && NestOk(s, s.k.current);
    hide SchedInv, SemInv, Contents, Scheduler.Apply, Enabled, NestOk, CanAct, IoQueues.Apply;
    NothingOut();
    CountAt(s, f, Critical);
    assert s.k.sems[s.mutex].value == 0 by { hide In; }
    hide Counts;
    JamTop(s, f);
  }

  lemma JamTop(s: Queue, f: Op)
    requires Inv(s) && NestOk(s, s.k.current) && JamsAt(s, f)
    ensures f.0 == s.k.current ==> Before(At(s, Cur(s)))
    ensures !Holding(s, Cur(s))
  {
    hide SchedInv, SemInv, Contents, In, Before;
    if Holding(s, Cur(s)) { OneHolder(s, f, Cur(s)); }
  }

  lemma JamsStepOther(s: Queue, a: Act, f: Op)
    requires Live(s) && CanAct(s, a) && JamsAt(s, f) && (a.Go? ==> SemEvent(s, At(s, Cur(s))).None?)
    ensures JamsAt(IoQueues.Apply(s, a), f)
  {
    NothingOut();
    assert NestOk(s, s.k.current);
    JamTop(s, f);
    hide NestOk, Inv, Scheduler.Apply, Enabled, In;
  }

  /** A jam stays whatever happens, and with it every thread asleep on the mutex. */
  lemma JamStays(s: Queue, a: Act, f: Op)
    requires Live(s) && CanAct(s, a) && !IoQueues.Apply(s, a).k.panic && JamsAt(s, f)
    ensures JamsAt(IoQueues.Apply(s, a), f)
    ensures forall t :: Sleeps(s.k, t, s.mutex) ==> Sleeps(IoQueues.Apply(s, a).k, t, s.mutex)
  {
    hide NestOk, SchedInv, SemInv, Counts, Contents, Scheduler.Apply, Enabled, Sleeps, JamsAt;
    if a.Go? && SemEvent(s, At(s, Cur(s))).Some? {
      var e := SemEvent(s, At(s, Cur(s))).value;
      JamsStepSem(s, e, f);
      SemEnabled(s, e);
      SleepersStay(s, e);
    } else {
      JamsStepOther(s, a, f);
      if a.Other? { SleepersStay(s, a.e); }
    }
  }

  lemma SleepersStay(s: Queue, e: Event)
    requires Inv(s) && Enabled(s.k, e) && e != Up(s.mutex)
    ensures forall t :: Sleeps(s.k, t, s.mutex) ==> Sleeps(Scheduler.Apply(s.k, e), t, s.mutex)
  {
    forall t | Sleeps(s.k, t, s.mutex) ensures Sleeps(Scheduler.Apply(s.k, e), t, s.mutex) {
      StaysAsleep(s.k, e, t, s.mutex);
    }
  }

  /** In every run from a jam, a thread asleep on the mutex stays asleep. */
  lemma {:induction false} StuckForever(s: Queue, acts: seq<Act>, q: Queue, f: Op, t: Tid)
    requires Live(s) && IoQueues.Reaches(s, acts, q) && !q.k.panic && JamsAt(s, f) && Sleeps(s.k, t, s.mutex)
    ensures JamsAt(q, f) && Sleeps(q.k, t, s.mutex) && q.k.current != t
    decreases |acts|
  {
    if acts == [] {
      hide JamsAt;
    } else {
      var m := IoQueues.Apply(s, acts[0]);
      hide Live, CanAct, IoQueues.Apply, JamsAt, Sleeps;
      if m.k.panic { Halted(m, acts[1..], q); }
      LiveStep(s, acts[0]);
      JamStays(s, acts[0], f);
      StuckForever(m, acts[1..], q, f, t);
    }
  }

  // ---- Without a jam, some run lets the sleeper in ----

  /** Some run takes the operation of t into the critical section. */
  ghost predicate CanEnter(s: Queue, t: Tid) {
    exists acts, q :: IoQueues.Reaches(s, acts, q) && !q.k.panic && Holding(q, Top(q, t))
  }

  lemma EnterLater(s: Queue, a: Act, t: Tid)
    requires CanAct(s, a) && CanEnter(IoQueues.Apply(s, a), t)
    ensures CanEnter(s, t)
  {
    hide CanAct, IoQueues.Apply, Holding;
    var acts, q :| IoQueues.Reaches(IoQueues.Apply(s, a), acts, q) && !q.k.panic && Holding(q, Top(q, t));
    assert ([a] + acts)[1..] == acts;
    assert IoQueues.Reaches(s, [a] + acts, q);
  }

  function Sleepers(s: Queue): seq<Tid>
    requires s.mutex in s.k.sems
  {
    s.k.sems[s.mutex].waiters
  }

  /** u has the mutex, or the mutex is free and u woken to take it; t is u or the r-th to sleep on it.  When
      it is t that is woken, it is the next to run: nobody else takes the mutex first. */
  ghost predicate Turn(s: Queue, u: Tid, t: Tid, r: nat) {
    && Shaped(s) && s.k.current in s.k.threads && u in s.k.threads
    && (if r == 0 then u == t else r <= |Sleepers(s)| && Sleepers(s)[r - 1] == t)
    && (Holding(s, Top(s, u)) || Due(s, u, r))
  }

  predicate Due(s: Queue, u: Tid, r: nat)
    requires Shaped(s) && u in s.k.threads && s.k.current in s.k.threads
  {
    && s.k.sems[s.mutex].value == 1 && s.k.threads[u].wait == Some(s.mutex) && (u == s.k.current || u in s.k.ready)
    && (r == 0 && u != s.k.current ==> s.k.ready[..1] == [u] && s.k.threads[s.k.current].wait == None)
  }

  /** How far u is from having gone through the critical section, and from running. */
  function Phase(s: Queue, u: Tid): (n: nat)
    ensures 1 <= n <= 4
  {
    match At(s, Top(s, u))
    case PWrite(_) => 3
    case CRead => 3
    case PRear => 2
    case CFront(_) => 2
    case PUpMutex => 1
    case CUpMutex(_) => 1
    case _ => 4
  }

  function Place(q: seq<Tid>, u: Tid): nat { if q == [] then 0 else if q[0] == u then 1 else 1 + Place(q[1..], u) }

  function Pos(k: Kernel, u: Tid): nat { if k.current == u then 0 else Place(k.ready, u) }

  function Flag(k: Kernel): nat
    requires k.current in k.threads
  {
    if k.threads[k.current].wait.Some? then 1 else 0
  }

  /** The step from s to m brings the critical section, the processor, the end of a sem_down or the end of a
      time slice closer. */
  predicate Less(m: Queue, v: Tid, s: Queue, u: Tid)
    requires m.k.current in m.k.threads && s.k.current in s.k.threads
  {
    var i, j := m.k.threads[m.k.current].ava, s.k.threads[s.k.current].ava;
    Phase(m, v) < Phase(s, u) || (Phase(m, v) == Phase(s, u)
    && (Pos(m.k, v) < Pos(s.k, u) || (Pos(m.k, v) == Pos(s.k, u)
    && (Flag(m.k) < Flag(s.k) || (Flag(m.k) == Flag(s.k) && i < j)))))
  }

  lemma {:induction false} PlaceBefore(q: seq<Tid>, u: Tid, c: Tid)
    requires u in q
    ensures Place(q + [c], u) == Place(q, u)
  {
    if q[0] != u {
      assert (q + [c])[1..] == q[1..] + [c];
      PlaceBefore(q[1..], u, c);
    }
  }

  /** The first ready thread runs next: u is it or one place closer. */
  lemma Closer(k: Kernel, m: Kernel, u: Tid)
    requires u in k.ready && u != k.current && k.ready != [] && m.current == k.ready[0]
    requires m.ready == k.ready[1..] || m.ready == k.ready[1..] + [k.current]
    ensures Pos(m, u) < Pos(k, u) && (u == m.current || u in m.ready)
  {
    if u != k.ready[0] {
      assert u in k.ready[1..];
      PlaceBefore(k.ready[1..], u, k.current);
    }
  }

  /** A thread in the critical section is awake. */
  lemma HolderAwake(s: Queue, u: Tid)
    requires Live(s) && Calm(s) && u in s.k.threads && Holding(s, Top(s, u))
    ensures s.k.threads[u].wait == None && (u == s.k.current || u in s.k.ready) && Level(s, u) > 0
    ensures s.k.sems[s.mutex].value == 0
  {
    assert NestOk(s, u);
    NothingOut();
    hide NestOk;
    CountAt(s, Top(s, u), Critical);
    assert CalmIn(s, u) && ThreadOk(s.k, u) && (u in s.k.ready <==> IsReady(s.k, u));
  }

  /** A tick either shortens the slice of the current thread or lets the first ready thread run. */
  predicate TickMoves(k: Kernel, q: Kernel)
    requires k.current in k.threads && q.current in q.threads
  {
    if k.threads[k.current].ava > 0
    then
      && q.current == k.current && q.ready == k.ready
      && q.threads[q.current].ava + 1 == k.threads[k.current].ava
    else k.ready != [] ==> q.current == k.ready[0] && q.ready == k.ready[1..] + [k.current]
  }

  lemma TickOrder(k: Kernel)
    requires SchedInv(k)
    ensures var q := Tick(k); q.sems == k.sems && q.current in q.threads && TickMoves(k, q)
  {
    TickKeepsSched(k);
    hide ReadyOk, WaitersOk, ThreadsOk, AllOk, Schedule;
    if k.threads[k.current].ava == 0 { RoundRobin(Ticked(k)); }
  }

  lemma TickFacts(s: Queue)
    requires Live(s) && Calm(s) && s.k.threads[s.k.current].wait == None
    ensures CanAct(s, Other(TimerTick))
    ensures var m := IoQueues.Apply(s, Other(TimerTick));
            && Live(m) && Calm(m) && Shaped(m) && m == s.(k := m.k) && m.k.sems == s.k.sems
            && m.k.current in m.k.threads && TickMoves(s.k, m.k) && m.k.threads.Keys == s.k.threads.Keys
            && forall u :: u in s.k.threads ==> m.k.threads[u].wait == s.k.threads[u].wait
  {
    hide SemInv, Counts, Contents, In, NestOk, Tick, Calm;
    StepKeeps(s, Other(TimerTick));
    LiveStep(s, Other(TimerTick));
    CalmStep(s, Other(TimerTick));
    TickOrder(s.k);
    KernelStep(s.k, TimerTick);
  }

  /** m is s after a step of another thread that did not take the mutex; u is still in turn. */
  lemma StillDue(s: Queue, m: Queue, u: Tid, t: Tid, r: nat)
    requires Turn(s, u, t, r) && u != s.k.current && Shaped(m) && SameQueue(s, m) && u in m.k.threads
    requires At(m, Top(m, u)) == At(s, Top(s, u)) && m.k.threads[u].wait == s.k.threads[u].wait
    requires m.k.sems[m.mutex].value == s.k.sems[s.mutex].value && Sleepers(s) <= Sleepers(m)
    requires m.k.current in m.k.threads && (u == m.k.current || u in m.k.ready)
    requires r == 0 && u != m.k.current && !Holding(s, Top(s, u)) ==>
               m.k.ready[..1] == s.k.ready[..1] && m.k.threads[m.k.current].wait == s.k.threads[s.k.current].wait
    ensures Turn(m, u, t, r) && Phase(m, u) == Phase(s, u)
  {
    hide In, At;
    if r > 0 { assert Sleepers(m)[r - 1] == Sleepers(s)[r - 1]; }
  }

  lemma InTurn(s: Queue, u: Tid, t: Tid, r: nat)
    requires Live(s) && Calm(s) && Turn(s, u, t, r)
    ensures u == s.k.current || u in s.k.ready
  {
    hide NestOk, Inv, Calm;
    if Holding(s, Top(s, u)) { HolderAwake(s, u); }
  }

  /** While somebody else runs, the clock ticks. */
  lemma TickTurn(s: Queue, u: Tid, t: Tid, r: nat)
    requires Live(s) && Calm(s) && Turn(s, u, t, r) && u != s.k.current && s.k.threads[s.k.current].wait == None
    ensures CanAct(s, Other(TimerTick))
    ensures var m := IoQueues.Apply(s, Other(TimerTick));
            Live(m) && Calm(m) && Turn(m, u, t, r) && Less(m, u, s, u)
  {
    hide Live, Calm, Scheduler.Apply, Enabled, Holding, Place, Phase;
    TickFacts(s);
    InTurn(s, u, t, r);
    var m := IoQueues.Apply(s, Other(TimerTick));
    if s.k.threads[s.k.current].ava == 0 {
      Closer(s.k, m.k, u);
      if r == 0 && !Holding(s, Top(s, u)) { DueNext(s, m, u, r); }
    }
    StillDue(s, m, u, t, r);
  }

  lemma DueNext(s: Queue, m: Queue, u: Tid, r: nat)
    requires Shaped(s) && u in s.k.threads && s.k.current in s.k.threads && Due(s, u, r) && r == 0
    requires u != s.k.current && s.k.ready != [] && m.k.current == s.k.ready[0]
    ensures u == m.k.current
  {
  }

  /** sem_down on a positive semaphore changes its value only; on zero, the next thread runs. */
  predicate DownMoves(k: Kernel, x: SemId, q: Kernel)
    requires x in k.sems
  {
    && q.sems.Keys == k.sems.Keys
    && (forall y :: y in k.sems && y != x ==> q.sems[y] == k.sems[y])
    && (if k.sems[x].value > 0
        then
          && q.current == k.current && q.ready == k.ready && q.sems[x].waiters == k.sems[x].waiters
          && q.sems[x].value == k.sems[x].value - 1
        else
          && (k.ready != [] ==> q.current == k.ready[0] && q.ready == k.ready[1..])
          && q.sems[x].waiters == k.sems[x].waiters + [k.current] && q.sems[x].value == 0)
  }

  lemma DownOrder(k: Kernel, x: SemId)
    requires SchedInv(k) && Enabled(k, Down(x))
    ensures DownMoves(k, x, SemDown(k, x))
  {
    if k.sems[x].value == 0 {
      SleepOrder(k, x);
      DownKeepsSched(k, x);
      hide SchedInv, SemDown;
      SameSleepSems(Asleep(k, x), SemDown(k, x));
    }
  }

  /** The current thread, back in a sem_down, tests again. */
  function Retest(s: Queue): Act
    requires s.k.current in s.k.threads && s.k.threads[s.k.current].wait.Some?
  {
    var x := s.k.threads[s.k.current].wait.value;
    if Own(s, x) then Go else Other(Down(x))
  }

  lemma RetestEnabled(s: Queue, x: SemId)
    requires Live(s) && Calm(s) && s.k.threads[s.k.current].wait == Some(x)
    ensures CanAct(s, Retest(s)) && Plain(s, Retest(s)) && Enabled(s.k, Down(x)) && x in s.k.sems
    ensures Own(s, x) ==> SemEvent(s, At(s, Cur(s))) == Some(Down(x))
  {
    assert NestOk(s, s.k.current) && ThreadOk(s.k, s.k.current);
    hide NestOk;
    if Level(s, s.k.current) > 0 { assert CalmIn(s, s.k.current); }
  }

  lemma RetestKernel(s: Queue, x: SemId)
    requires Live(s) && Calm(s) && s.k.threads[s.k.current].wait == Some(x)
    ensures CanAct(s, Retest(s)) && x in s.k.sems && IoQueues.Apply(s, Retest(s)).k == SemDown(s.k, x)
    ensures !SemDown(s.k, x).panic && Effect(s.k, Down(x), SemDown(s.k, x))
  {
    hide Live, Calm, SemDown, Effect, CanAct, Own;
    RetestEnabled(s, x);
    if Own(s, x) { SemEnabled(s, Down(x)); }
    DownFacts(s, x);
  }

  lemma DownFacts(s: Queue, x: SemId)
    requires Live(s) && Enabled(s.k, Down(x))
    ensures !SemDown(s.k, x).panic && Effect(s.k, Down(x), SemDown(s.k, x))
  {
    hide NestOk, Counts, Contents, SchedInv, SemInv, SemDown, Effect, Enabled;
    KernelStep(s.k, Down(x));
  }

  lemma RetestOthers(s: Queue, x: SemId)
    requires Live(s) && Calm(s) && s.k.threads[s.k.current].wait == Some(x)
    requires CanAct(s, Retest(s)) && !IoQueues.Apply(s, Retest(s)).k.panic
    ensures forall u :: u in s.k.threads && u != s.k.current ==> SameOps(s, IoQueues.Apply(s, Retest(s)), u)
  {
    RetestEnabled(s, x);
    hide NestOk, Inv, Calm, Enabled, IoQueues.Apply, CanAct, SameOps;
    forall u | u in s.k.threads && u != s.k.current ensures SameOps(s, IoQueues.Apply(s, Retest(s)), u) {
      OthersSame(s, Retest(s), Down(x), u);
    }
  }

  lemma RetestFacts(s: Queue, x: SemId)
    requires Live(s) && Calm(s) && s.k.threads[s.k.current].wait == Some(x)
    ensures CanAct(s, Retest(s)) && x in s.k.sems
    ensures var m := IoQueues.Apply(s, Retest(s));
            && Live(m) && Calm(m) && SameQueue(s, m) && m.k == SemDown(s.k, x) && DownMoves(s.k, x, m.k)
            && m.k.threads.Keys == s.k.threads.Keys && m.k.current in m.k.threads
            && (forall u :: u in s.k.threads && u != s.k.current ==>
                  m.k.threads[u].wait == s.k.threads[u].wait && At(m, Top(m, u)) == At(s, Top(s, u)))
            && m.k.threads[s.k.current].wait == (if s.k.sems[x].value > 0 then None else Some(x))
  {
    RetestEnabled(s, x);
    RetestKernel(s, x);
    RetestOthers(s, x);
    hide SemInv, Counts, Contents, NestOk, Calm, SemDown, CanAct, IoQueues.Apply, Enabled;
    LiveStep(s, Retest(s));
    CalmStep(s, Retest(s));
    DownOrder(s.k, x);
  }

  /** Whom to follow after the retest: the thread that took the mutex, if it did. */
  function Followed(s: Queue, x: SemId, u: Tid): Tid
    requires x in s.k.sems
  {
    if x == s.mutex && s.k.sems[x].value > 0 then s.k.current else u
  }

  /** A thread waiting for the mutex is before it. */
  lemma WaiterPhase(s: Queue, u: Tid)
    requires Live(s) && u in s.k.threads && s.k.threads[u].wait == Some(s.mutex)
    ensures Phase(s, u) == 4
  {
    assert NestOk(s, u);
    hide Inv;
  }

  /** Passing the mutex is entering the critical section. */
  lemma MutexTaken(s: Queue)
    requires Live(s) && Calm(s) && s.k.threads[s.k.current].wait == Some(s.mutex) && CanAct(s, Retest(s))
    requires s.mutex in s.k.sems && s.k.sems[s.mutex].value > 0
    ensures var m := IoQueues.Apply(s, Retest(s)); Holding(m, Top(m, s.k.current)) && Phase(m, s.k.current) == 3
  {
    RetestEnabled(s, s.mutex);
    assert NestOk(s, s.k.current);
    hide NestOk, SchedInv, SemInv, Counts, Contents, Scheduler.Apply, Calm, Enabled;
    SemEnabled(s, Down(s.mutex));
    hide CanAct;
  }

  lemma RetestTurn(s: Queue, u: Tid, t: Tid, r: nat, x: SemId)
    requires Live(s) && Calm(s) && Turn(s, u, t, r) && s.k.threads[s.k.current].wait == Some(x)
    requires u == s.k.current ==> x == s.mutex && s.k.sems[x].value > 0
    ensures CanAct(s, Retest(s)) && x in s.k.sems
    ensures var m := IoQueues.Apply(s, Retest(s));
            var v := Followed(s, x, u);
            Live(m) && Calm(m) && Turn(m, v, t, r) && Less(m, v, s, u)
  {
    RetestFacts(s, x);
    InTurn(s, u, t, r);
    if Holding(s, Top(s, u)) { HolderAwake(s, u); }
    if x == s.mutex && s.k.sems[x].value > 0 {
      MutexTaken(s);
      WaiterPhase(s, u);
    }
    hide Live, Calm, Scheduler.Apply, CanAct, IoQueues.Apply, Holding, Place, Phase, SemDown;
    var m := IoQueues.Apply(s, Retest(s));
    if x == s.mutex && s.k.sems[x].value > 0 {
    } else {
      if s.k.sems[x].value == 0 { Closer(s.k, m.k, u); }
      StillDue(s, m, u, t, r);
    }
  }

  /** A holder that runs goes one statement on. */
  lemma HolderTurn(s: Queue, u: Tid, t: Tid, r: nat)
    requires Live(s) && Calm(s) && Turn(s, u, t, r) && u == s.k.current && Holding(s, Top(s, u)) && Phase(s, u) > 1
    ensures CanAct(s, Go)
    ensures var m := IoQueues.Apply(s, Go); Live(m) && Calm(m) && Turn(m, u, t, r) && Less(m, u, s, u)
  {
    HolderAwake(s, u);
    HolderGoes(s);
    var m := IoQueues.Apply(s, Go);
    hide NestOk, Inv, Calm;
    LiveStep(s, Go);
    CalmStep(s, Go);
  }

  lemma HolderGoes(s: Queue)
    requires Live(s) && s.k.threads[s.k.current].wait == None
    requires Holding(s, Cur(s)) && Phase(s, s.k.current) > 1
    ensures CanAct(s, Go) && Plain(s, Go)
    ensures var m := IoQueues.Apply(s, Go);
            && m.k == s.k && SameQueue(s, m) && Shaped(m) && Holding(m, Cur(m))
            && Level(m, s.k.current) == Level(s, s.k.current) && Phase(m, s.k.current) < Phase(s, s.k.current)
  {
    hide NestOk, Counts, Contents, SemInv, ReadyOk, WaitersOk, ThreadsOk, AllOk;
  }

  /** The sem_up at the end of the critical section: the first sleeper is woken, and runs next. */
  lemma ReleaseTurn(s: Queue, u: Tid, t: Tid, r: nat)
    requires Live(s) && Calm(s) && Turn(s, u, t, r) && u == s.k.current && Holding(s, Top(s, u)) && Phase(s, u) == 1
    requires r > 0
    ensures CanAct(s, Go) && |Sleepers(s)| > 0
    ensures var m := IoQueues.Apply(s, Go); Live(m) && Calm(m) && Turn(m, Sleepers(s)[0], t, r - 1)
  {
    HolderAwake(s, u);
    ReleaseEnabled(s);
    ReleaseKernel(s);
    hide NestOk, Inv, Calm, Enabled, SemUp, CanAct, IoQueues.Apply, Holding;
    LiveStep(s, Go);
    CalmStep(s, Go);
  }

  lemma ReleaseEnabled(s: Queue)
    requires Live(s) && s.k.threads[s.k.current].wait == None && Holding(s, Cur(s)) && Phase(s, s.k.current) == 1
    ensures CanAct(s, Go) && Plain(s, Go) && SemEvent(s, At(s, Cur(s))) == Some(Up(s.mutex))
  {
  }

  lemma ReleaseKernel(s: Queue)
    requires Live(s) && CanAct(s, Go) && SemEvent(s, At(s, Cur(s))) == Some(Up(s.mutex))
    requires s.mutex in s.k.sems && s.k.sems[s.mutex].value == 0 && Sleepers(s) != []
    ensures var m := IoQueues.Apply(s, Go);
            && !m.k.panic && SameQueue(s, m) && Shaped(m) && m.k.current == s.k.current && m.k.current in m.k.threads
            && m.k.ready == [Sleepers(s)[0]] + s.k.ready && Sleepers(m) == Sleepers(s)[1..]
            && m.k.sems[m.mutex].value == 1 && Sleepers(s)[0] in m.k.threads
            && m.k.threads[Sleepers(s)[0]].wait == Some(s.mutex)
            && m.k.threads[m.k.current].wait == s.k.threads[s.k.current].wait
  {
    var w := Sleepers(s)[0];
    SemEnabled(s, Up(s.mutex));
    FirstWaiter(s.k, s.mutex);
    hide NestOk, Counts, Contents, SchedInv, SemInv, SemUp, CanAct, IoQueues.Apply;
    WakeOrder(s.k, s.mutex);
    KernelStep(s.k, Up(s.mutex));
    EffectWaits(s.k, Up(s.mutex), SemUp(s.k, s.mutex), w);
    EffectWaits(s.k, Up(s.mutex), SemUp(s.k, s.mutex), s.k.current);
    EffectValue(s.k, Up(s.mutex), SemUp(s.k, s.mutex), s.mutex);
    SemStep(s, Up(s.mutex));
  }

  lemma EffectValue(s: Kernel, e: Event, q: Kernel, x: SemId)
    requires Effect(s, e, q) && x in s.sems
    ensures x in q.sems && SemEffect(s, e, q, x)
  {
  }

  /** Whoever is in turn, the thread followed comes to the critical section. */
  lemma {:induction false} Enter(s: Queue, u: Tid, t: Tid, r: nat)
    requires Live(s) && Calm(s) && Turn(s, u, t, r)
    ensures CanEnter(s, t)
    decreases r, Phase(s, u), Pos(s.k, u), Flag(s.k), s.k.threads[s.k.current].ava
  {
    hide Live, Calm, CanAct, IoQueues.Apply, Place, Phase, Holding;
    var c := s.k.current;
    if r == 0 && Holding(s, Top(s, u)) {
      EnterNow(s, t);
    } else if u != c && s.k.threads[c].wait == None {
      TickTurn(s, u, t, r);
      Enter(IoQueues.Apply(s, Other(TimerTick)), u, t, r);
      EnterLater(s, Other(TimerTick), t);
    } else if u != c || !Holding(s, Top(s, u)) {
      var x := s.k.threads[c].wait.value;
      RetestTurn(s, u, t, r, x);
      Enter(IoQueues.Apply(s, Retest(s)), Followed(s, x, u), t, r);
      EnterLater(s, Retest(s), t);
    } else if Phase(s, u) > 1 {
      HolderTurn(s, u, t, r);
      Enter(IoQueues.Apply(s, Go), u, t, r);
      EnterLater(s, Go, t);
    } else {
      ReleaseTurn(s, u, t, r);
      Enter(IoQueues.Apply(s, Go), Sleepers(s)[0], t, r - 1);
      EnterLater(s, Go, t);
    }
  }

  lemma EnterNow(s: Queue, t: Tid)
    requires Live(s) && Holding(s, Top(s, t))
    ensures CanEnter(s, t)
  {
    assert IoQueues.Reaches(s, [], s);
  }

  /** Somebody is in turn whenever a thread sleeps on the mutex and nothing is jammed: the operation in the
      critical section, or a thread woken from the mutex. */
  lemma SomebodyInTurn(s: Queue, t: Tid) returns (u: Tid, r: nat)
    requires Live(s) && Calm(s) && Sleeps(s.k, t, s.mutex) && !Jammed(s)
    ensures Turn(s, u, t, r)
  {
    r := SleeperIndex(s, t);
    if s.k.sems[s.mutex].value == 0 {
      var f := TheHolder(s);
      assert NestOk(s, f.0);
      NothingOut();
      assert JamsAt(s, f) ==> Jammed(s);
      u := f.0;
      hide Inv, Calm, In;
      assert f == Top(s, u);
    } else {
      u := SomebodyWoken(s);
    }
  }

  lemma SleeperIndex(s: Queue, t: Tid) returns (r: nat)
    requires Inv(s) && Sleeps(s.k, t, s.mutex)
    ensures 0 < r <= |Sleepers(s)| && Sleepers(s)[r - 1] == t
  {
    assert QueueOk(s.k, s.mutex) && t in Sleepers(s);
    hide Inv;
    var i :| 0 <= i < |Sleepers(s)| && Sleepers(s)[i] == t;
    r := i + 1;
  }

  lemma TheHolder(s: Queue) returns (f: Op)
    requires Shaped(s) && Counts(s) && s.k.sems[s.mutex].value == 0
    ensures Holding(s, f)
  {
    hide In;
    assert |Ops(s.pc, Critical)| == 1;
    f :| f in Ops(s.pc, Critical);
  }

  lemma SomebodyWoken(s: Queue) returns (u: Tid)
    requires Inv(s) && s.k.sems[s.mutex].value > 0 && Sleepers(s) != []
    ensures u in s.k.threads && Due(s, u, 1)
  {
    hide Contents;
    assert |Woken(s.k, s.mutex)| > 0;
    u :| u in Woken(s.k, s.mutex);
    assert ThreadOk(s.k, u) && (u in s.k.ready <==> IsReady(s.k, u));
  }

  // ---- The exact condition ----

  /** Every step of the run is plain. */
  ghost predicate PlainRun(s: Queue, acts: seq<Act>)
    decreases |acts|
  {
    acts != [] && CanAct(s, acts[0]) ==> Plain(s, acts[0]) && PlainRun(IoQueues.Apply(s, acts[0]), acts[1..])
  }

  lemma {:induction false} RunLive(s: Queue, acts: seq<Act>, q: Queue)
    requires Live(s) && IoQueues.Reaches(s, acts, q) && !q.k.panic
    ensures Live(q) && SameQueue(s, q) && (Calm(s) && PlainRun(s, acts) ==> Calm(q))
    decreases |acts|
  {
    if acts != [] {
      var m := IoQueues.Apply(s, acts[0]);
      hide Live, Calm, CanAct, IoQueues.Apply, Plain;
      if m.k.panic { Halted(m, acts[1..], q); }
      LiveStep(s, acts[0]);
      if Calm(s) && Plain(s, acts[0]) { CalmStep(s, acts[0]); }
      RunLive(m, acts[1..], q);
    }
  }

  /** No run wakes t. */
  ghost predicate AsleepForever(s: Queue, t: Tid) {
    forall acts, q :: IoQueues.Reaches(s, acts, q) && !q.k.panic ==> Sleeps(q.k, t, s.mutex)
  }

  lemma HoldersWake(s: Queue, t: Tid)
    requires Live(s) && Holding(s, Top(s, t))
    ensures !Sleeps(s.k, t, s.mutex)
  {
    assert NestOk(s, t);
    hide Inv;
  }

  /** A thread asleep on the mutex is never woken if and only if the operation in the critical section is
      below another operation of its thread; otherwise some run takes the sleeper into the critical section. */
  lemma StuckIff(s: Queue, t: Tid)
    requires Live(s) && Calm(s) && Sleeps(s.k, t, s.mutex)
    ensures AsleepForever(s, t) <==> Jammed(s)
    ensures CanEnter(s, t) <==> !Jammed(s)
  {
    if Jammed(s) {
      var f :| JamsAt(s, f);
      hide Live, Calm, Sleeps, JamsAt, Holding;
      forall acts, q | IoQueues.Reaches(s, acts, q) && !q.k.panic
        ensures Sleeps(q.k, t, s.mutex) && !Holding(q, Top(q, t))
      {
        StuckForever(s, acts, q, f, t);
        RunLive(s, acts, q);
        if Holding(q, Top(q, t)) { HoldersWake(q, t); }
      }
    } else {
      var u, r := SomebodyInTurn(s, t);
      hide Live, Calm, Sleeps, Holding, Turn;
      Enter(s, u, t, r);
      var acts, q :| IoQueues.Reaches(s, acts, q) && !q.k.panic && Holding(q, Top(q, t));
      RunLive(s, acts, q);
      HoldersWake(q, t);
    }
  }

  /** The same from io_queue_init on. */
  lemma StuckFromInit(s: Queue, acts: seq<Act>, q: Queue, t: Tid)
    requires Fresh(s) && IoQueues.Reaches(s, acts, q) && PlainRun(s, acts) && !q.k.panic && Sleeps(q.k, t, q.mutex)
    ensures AsleepForever(q, t) <==> Jammed(q)
    ensures CanEnter(q, t) <==> !Jammed(q)
  {
    hide Fresh, Live, Calm, Sleeps;
    FreshLive(s);
    RunLive(s, acts, q);
    StuckIff(q, t);
  }

  // ---- A jam that comes about ----

  ghost predicate Leads(s: Queue, q: Queue) { exists acts :: IoQueues.Reaches(s, acts, q) }

  lemma LeadsStep(s: Queue, a: Act, q: Queue)
    requires CanAct(s, a) && Leads(IoQueues.Apply(s, a), q)
    ensures Leads(s, q)
  {
    hide CanAct, IoQueues.Apply;
    var acts :| IoQueues.Reaches(IoQueues.Apply(s, a), acts, q);
    assert ([a] + acts)[1..] == acts;
    assert IoQueues.Reaches(s, [a] + acts, q);
  }

  lemma LeadsOn(s: Queue, a: Act)
    requires CanAct(s, a)
    ensures forall q :: Leads(IoQueues.Apply(s, a), q) ==> Leads(s, q)
  {
    hide CanAct, IoQueues.Apply, Leads;
    forall q | Leads(IoQueues.Apply(s, a), q) ensures Leads(s, q) { LeadsStep(s, a, q); }
  }

  lemma LeadsNow(q: Queue)
    ensures Leads(q, q)
  {
    assert IoQueues.Reaches(q, [], q);
  }

  /** The current thread went on by itself, to p in its n-th operation. */
  ghost predicate WentOn(s: Queue, m: Queue, n: nat, p: Pc) {
    var t := s.k.current;
    && SameQueue(s, m) && m.k.current == t && m.k.ready == s.k.ready && m.k.idle == s.k.idle
    && t in m.k.threads && m.k.threads[t].wait == None
    && m.pc == s.pc[(t, n) := p] && m.level == s.level[t := n]
    && (forall u :: u in s.k.threads && u != t ==> u in m.k.threads && m.k.threads[u].wait == s.k.threads[u].wait)
  }

  predicate Values(s: Queue, slots: nat, mutex: nat)
    requires Shaped(s)
  {
    s.k.sems[s.slots].value == slots && s.k.sems[s.mutex].value == mutex
  }

  lemma PutCalled(s: Queue, c: char)
    requires Live(s) && s.k.threads[s.k.current].wait == None
    ensures CanAct(s, Put(c))
    ensures var m := IoQueues.Apply(s, Put(c));
            && Live(m) && Shaped(m) && m.k == s.k && WentOn(s, m, Level(s, s.k.current) + 1, PSlots(c))
            && At(m, Cur(m)) == PSlots(c) && Level(m, s.k.current) == Level(s, s.k.current) + 1
  {
    assert NestOk(s, s.k.current) && At(s, Called(s)) == Out;
    hide NestOk, Counts, Contents, SemInv, ReadyOk, WaitersOk, ThreadsOk, AllOk;
    StepKeeps(s, Put(c));
    LiveStep(s, Put(c));
  }

  /** putchar up to the mutex, with a slot to spare. */
  lemma PutToMutex(s: Queue, c: char, slots: nat, mutex: nat) returns (m: Queue)
    requires Live(s) && s.k.threads[s.k.current].wait == None && Values(s, slots + 1, mutex)
    ensures Live(m) && Shaped(m) && Values(m, slots, mutex)
    ensures WentOn(s, m, Level(s, s.k.current) + 1, PMutex(c))
    ensures forall q :: Leads(m, q) ==> Leads(s, q)
  {
    hide Live, CanAct, IoQueues.Apply, At;
    PutCalled(s, c);
    var m0 := IoQueues.Apply(s, Put(c));
    m := DownPassed(m0, PSlots(c), s.slots);
    assert forall q :: Leads(m, q) ==> Leads(m0, q);
    LeadsOn(s, Put(c));
  }

  lemma DownFactsOf(s: Queue, p: Pc, x: SemId)
    requires Live(s) && s.k.threads[s.k.current].wait == None && At(s, Cur(s)) == p && Own(s, x)
    requires SemEvent(s, p) == Some(Down(x)) && s.k.sems[x].value > 0
    ensures CanAct(s, Go) && IoQueues.Apply(s, Go) == SemStatement(s, Down(x)) && Live(IoQueues.Apply(s, Go))
    ensures Shaped(IoQueues.Apply(s, Go)) && Enabled(s.k, Down(x)) && DownMoves(s.k, x, SemDown(s.k, x))
    ensures Effect(s.k, Down(x), SemDown(s.k, x))
  {
    hide NestOk, Counts, Contents, SemInv, Effect, SemDown, DownMoves, ReadyOk, WaitersOk, ThreadsOk, AllOk;
    assert CanAct(s, Go);
    SemEnabled(s, Down(x));
    hide IoQueues.Apply, CanAct;
    StepKeeps(s, Go);
    LiveStep(s, Go);
    DownOrder(s.k, x);
    KernelStep(s.k, Down(x));
  }

  lemma PassedWent(s: Queue, p: Pc, x: SemId, m: Queue)
    requires Shaped(s) && Shaped(m) && Own(s, x) && At(s, Cur(s)) == p && SemEvent(s, p) == Some(Down(x))
    requires s.k.sems[x].value > 0 && Level(s, s.k.current) > 0 && Enabled(s.k, Down(x))
    requires m == SemStatement(s, Down(x)) && DownMoves(s.k, x, SemDown(s.k, x))
    requires Effect(s.k, Down(x), SemDown(s.k, x)) && s.k.threads[s.k.current].wait == None
    ensures WentOn(s, m, Level(s, s.k.current), Next(s, p))
    ensures Values(m, s.k.sems[s.slots].value - (if x == s.slots then 1 else 0),
                      s.k.sems[s.mutex].value - (if x == s.mutex then 1 else 0))
  {
    hide SemDown;
  }

  /** A sem_down of the queue on a positive semaphore. */
  lemma DownPassed(s: Queue, p: Pc, x: SemId) returns (m: Queue)
    requires Live(s) && s.k.threads[s.k.current].wait == None && At(s, Cur(s)) == p && Own(s, x)
    requires SemEvent(s, p) == Some(Down(x)) && s.k.sems[x].value > 0 && Level(s, s.k.current) > 0
    ensures Live(m) && Shaped(m) && WentOn(s, m, Level(s, s.k.current), Next(s, p))
    ensures Values(m, s.k.sems[s.slots].value - (if x == s.slots then 1 else 0),
                      s.k.sems[s.mutex].value - (if x == s.mutex then 1 else 0))
    ensures forall q :: Leads(m, q) ==> Leads(s, q)
  {
    DownFactsOf(s, p, x);
    m := IoQueues.Apply(s, Go);
    hide Live, CanAct, Enabled, SemDown, IoQueues.Apply, Leads, WentOn, Values, DownMoves, Effect;
    PassedWent(s, p, x, m);
    LeadsOn(s, Go);
  }

  /** A sem_down on the mutex while it is taken. */
  lemma SleepOnMutex(s: Queue, c: char) returns (m: Queue)
    requires Live(s) && s.k.threads[s.k.current].wait == None && At(s, Cur(s)) == PMutex(c)
    requires s.k.current != s.k.idle && s.k.sems[s.mutex].value == 0
    ensures Live(m) && Shaped(m) && SameQueue(s, m) && m.pc == s.pc && m.level == s.level
    ensures (s.k.ready != [] ==> m.k.current == s.k.ready[0]) && Values(m, s.k.sems[s.slots].value, 0)
    ensures Sleeps(m.k, s.k.current, s.mutex) && m.k.idle == s.k.idle
    ensures forall u :: u in s.k.threads && u != s.k.current ==>
              u in m.k.threads && m.k.threads[u].wait == s.k.threads[u].wait
    ensures forall q :: Leads(m, q) ==> Leads(s, q)
  {
    m := IoQueues.Apply(s, Go);
    SleepFacts(s, c);
    hide Live, CanAct, Enabled, SemDown, IoQueues.Apply;
    LeadsOn(s, Go);
  }

  lemma SleepFacts(s: Queue, c: char)
    requires Live(s) && s.k.threads[s.k.current].wait == None && At(s, Cur(s)) == PMutex(c)
    requires s.k.current != s.k.idle && s.k.sems[s.mutex].value == 0
    ensures CanAct(s, Go) && IoQueues.Apply(s, Go) == SemStatement(s, Down(s.mutex)) && Live(IoQueues.Apply(s, Go))
    ensures Enabled(s.k, Down(s.mutex)) && DownMoves(s.k, s.mutex, SemDown(s.k, s.mutex))
    ensures Effect(s.k, Down(s.mutex), SemDown(s.k, s.mutex))
    ensures Sleeps(SemDown(s.k, s.mutex), s.k.current, s.mutex) && Shaped(IoQueues.Apply(s, Go))
  {
    hide NestOk, Counts, Contents, SemInv, Effect, SemDown, DownMoves, ReadyOk, WaitersOk, ThreadsOk, AllOk;
    assert CanAct(s, Go);
    SemEnabled(s, Down(s.mutex));
    hide IoQueues.Apply, CanAct;
    StepKeeps(s, Go);
    LiveStep(s, Go);
    DownOrder(s.k, s.mutex);
    KernelStep(s.k, Down(s.mutex));
    DownKeepsSched(s.k, s.mutex);
    AsleepSleeps(s.k, s.mutex);
    SameSleepSleeps(Asleep(s.k, s.mutex), SemDown(s.k, s.mutex), s.k.current, s.mutex);
  }

  lemma JamsForever(s: Queue, f: Op, t: Tid)
    requires Live(s) && JamsAt(s, f) && Sleeps(s.k, t, s.mutex)
    ensures AsleepForever(s, t)
  {
    hide Live, JamsAt, Sleeps;
    forall acts, q | IoQueues.Reaches(s, acts, q) && !q.k.panic ensures Sleeps(q.k, t, s.mutex) {
      StuckForever(s, acts, q, f, t);
    }
  }

  lemma FreshFacts(s: Queue)
    requires Fresh(s)
    ensures Live(s) && Values(s, BUF_SIZE, 1) && Level(s, s.k.current) == 0
  {
    FreshLive(s);
  }

  /** A first putchar as far as its write. */
  lemma InWrite(s: Queue, b: char) returns (m: Queue)
    requires Fresh(s) && s.k.threads[s.k.current].wait == None
    ensures Live(m) && Shaped(m) && Values(m, BUF_SIZE - 1, 0) && WentOn(s, m, 1, PWrite(b))
    ensures forall q :: Leads(m, q) ==> Leads(s, q)
  {
    hide Live, Calm, Leads, Fresh;
    FreshFacts(s);
    var s1 := PutToMutex(s, b, BUF_SIZE - 1, 1);
    m := DownPassed(s1, PMutex(b), s.mutex);
  }

  /** A thread at its putchar's write takes another key press: it goes to sleep below the mutex it holds. */
  lemma HandlerSticks(s: Queue, b: char, c: char) returns (q: Queue)
    requires Fresh(s) && s.k.current != s.k.idle && s.k.threads[s.k.current].wait == None
    ensures Live(q) && Shaped(q) && SameQueue(s, q) && Values(q, BUF_SIZE - 2, 0)
    ensures JamsAt(q, (s.k.current, 1)) && Sleeps(q.k, s.k.current, q.mutex) && AsleepForever(q, s.k.current)
    ensures s.k.ready != [] ==> q.k.current == s.k.ready[0]
    ensures forall u :: u in s.k.threads && u != s.k.current ==>
              u in q.k.threads && q.k.threads[u].wait == s.k.threads[u].wait
    ensures q.k.idle == s.k.idle && forall r :: Leads(q, r) ==> Leads(s, r)
  {
    var t := s.k.current;
    hide Fresh, Live, Calm, Leads, Sleeps, AsleepForever;
    var m := InWrite(s, b);
    var n := PutToMutex(m, c, BUF_SIZE - 2, 0);
    q := SleepOnMutex(n, c);
    JamsForever(q, (t, 1), t);
  }

  /** And any other thread that calls putchar after that waits for ever too, for a mutex it never had. */
  lemma StrangerSticks(s: Queue, d: Tid, b: char, c: char, e: char) returns (q: Queue)
    requires Fresh(s) && s.k.current != s.k.idle && s.k.threads[s.k.current].wait == None
    requires s.k.ready != [] && s.k.ready[0] == d && d in s.k.threads && d != s.k.idle && s.k.threads[d].wait == None
    ensures Leads(s, q) && JamsAt(q, (s.k.current, 1))
    ensures d != s.k.current && Sleeps(q.k, d, q.mutex) && AsleepForever(q, d)
  {
    var t := s.k.current;
    assert d in s.k.ready && IsReady(s.k, d) && d != t;
    hide Fresh, Live, Calm, Leads, Sleeps, AsleepForever, JamsAt;
    var s4 := HandlerSticks(s, b, c);
    var s5 := PutToMutex(s4, e, BUF_SIZE - 3, 0);
    q := SleepOnMutex(s5, e);
    LeadsNow(q);
    JamLeads(s4, q, (t, 1), t);
    JamsForever(q, (t, 1), d);
  }

  lemma JamLeads(s: Queue, q: Queue, f: Op, t: Tid)
    requires Live(s) && Leads(s, q) && !q.k.panic && JamsAt(s, f) && Sleeps(s.k, t, s.mutex)
    ensures JamsAt(q, f)
  {
    hide Live, JamsAt, Sleeps;
    var acts :| IoQueues.Reaches(s, acts, q);
    StuckForever(s, acts, q, f, t);
  }
}
