/** The tick handler's accounting: every tick is charged to one thread and to the total, and a thread's
    remaining slice tells how much of the present slice it has used. */
module Accounting {
  import opened Scheduler
  import opened SchedulerProofs

  /** One thread's books.  The counters are words, so elapsed is what the history says modulo 2^32. */
  ghost predicate Books(v: Thread) {
    && v.ava <= v.priority
    && v.ticks == v.refills * (v.priority + 1) + (v.priority - v.ava)
    && v.elapsed == v.ticks % WORD
  }

  ghost predicate BooksOk(s: Kernel) { forall t :: t in s.threads ==> Books(s.threads[t]) }

  /** The elapsed times of all listed threads together. */
  ghost function Elapsed(q: seq<Tid>, threads: map<Tid, Thread>): nat
    requires forall t :: t in q ==> t in threads
  {
    if q == [] then 0 else Elapsed(q[..|q| - 1], threads) + threads[q[|q| - 1]].elapsed
  }

  ghost predicate TotalOk(s: Kernel) {
    AllOk(s) && s.total == Elapsed(s.all, s.threads) % WORD
  }

  /** The books of a new thread balance exactly when its priority fits the byte it is stored in. */
  lemma NewThreadBooks(prio: int)
    requires -0x8000_0000 <= prio < 0x8000_0000
    ensures Books(NewThread(prio)) <==> 0 <= prio < BYTE
  {
    if prio < 0 {
      assert prio % WORD == prio + WORD;
    }
  }

  // ---- What schedule does to the time slices ----

  /** The running thread that calls schedule is refilled; every other slice is as it was. */
  predicate SliceAfter(s: Kernel, q: Kernel, t: Tid)
    requires t in s.threads && t in q.threads
  {
    var v := s.threads[t];
    q.threads[t] == (if t == s.current && v.status == RUNNING then v.(ava := v.priority, refills := v.refills + 1)
                     else v).(status := q.threads[t].status)
  }

  ghost predicate Slices(s: Kernel, q: Kernel) {
    q.threads.Keys == s.threads.Keys && q.all == s.all && q.total == s.total
    && forall t :: t in s.threads ==> SliceAfter(s, q, t)
  }

  /** Only statuses and the ready list change. */
  ghost predicate Restatus(s: Kernel, q: Kernel) {
    q.threads.Keys == s.threads.Keys && q.all == s.all && q.total == s.total
    && forall t :: t in s.threads ==> q.threads[t] == s.threads[t].(status := q.threads[t].status)
  }

  lemma RequeueSlices(s: Kernel)
    requires s.current in s.threads && (s.threads[s.current].status == RUNNING ==> s.current !in s.ready)
    ensures Slices(s, Requeue(s))
  {
  }

  lemma WakeIdleRestatus(s: Kernel)
    requires s.idle in s.threads
    ensures Restatus(s, WakeIdle(s))
  {
  }

  lemma DispatchRestatus(s: Kernel)
    ensures Restatus(s, Dispatch(s))
  {
  }

  lemma ScheduleSlices(s: Kernel)
    requires s.current in s.threads && s.idle in s.threads
    requires s.threads[s.current].status == RUNNING ==> s.current !in s.ready
    ensures Slices(s, Schedule(s))
  {
    var a := Requeue(s);
    RequeueSlices(s);
    WakeIdleRestatus(a);
    DispatchRestatus(WakeIdle(a));
    hide Requeue, WakeIdle, Dispatch;
    forall t | t in s.threads ensures SliceAfter(s, Schedule(s), t) {
      assert SliceAfter(s, a, t) && t in a.threads && t in WakeIdle(a).threads;
    }
  }

  lemma SlicesSum(q: seq<Tid>, a: map<Tid, Thread>, b: map<Tid, Thread>)
    requires forall t :: t in q ==> t in a && t in b && a[t].elapsed == b[t].elapsed
    ensures Elapsed(q, a) == Elapsed(q, b)
  {
    if q != [] { SlicesSum(q[..|q| - 1], a, b); }
  }

  /** Schedule called by a thread that is not running, or whose used-up slice has just been charged. */
  lemma ScheduleBooks(s: Kernel)
    requires s.current in s.threads && s.idle in s.threads
    requires s.threads[s.current].status == RUNNING ==> s.current !in s.ready
    requires forall t :: t in s.threads && t != s.current ==> Books(s.threads[t])
    requires Charged(s.threads[s.current])
    ensures BooksOk(Schedule(s))
  {
    ScheduleSlices(s);
    var q := Schedule(s);
    hide Schedule, Charged, Books, SliceAfter;
    forall t | t in q.threads ensures Books(q.threads[t]) {
      assert SliceAfter(s, q, t);
      SliceBooks(s, q, t);
    }
  }

  lemma SliceBooks(s: Kernel, q: Kernel, t: Tid)
    requires t in s.threads && t in q.threads && SliceAfter(s, q, t)
    requires if t == s.current then Charged(s.threads[t]) else Books(s.threads[t])
    ensures Books(q.threads[t])
  {
    if t == s.current && s.threads[t].status == RUNNING { RefillBooks(s.threads[t]); }
  }

  /** The books of the thread that calls schedule: one tick past the end of its slice if it is running. */
  ghost predicate Charged(v: Thread) {
    if v.status == RUNNING then
      v.ava == 0 && v.ticks == v.refills * (v.priority + 1) + v.priority + 1 && v.elapsed == v.ticks % WORD
    else Books(v)
  }

  lemma RefillBooks(v: Thread)
    requires Charged(v) && v.status == RUNNING
    ensures Books(v.(ava := v.priority, refills := v.refills + 1))
  {
    assert (v.refills + 1) * (v.priority + 1) == v.refills * (v.priority + 1) + v.priority + 1;
  }

  // ---- The steps ----

  lemma NextTick(n: nat)
    ensures (n % WORD + 1) % WORD == (n + 1) % WORD
  {
  }

  lemma TickBooks(s: Kernel)
    requires s.current in s.threads && s.idle in s.threads && BooksOk(s)
    requires s.threads[s.current].status == RUNNING && s.current !in s.ready
    ensures BooksOk(Tick(s))
  {
    var v := s.threads[s.current];
    assert Books(v);
    NextTick(v.ticks);
    if v.ava == 0 {
      assert Charged(Ticked(s).threads[s.current]);
      ScheduleBooks(Ticked(s));
    }
  }

  /** One thread's elapsed time goes up by one, modulo 2^32; so does the sum. */
  lemma SumBump(q: seq<Tid>, a: map<Tid, Thread>, b: map<Tid, Thread>, c: Tid)
    requires NoDup(q) && c in q && forall t :: t in q ==> t in a && t in b
    requires forall t :: t in q && t != c ==> a[t].elapsed == b[t].elapsed
    requires b[c].elapsed == (a[c].elapsed + 1) % WORD
    ensures Elapsed(q, b) % WORD == (Elapsed(q, a) + 1) % WORD
  {
    var p := q[..|q| - 1];
    var l := q[|q| - 1];
    assert q == p + [l];
    var before, after := Elapsed(p, a), Elapsed(p, b);
    assert Elapsed(q, a) == before + a[l].elapsed && Elapsed(q, b) == after + b[l].elapsed;
    if l == c {
      SlicesSum(p, a, b);
      AddMod(before, a[c].elapsed + 1);
    } else {
      SumBump(p, a, b, c);
      hide Elapsed;
      ModAdd(after, before + 1, b[l].elapsed);
    }
  }

  lemma AddMod(n: nat, m: nat)
    ensures (n + m % WORD) % WORD == (n + m) % WORD
  {
  }

  lemma ModAdd(n: nat, m: nat, k: nat)
    requires n % WORD == m % WORD
    ensures (n + k) % WORD == (m + k) % WORD
  {
  }

  lemma TickTotal(s: Kernel)
    requires SchedInv(s) && TotalOk(s)
    ensures TotalOk(Tick(s))
  {
    var m := Ticked(s);
    TickKeepsSched(s);
    TickedTotal(s);
    CurrentUnqueued(s);
    hide ReadyOk, WaitersOk, ThreadsOk, Schedule;
    if s.threads[s.current].ava == 0 {
      ScheduleSlices(m);
      hide AllOk, Tick, Ticked;
      SameElapsed(m, Tick(s));
    } else {
      SlicesSum(m.all, m.threads, Tick(s).threads);
    }
  }

  lemma TickedTotal(s: Kernel)
    requires s.current in s.threads && TotalOk(s)
    ensures TotalOk(Ticked(s))
  {
    var m := Ticked(s);
    assert s.current in s.all && s.all == m.all && m.threads.Keys == s.threads.Keys;
    assert forall t :: t in m.threads <==> t in s.threads;
    SumBump(s.all, s.threads, m.threads, s.current);
    ModAdd(s.total, Elapsed(s.all, s.threads), 1);
  }

  lemma SameElapsed(m: Kernel, q: Kernel)
    requires AllOk(m) && AllOk(q) && Slices(m, q) && m.total == Elapsed(m.all, m.threads) % WORD
    ensures TotalOk(q)
  {
    forall t | t in m.all ensures q.threads[t].elapsed == m.threads[t].elapsed { assert SliceAfter(m, q, t); }
    SlicesSum(m.all, m.threads, q.threads);
  }

  /** What a step other than a tick passes to schedule: the current thread is not running. */
  lemma SwitchBooks(m: Kernel, q: Kernel)
    requires m.current in m.threads && m.idle in m.threads && q == Schedule(m) && AllOk(m) && AllOk(q)
    requires m.threads[m.current].status != RUNNING && BooksOk(m)
    requires m.total == Elapsed(m.all, m.threads) % WORD
    ensures BooksOk(q) && TotalOk(q)
  {
    ScheduleBooks(m);
    ScheduleSlices(m);
    hide Schedule, AllOk;
    SameElapsed(m, q);
  }

  /** Rewriting a thread's status or place touches no book. */
  lemma Relabel(s: Kernel, m: Kernel)
    requires BooksOk(s) && TotalOk(s) && m.threads.Keys == s.threads.Keys && m.all == s.all && m.total == s.total
    requires forall t :: t in s.threads ==>
               m.threads[t] == s.threads[t].(status := m.threads[t].status, wait := m.threads[t].wait)
    ensures BooksOk(m) && TotalOk(m)
  {
    SlicesSum(s.all, s.threads, m.threads);
  }

  lemma StartTotal(s: Kernel, t: Tid, prio: int)
    requires SchedInv(s) && TotalOk(s) && t !in s.threads
    ensures TotalOk(ThreadStart(s, t, prio))
  {
    StartKeepsSched(s, t, prio);
    var q := ThreadStart(s, t, prio);
    assert !IsReady(s, t) && t !in s.all && t !in s.ready;
    assert q.all == s.all + [t] && q.all[..|q.all| - 1] == s.all;
    SlicesSum(s.all, s.threads, q.threads);
  }

  lemma DownBooks(s: Kernel, x: SemId)
    requires SchedInv(s) && BooksOk(s) && TotalOk(s) && Enabled(s, Down(x))
    ensures BooksOk(SemDown(s, x)) && TotalOk(SemDown(s, x))
  {
    DownKeepsSched(s, x);
    hide ReadyOk, WaitersOk, ThreadsOk, AllOk, BooksOk, TotalOk;
    if s.sems[x].value == 0 {
      AsleepBase(s, x);
      Relabel(s, Asleep(s, x));
      TotalSum(Asleep(s, x));
      SwitchBooks(Asleep(s, x), SemDown(s, x));
    } else {
      Relabel(s, SemDown(s, x));
    }
  }

  lemma TotalSum(s: Kernel)
    requires TotalOk(s)
    ensures AllOk(s) && (forall t :: t in s.all ==> t in s.threads) && s.total == Elapsed(s.all, s.threads) % WORD
  {
  }

  lemma UpBooks(s: Kernel, x: SemId)
    requires SchedInv(s) && BooksOk(s) && TotalOk(s) && x in s.sems && s.sems[x].value < 255
    ensures BooksOk(SemUp(s, x)) && TotalOk(SemUp(s, x))
  {
    UpKeepsSched(s, x);
    WakeWaiterKeeps(s, x);
    var m := WakeWaiter(s, x);
    hide ReadyOk, WaitersOk, ThreadsOk, AllOk, BooksOk, TotalOk;
    Relabel(s, m);
    hide WakeWaiter;
    Relabel(m, SemUp(s, x));
  }

  lemma YieldBooks(s: Kernel)
    requires SchedInv(s) && BooksOk(s) && TotalOk(s)
    ensures BooksOk(ThreadYield(s)) && TotalOk(ThreadYield(s))
  {
    YieldKeepsSched(s);
    CurrentUnqueued(s);
    var m := SetStatus(s.(ready := s.ready + [s.current]), s.current, READY);
    hide ReadyOk, WaitersOk, ThreadsOk, AllOk, BooksOk, TotalOk;
    Relabel(s, m);
    TotalSum(m);
    SwitchBooks(m, ThreadYield(s));
  }

  lemma IdleBlockBooks(s: Kernel)
    requires SchedInv(s) && BooksOk(s) && TotalOk(s) && s.current == s.idle
    ensures BooksOk(ThreadBlock(s)) && TotalOk(ThreadBlock(s))
  {
    IdleBlockKeepsSched(s);
    var m := SetStatus(s, s.current, BLOCKED);
    hide ReadyOk, WaitersOk, ThreadsOk, AllOk, BooksOk, TotalOk;
    Relabel(s, m);
    TotalSum(m);
    SwitchBooks(m, ThreadBlock(s));
  }

  /** Every step keeps the books, as long as new threads get a priority that fits a byte. */
  lemma StepKeepsBooks(s: Kernel, e: Event)
    requires SchedInv(s) && BooksOk(s) && TotalOk(s) && Enabled(s, e) && !Apply(s, e).panic
    requires e.Start? ==> 0 <= e.prio < BYTE
    requires e.Up? ==> s.sems[e.x].value < 255
    ensures BooksOk(Apply(s, e)) && TotalOk(Apply(s, e))
  {
    hide ReadyOk, WaitersOk, ThreadsOk, AllOk, BooksOk, TotalOk, SemDown, SemUp, ThreadYield, Tick, ThreadBlock, Books;
    match e
    case Down(x) => DownBooks(s, x);
    case Up(x) => UpBooks(s, x);
    case TimerTick => CurrentUnqueued(s); TickBooks(s); TickTotal(s);
    case Yield => YieldBooks(s);
    case IdleBlock => IdleBlockBooks(s);
    case Start(t, prio) => StartTotal(s, t, prio); StartBooks(s, t, prio);
  }

  lemma StartBooks(s: Kernel, t: Tid, prio: int)
    requires SchedInv(s) && BooksOk(s) && t !in s.threads && 0 <= prio < BYTE
    ensures BooksOk(ThreadStart(s, t, prio))
  {
    assert !IsReady(s, t) && t !in s.all && t !in s.ready;
    NewThreadBooks(prio);
    hide ReadyOk, WaitersOk, ThreadsOk, AllOk, Books;
  }
}
