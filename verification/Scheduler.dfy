/** thread/thread.c, thread/lock.c (semaphores) and the tick handler of device/timer.c, as a transition
    system with any number of threads and semaphores on one processor.

    A region between INTERRUPT_DISABLE and INTERRUPT_RESTORE is one step, up to a context switch.  A
    failed assertion stops the kernel: `panic`. */
module Scheduler {
  import opened Wrappers

  type Tid = nat
  type SemId = nat

  datatype Status = RUNNING | READY | BLOCKED | WAITING | HANGING | DIED

  /** A task_struct.  `wait` says where the thread is: inside sem_down of that semaphore, asleep or woken
      and not past the retest.  `ticks` and `refills` are history: how often the tick handler ran in it,
      and how often schedule renewed its time slice. */
  datatype Thread = Thread(
    status: Status, priority: nat, ava: nat, elapsed: nat,
    wait: Option<SemId>, ticks: nat, refills: nat)

  /** A semaphore; its initial value and the completed ups and downs are history. */
  datatype Sem = Sem(value: nat, waiters: seq<Tid>, initial: nat, ups: nat, downs: nat)

  datatype Kernel = Kernel(
    threads: map<Tid, Thread>, ready: seq<Tid>, all: seq<Tid>, current: Tid, idle: Tid,
    sems: map<SemId, Sem>, total: nat, panic: bool)

  const BYTE: nat := 256
  const WORD: nat := 0x1_0000_0000

  function Panic(s: Kernel): Kernel { s.(panic := true) }

  function SetThread(s: Kernel, t: Tid, v: Thread): Kernel { s.(threads := s.threads[t := v]) }

  function SetStatus(s: Kernel, t: Tid, st: Status): Kernel
    requires t in s.threads
  {
    SetThread(s, t, s.threads[t].(status := st))
  }

  // ---- thread.c ----

  function ThreadUnblock(s: Kernel, t: Tid): Kernel
    requires t in s.threads
  {
    if s.threads[t].status !in {BLOCKED, HANGING, WAITING} || t in s.ready then Panic(s)
    else SetStatus(s.(ready := [t] + s.ready), t, READY)
  }

  /** The first branch of schedule: the time slice of a running thread is over. */
  function Requeue(s: Kernel): Kernel
    requires s.current in s.threads
  {
    var t := s.current;
    var v := s.threads[t];
    if v.status != RUNNING then s
    else if t in s.ready then Panic(s)
    else SetThread(s.(ready := s.ready + [t]), t, v.(ava := v.priority, status := READY, refills := v.refills + 1))
  }

  /** The second branch: with nothing ready, the idle thread is woken. */
  function WakeIdle(s: Kernel): Kernel
    requires s.idle in s.threads
  {
    if s.panic || s.ready != [] then s else ThreadUnblock(s, s.idle)
  }

  /** The rest: the first ready thread becomes the running one.  (Popping an empty list would hand
      switch_to a null task.) */
  function Dispatch(s: Kernel): Kernel {
    if s.panic then s
    else if s.ready == [] || s.ready[0] !in s.threads then Panic(s)
    else SetStatus(s.(ready := s.ready[1..], current := s.ready[0]), s.ready[0], RUNNING)
  }

  function Schedule(s: Kernel): Kernel
    requires s.current in s.threads && s.idle in s.threads
  {
    Dispatch(WakeIdle(Requeue(s)))
  }

  function ThreadBlock(s: Kernel): Kernel
    requires s.current in s.threads && s.idle in s.threads
  {
    Schedule(SetStatus(s, s.current, BLOCKED))
  }

  function ThreadYield(s: Kernel): Kernel
    requires s.current in s.threads && s.idle in s.threads
  {
    if s.current in s.ready then Panic(s)
    else Schedule(SetStatus(s.(ready := s.ready + [s.current]), s.current, READY))
  }

  /** thread_start: the priority is stored in a byte, the time slice in a word. */
  function NewThread(prio: int): Thread {
    Thread(READY, prio % BYTE, prio % WORD, 0, None, 0, 0)
  }

  function ThreadStart(s: Kernel, t: Tid, prio: int): Kernel {
    if t in s.ready || t in s.all then Panic(s)
    else SetThread(s.(ready := s.ready + [t], all := s.all + [t]), t, NewThread(prio))
  }

  // ---- lock.c ----

  function SetSem(s: Kernel, x: SemId, v: Sem): Kernel { s.(sems := s.sems[x := v]) }

  /** sem_up's first half: the first waiter, if any, is unblocked. */
  function WakeWaiter(s: Kernel, x: SemId): Kernel
    requires x in s.sems
  {
    var v := s.sems[x];
    if v.waiters == [] then s
    else if v.waiters[0] !in s.threads then Panic(s)
    else ThreadUnblock(SetSem(s, x, v.(waiters := v.waiters[1..])), v.waiters[0])
  }

  /** Its second half: the byte is raised and must not come back to zero. */
  function Raise(s: Kernel, x: SemId): Kernel
    requires x in s.sems
  {
    var v := s.sems[x];
    var s1 := SetSem(s, x, v.(value := (v.value + 1) % BYTE, ups := v.ups + 1));
    if s1.sems[x].value == 0 then Panic(s1) else s1
  }

  function SemUp(s: Kernel, x: SemId): Kernel
    requires x in s.sems
  {
    var s1 := WakeWaiter(s, x);
    if s1.panic then s1 else Raise(s1, x)
  }

  /** One pass through the loop of sem_down by the current thread: down, or asleep until woken to retest. */
  function SemDown(s: Kernel, x: SemId): Kernel
    requires x in s.sems && s.current in s.threads && s.idle in s.threads
  {
    var v := s.sems[x];
    var t := s.current;
    if v.value == 0 then
      if t in v.waiters then Panic(s)
      else ThreadBlock(SetThread(SetSem(s, x, v.(waiters := v.waiters + [t])), t, s.threads[t].(wait := Some(x))))
    else
      SetThread(SetSem(s, x, v.(value := v.value - 1, downs := v.downs + 1)), t, s.threads[t].(wait := None))
  }

  // ---- timer.c ----

  function Tick(s: Kernel): Kernel
    requires s.current in s.threads && s.idle in s.threads
  {
    var v := s.threads[s.current];
    var v1 := v.(elapsed := (v.elapsed + 1) % WORD, ticks := v.ticks + 1);
    var s1 := s.(total := (s.total + 1) % WORD);
    if v.ava == 0 then Schedule(SetThread(s1, s.current, v1))
    else SetThread(s1, s.current, v1.(ava := v1.ava - 1))
  }

  // ---- The transition system ----

  /** What the current thread (or the tick or a disk interrupt in it) does next. */
  datatype Event = Down(x: SemId) | Up(x: SemId) | TimerTick | Yield | IdleBlock | Start(t: Tid, prio: int)

  /** Interrupts are on unless the current thread has just been switched back to inside sem_down; then
      it can only retest.  The idle thread itself only blocks; an interrupt handler on top of it may go down
      on a semaphore, which keeps the queues exactly when it need not sleep (IdleDownIff). */
  predicate Enabled(s: Kernel, e: Event) {
    !s.panic && s.current in s.threads && s.idle in s.threads &&
    match e
    case Down(x) =>
      && x in s.sems && s.threads[s.current].wait in {None, Some(x)}
      && (s.current == s.idle ==> s.sems[x].value > 0)
    case Up(x) => x in s.sems && s.threads[s.current].wait.None?
    case TimerTick => s.threads[s.current].wait.None?
    case Yield => s.threads[s.current].wait.None? && s.current != s.idle
    case IdleBlock => s.current == s.idle
    case Start(t, prio) => s.threads[s.current].wait.None? && s.current != s.idle && t !in s.threads
  }

  function Apply(s: Kernel, e: Event): Kernel
    requires Enabled(s, e)
  {
    match e
    case Down(x) => SemDown(s, x)
    case Up(x) => SemUp(s, x)
    case TimerTick => Tick(s)
    case Yield => ThreadYield(s)
    case IdleBlock => ThreadBlock(s)
    case Start(t, prio) => ThreadStart(s, t, prio)
  }

  // ---- Invariants ----

  ghost predicate NoDup(q: seq<Tid>) { forall i, j :: 0 <= i < j < |q| ==> q[i] != q[j] }

  /** The ready list holds exactly the ready threads, each once. */
  ghost predicate ReadyOk(s: Kernel) {
    NoDup(s.ready) && forall t :: t in s.ready <==> IsReady(s, t)
  }

  predicate IsReady(s: Kernel, t: Tid) { t in s.threads && s.threads[t].status == READY }

  /** Each semaphore's queue holds exactly the threads asleep on it, each once. */
  ghost predicate WaitersOk(s: Kernel) {
    forall x :: x in s.sems ==> QueueOk(s, x)
  }

  ghost predicate QueueOk(s: Kernel, x: SemId)
    requires x in s.sems
  {
    NoDup(s.sems[x].waiters) && forall t :: t in s.sems[x].waiters <==> Sleeps(s, t, x)
  }

  /** t is asleep in sem_down of x.  (The idle thread sleeps on no semaphore.) */
  predicate Sleeps(s: Kernel, t: Tid, x: SemId) {
    t in s.threads && t != s.idle && s.threads[t].status == BLOCKED && s.threads[t].wait == Some(x)
  }

  /** Only the current thread runs; a sleeping thread other than idle sleeps on some semaphore. */
  ghost predicate ThreadsOk(s: Kernel) {
    forall t :: t in s.threads ==> ThreadOk(s, t)
  }

  ghost predicate ThreadOk(s: Kernel, t: Tid)
    requires t in s.threads
  {
    var v := s.threads[t];
    && v.status in {RUNNING, READY, BLOCKED} && (v.status == RUNNING ==> t == s.current)
    && (v.wait.Some? ==> v.wait.value in s.sems && t != s.idle)
    && (v.status == BLOCKED && t != s.idle ==> v.wait.Some?)
  }

  ghost predicate AllOk(s: Kernel) {
    NoDup(s.all) && forall t :: t in s.all <==> t in s.threads
  }

  /** Holds also in the middle of a step, when the current thread is no longer running. */
  ghost predicate Base(s: Kernel) {
    && !s.panic && s.current in s.threads && s.idle in s.threads
    && ReadyOk(s) && WaitersOk(s) && ThreadsOk(s) && AllOk(s)
  }

  ghost predicate SchedInv(s: Kernel) { Base(s) && s.threads[s.current].status == RUNNING }

  /** The threads woken from a semaphore that have not yet retested. */
  ghost function Woken(s: Kernel, x: SemId): set<Tid> {
    set t | t in s.threads && s.threads[t].wait == Some(x) && s.threads[t].status != BLOCKED
  }

  /** No lost wake-up, and conservation of the semaphore's value. */
  ghost predicate SemInv(s: Kernel) {
    forall x :: x in s.sems ==>
      var v := s.sems[x];
      && v.value < BYTE && v.value + v.downs == v.initial + v.ups
      && (v.waiters != [] ==> v.value <= |Woken(s, x)|)
  }
}
