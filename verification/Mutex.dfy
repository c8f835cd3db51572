/** The recursive mutex of thread/lock.c, statement by statement, on top of the scheduler: any number of
    threads, any interleaving.  Only sem_down and sem_up run with interrupts off; holder and recursion are
    read and written in between, where a tick may strike. */
module Mutexes {
  import opened Wrappers
  import opened Scheduler
  import opened SchedulerProofs
  import opened Semaphores
  import opened KernelRuns

  /** The statement a thread is about to execute. */
  datatype Pc = Out
    | LTest | LDown | LCheck | LHolder | LInc | LNest
    | UAssert | UTest | UHolder | URec | UUp | UDec

  /** A mutex over semaphore m of the kernel.  History: `depth` counts the locks a thread holds, `inside`
      are the threads past sem_down and not yet past the matching sem_up.  `failed`: the assertion
      recursion == 0 failed. */
  datatype Sys = Sys(
    k: Kernel, m: SemId, holder: Option<Tid>, recursion: nat,
    pc: map<Tid, Pc>, depth: map<Tid, nat>, inside: set<Tid>, failed: bool)

  function At(s: Sys, t: Tid): Pc { if t in s.pc then s.pc[t] else Out }
  function Depth(s: Sys, t: Tid): nat { if t in s.depth then s.depth[t] else 0 }

  /** What the processor does next: the current thread calls mutex_lock or mutex_unlock, or executes its
      next statement; or anything else happens. */
  datatype Act = Lock | Unlock | Go | Other(e: Event)

  predicate CanAct(s: Sys, a: Act) {
    var t := s.k.current;
    !s.failed && !s.k.panic && s.m in s.k.sems && t in s.k.threads && s.k.idle in s.k.threads &&
    match a
    case Lock => At(s, t) == Out && s.k.threads[t].wait.None? && t != s.k.idle
    case Unlock => At(s, t) == Out && s.k.threads[t].wait.None?
    case Go =>
      (match At(s, t)
       case Out => false
       case LDown => Enabled(s.k, Down(s.m))
       case _ => s.k.threads[t].wait.None?)
    case Other(e) => Enabled(s.k, e) && e != Down(s.m) && e != Up(s.m)
  }

  function Goto(s: Sys, p: Pc): Sys { s.(pc := s.pc[s.k.current := p]) }

  function SetDepth(s: Sys, d: nat): Sys { s.(depth := s.depth[s.k.current := d]) }

  function Apply(s: Sys, a: Act): Sys
    requires CanAct(s, a)
  {
    match a
    case Lock => Goto(s, LTest)
    case Unlock => Goto(s, UAssert)
    case Go => Statement(s)
    case Other(e) => s.(k := Scheduler.Apply(s.k, e))
  }

  function Statement(s: Sys): Sys
    requires CanAct(s, Go)
  {
    var t := s.k.current;
    match At(s, t)
    case Out => s
    case LTest => Goto(s, if s.holder != Some(t) then LDown else LNest)
    case LDown =>
      var s1 := s.(k := SemDown(s.k, s.m));
      if s.k.sems[s.m].value > 0 then s1.(pc := s.pc[t := LCheck], inside := s.inside + {t}) else s1
    case LCheck => if s.recursion != 0 then s.(failed := true) else Goto(s, LHolder)
    case LHolder => Goto(s.(holder := Some(t)), LInc)
    case LInc => Goto(SetDepth(s.(recursion := (s.recursion + 1) % BYTE), Depth(s, t) + 1), Out)
    case LNest => Goto(SetDepth(s.(recursion := (s.recursion + 1) % BYTE), Depth(s, t) + 1), Out)
    case UAssert => Goto(s.(holder := Some(t)), UTest)
    case UTest => Goto(s, if s.recursion == 1 then UHolder else UDec)
    case UHolder => Goto(s.(holder := None), URec)
    case URec => Goto(s.(recursion := 0), UUp)
    case UUp =>
      var s1 := s.(k := SemUp(s.k, s.m), pc := s.pc[t := Out], inside := s.inside - {t});
      s1.(depth := s.depth[t := if Depth(s, t) > 0 then Depth(s, t) - 1 else 0])
    case UDec =>
      var d := if Depth(s, t) > 0 then Depth(s, t) - 1 else 0;
      Goto(SetDepth(s.(recursion := (s.recursion + BYTE - 1) % BYTE), d), Out)
  }

  // ---- The invariant ----

  /** Where the thread inside may be, and what holder and recursion then are. */
  predicate Owner(p: Pc, d: nat, holds: bool, free: bool, rec: nat) {
    match p
    case Out => d >= 1 && holds && rec == d % BYTE
    case LTest => d >= 1 && holds && rec == d % BYTE
    case LNest => d >= 1 && holds && rec == d % BYTE
    case UAssert => d >= 1 && holds && rec == d % BYTE
    case UTest => d >= 1 && holds && rec == d % BYTE
    case UDec => d > 1 && holds && rec == d % BYTE
    case LCheck => d == 0 && free && rec == 0
    case LHolder => d == 0 && free && rec == 0
    case LInc => d == 0 && holds && rec == 0
    case UHolder => d == 1 && holds
    case URec => d == 1 && free
    case UUp => d == 1 && free && rec == 0
    case LDown => false
  }

  predicate ThreadInv(s: Sys, t: Tid) {
    if t in s.inside then Owner(At(s, t), Depth(s, t), s.holder == Some(t), s.holder.None?, s.recursion)
        && Depth(s, t) <= BYTE
    else At(s, t) in {Out, LTest, LDown} && Depth(s, t) == 0 && s.holder != Some(t)
  }

  ghost predicate MutexInv(s: Sys) {
    && !s.failed && s.m in s.k.sems
    && s.k.sems[s.m].value + |s.inside| == 1
    && (s.inside == {} ==> s.holder.None? && s.recursion == 0) && s.recursion < BYTE
    && forall t :: ThreadInv(s, t)
  }

  ghost predicate Inv(s: Sys) { SchedInv(s.k) && SemInv(s.k) && MutexInv(s) }

  lemma Alone(s: set<Tid>, t: Tid, u: Tid)
    requires |s| <= 1 && t in s && u in s
    ensures t == u
  {
    assert |s - {t}| == |s| - 1 == 0;
    assert u == t || u in s - {t};
  }

  /** What callers must see to: no thread takes the lock a 257th time, and none unlocks what it has not
      locked. */
  predicate Proper(s: Sys, a: Act) {
    && (a.Go? && At(s, s.k.current) == LNest ==> Depth(s, s.k.current) < BYTE)
    && (a.Unlock? ==> Depth(s, s.k.current) > 0)
  }

  /** The kernel steps a mutex makes. */
  function KernelEvent(s: Sys, a: Act): Option<Event> {
    if a.Other? then Some(a.e)
    else if !a.Go? then None
    else if At(s, s.k.current) == LDown then Some(Down(s.m))
    else if At(s, s.k.current) == UUp then Some(Up(s.m))
    else None
  }

  /** What a step of the current thread leaves alone for everybody else. */
  predicate Undisturbed(s: Sys, q: Sys, t: Tid, u: Tid) {
    && At(q, u) == At(s, u) && Depth(q, u) == Depth(s, u) && (u in q.inside <==> u in s.inside)
    && (q.holder == s.holder || q.holder == None || q.holder == Some(t))
    && (t !in s.inside ==> q.holder == s.holder && q.recursion == s.recursion)
  }

  lemma StrangerStays(s: Sys, q: Sys, t: Tid, u: Tid)
    requires ThreadInv(s, u) && u != t && Undisturbed(s, q, t, u) && (u in s.inside ==> t !in s.inside)
    ensures ThreadInv(q, u)
  {
  }

  /** Statements that leave the kernel alone. */
  lemma LocalStep(s: Sys, a: Act)
    requires MutexInv(s) && CanAct(s, a) && Proper(s, a) && KernelEvent(s, a).None?
    ensures MutexInv(Apply(s, a)) && Apply(s, a).k == s.k && !Apply(s, a).failed
  {
    var q := Apply(s, a);
    var t := s.k.current;
    assert ThreadInv(s, t);
    LocalActor(s, a);
    LocalFrame(s, a);
    forall u ensures ThreadInv(q, u) {
      assert ThreadInv(s, u);
      if u != t {
        LocalOthers(s, a, u);
        hide *;
        if t in s.inside && u in s.inside { Alone(s.inside, t, u); }
        StrangerStays(s, q, t, u);
      }
    }
    hide Statement, ThreadInv, Enabled;
    assert s.inside != {} ==> |s.inside| > 0;
  }

  /** The current thread's own part of the invariant. */
  lemma LocalActor(s: Sys, a: Act)
    requires ThreadInv(s, s.k.current) && s.recursion < BYTE
    requires CanAct(s, a) && Proper(s, a) && KernelEvent(s, a).None?
    ensures ThreadInv(Apply(s, a), s.k.current)
  {
    hide Enabled;
    var t := s.k.current;
    if a.Go? {
      if At(s, t) in {LInc, LNest, UDec} { CountActor(s); }
    }
  }

  lemma CountActor(s: Sys)
    requires ThreadInv(s, s.k.current) && CanAct(s, Go) && Proper(s, Go) && At(s, s.k.current) in {LInc, LNest, UDec}
    ensures ThreadInv(Apply(s, Go), s.k.current)
  {
    hide Enabled;
    ByteSteps(Depth(s, s.k.current));
  }

  /** Counting the nesting in a byte. */
  lemma ByteSteps(d: nat)
    ensures (d % BYTE + 1) % BYTE == (d + 1) % BYTE
    ensures d > 0 ==> (d % BYTE + BYTE - 1) % BYTE == (d - 1) % BYTE
  {
    assert d == d / BYTE * BYTE + d % BYTE;
  }

  lemma LocalFrame(s: Sys, a: Act)
    requires ThreadInv(s, s.k.current) && s.recursion < BYTE && CanAct(s, a) && KernelEvent(s, a).None?
    ensures var q := Apply(s, a);
            && !q.failed && q.recursion < BYTE && q.k == s.k && q.inside == s.inside && q.m == s.m
            && (s.k.current !in s.inside ==> q.holder == s.holder && q.recursion == s.recursion)
  {
    hide Enabled;
  }

  lemma LocalOthers(s: Sys, a: Act, u: Tid)
    requires ThreadInv(s, s.k.current) && u != s.k.current && CanAct(s, a) && KernelEvent(s, a).None?
    ensures Undisturbed(s, Apply(s, a), s.k.current, u)
  {
    hide Enabled;
  }

  /** A change in the kernel that leaves the semaphore's value alone. */
  lemma Frame(s: Sys, q: Sys)
    requires MutexInv(s) && q == s.(k := q.k) && s.m in q.k.sems && q.k.sems[s.m].value == s.k.sems[s.m].value
    ensures MutexInv(q)
  {
    forall t ensures ThreadInv(q, t) { assert ThreadInv(s, t); }
  }

  /** A kernel step that is not the mutex's own. */
  lemma OtherStep(s: Sys, e: Event)
    requires Inv(s) && CanAct(s, Other(e)) && (e.Up? ==> s.k.sems[e.x].value < 255)
    ensures Inv(Apply(s, Other(e))) && !Apply(s, Other(e)).k.panic && !Apply(s, Other(e)).failed
  {
    KernelStep(s.k, e);
    var q := Apply(s, Other(e));
    assert SemEffect(s.k, e, q.k, s.m);
    hide SchedInv, SemInv, Scheduler.Apply, Enabled, MutexInv;
    Frame(s, q);
  }

  lemma DownStep(s: Sys)
    requires Inv(s) && CanAct(s, Go) && At(s, s.k.current) == LDown
    ensures Inv(Apply(s, Go)) && !Apply(s, Go).k.panic && !Apply(s, Go).failed
  {
    var t := s.k.current;
    KernelStep(s.k, Down(s.m));
    var q := Apply(s, Go);
    assert SemEffect(s.k, Down(s.m), q.k, s.m);
    assert ThreadInv(s, t);
    hide SchedInv, SemInv, SemDown, Effect, Enabled;
    if s.k.sems[s.m].value == 0 {
      hide MutexInv, ThreadInv;
      Frame(s, q);
    } else {
      Enter(s, q);
    }
  }

  /** Through sem_down: nobody was inside. */
  lemma Enter(s: Sys, q: Sys)
    requires MutexInv(s) && s.k.sems[s.m].value > 0 && s.k.current !in s.inside && s.m in q.k.sems
    requires q == s.(k := q.k, pc := s.pc[s.k.current := LCheck], inside := s.inside + {s.k.current})
    requires q.k.sems[s.m].value == s.k.sems[s.m].value - 1
    ensures MutexInv(q)
  {
    assert s.inside == {};
    forall u ensures ThreadInv(q, u) { assert ThreadInv(s, u); }
  }

  lemma UpStep(s: Sys)
    requires Inv(s) && CanAct(s, Go) && At(s, s.k.current) == UUp
    ensures Inv(Apply(s, Go)) && !Apply(s, Go).k.panic && !Apply(s, Go).failed
  {
    hide SemUp;
    KernelStep(s.k, Up(s.m));
    var q := Apply(s, Go);
    assert SemEffect(s.k, Up(s.m), q.k, s.m);
    assert ThreadInv(s, s.k.current);
    assert s.k.current in s.inside && q.k.sems[s.m].value == s.k.sems[s.m].value + 1;
    hide SchedInv, SemInv, SemUp, Effect, Enabled, SemEffect, MutexInv, CanAct;
    Leave(s, q);
  }

  /** Past sem_up: nobody is inside. */
  lemma Leave(s: Sys, q: Sys)
    requires MutexInv(s) && At(s, s.k.current) == UUp && s.k.current in s.inside && s.m in q.k.sems
    requires q.m == s.m && !q.failed && q.holder == s.holder && q.recursion == s.recursion
    requires q.pc == s.pc[s.k.current := Out] && q.depth == s.depth[s.k.current := 0]
    requires q.inside == s.inside - {s.k.current} && q.k.sems[s.m].value == s.k.sems[s.m].value + 1
    ensures MutexInv(q)
  {
    var t := s.k.current;
    assert ThreadInv(s, t) && |q.inside| == |s.inside| - 1;
    forall u ensures ThreadInv(q, u) {
      assert ThreadInv(s, u);
      if u != t && u in s.inside { Alone(s.inside, t, u); }
    }
  }

  /** Every step keeps the mutex; the kernel stops only if somebody raises another semaphore past 255. */
  lemma StepKeeps(s: Sys, a: Act)
    requires Inv(s) && CanAct(s, a) && Proper(s, a)
    ensures Apply(s, a).k.panic <==> a.Other? && a.e.Up? && s.k.sems[a.e.x].value == 255
    ensures !Apply(s, a).k.panic ==> Inv(Apply(s, a))
    ensures !Apply(s, a).failed
  {
    hide ThreadInv, Statement, MutexInv, SchedInv, Scheduler.Apply;
    if KernelEvent(s, a).None? {
      LocalStep(s, a);
    } else if a.Other? {
      StepKeepsSched(s.k, a.e);
      assert a.e.Up? ==> s.k.sems[a.e.x].value < BYTE;
      if !(a.e.Up? && s.k.sems[a.e.x].value == 255) { OtherStep(s, a.e); }
    } else if At(s, s.k.current) == LDown {
      DownStep(s);
    } else {
      UpStep(s);
    }
  }

  // ---- Runs ----

  /** A new mutex, as mutex_init leaves it, in a running kernel. */
  function MutexInit(k: Kernel, m: SemId): Sys { Sys(k, m, None, 0, map[], map[], {}, false) }

  lemma InitInv(k: Kernel, m: SemId)
    requires SchedInv(k) && SemInv(k) && m in k.sems && k.sems[m].value == 1
    ensures Inv(MutexInit(k, m))
  {
    forall t ensures ThreadInv(MutexInit(k, m), t) {}
  }

  ghost predicate Reaches(s: Sys, acts: seq<Act>, q: Sys)
    decreases |acts|
  {
    if acts == [] then q == s else CanAct(s, acts[0]) && Reaches(Apply(s, acts[0]), acts[1..], q)
  }

  /** Every call of the run is proper. */
  ghost predicate ProperRun(s: Sys, acts: seq<Act>)
    decreases |acts|
  {
    acts != [] && CanAct(s, acts[0]) ==> Proper(s, acts[0]) && ProperRun(Apply(s, acts[0]), acts[1..])
  }

  lemma {:induction false} RunKeeps(s: Sys, acts: seq<Act>, q: Sys)
    requires Inv(s) && Reaches(s, acts, q) && ProperRun(s, acts)
    ensures !q.failed && (!q.k.panic ==> Inv(q))
    decreases |acts|
  {
    if acts != [] {
      var m := Apply(s, acts[0]);
      hide Inv, CanAct, Proper, Apply;
      StepKeeps(s, acts[0]);
      if m.k.panic { Halted(m, acts[1..], q); } else { RunKeeps(m, acts[1..], q); }
    }
  }

  lemma Halted(s: Sys, acts: seq<Act>, q: Sys)
    requires s.k.panic && Reaches(s, acts, q)
    ensures q == s
  {
  }

  /** The mutex in every reachable state: at most one thread is past sem_down and not yet past its sem_up,
      the semaphore's value says whether there is one, the holder is that thread, outside the two functions
      recursion is its nesting depth, and a thread inside nothing holds no lock. */
  lemma MutualExclusion(k: Kernel, m: SemId, acts: seq<Act>, q: Sys, t: Tid, u: Tid)
    requires SchedInv(k) && SemInv(k) && m in k.sems && k.sems[m].value == 1
    requires Reaches(MutexInit(k, m), acts, q) && ProperRun(MutexInit(k, m), acts) && !q.k.panic
    ensures t in q.inside && u in q.inside ==> t == u
    ensures q.m in q.k.sems && q.k.sems[q.m].value == (if q.inside == {} then 1 else 0)
    ensures q.holder == Some(t) ==> t in q.inside
    ensures At(q, t) == Out && Depth(q, t) > 0 ==>
              t in q.inside && q.holder == Some(t) && q.recursion == Depth(q, t) % BYTE && Depth(q, t) <= BYTE
    ensures Depth(q, t) > 0 && Depth(q, u) > 0 ==> t == u
    ensures !q.failed
  {
    InitInv(k, m);
    RunKeeps(MutexInit(k, m), acts, q);
    hide SchedInv, SemInv, Reaches, ProperRun;
    assert ThreadInv(q, t) && ThreadInv(q, u);
    if t in q.inside && u in q.inside { Alone(q.inside, t, u); }
    if q.inside != {} {
      var v :| v in q.inside;
      assert |q.inside - {v}| == |q.inside| - 1;
    }
  }

  // ---- The limits of the guarantees ----

  /** A call of mutex_unlock keeps the invariant if and only if the caller holds a lock; and that is exactly
      when the comparison meant by its assertion would pass, and when the assignment it makes is harmless. */
  lemma UnlockKeepsIff(s: Sys)
    requires Inv(s) && CanAct(s, Unlock)
    ensures MutexInv(Apply(s, Unlock)) <==> Depth(s, s.k.current) > 0
    ensures s.holder == Some(s.k.current) <==> Depth(s, s.k.current) > 0
    ensures CanAct(Apply(s, Unlock), Go)
    ensures Apply(Apply(s, Unlock), Go).holder == s.holder <==> Depth(s, s.k.current) > 0
  {
    var t := s.k.current;
    assert ThreadInv(s, t);
    hide SchedInv, SemInv, Enabled;
    if Depth(s, t) > 0 {
      LocalStep(s, Unlock);
    } else {
      assert !ThreadInv(Apply(s, Unlock), t);
    }
  }

  /** The current thread executes its next n statements undisturbed. */
  function GoOn(s: Sys, n: nat): Sys
    decreases n
  {
    if n > 0 && CanAct(s, Go) then GoOn(Apply(s, Go), n - 1) else s
  }

  lemma {:induction false} GoOnAdd(s: Sys, m: nat, n: nat)
    ensures GoOn(s, m + n) == GoOn(GoOn(s, m), n)
    decreases m
  {
    hide CanAct, Apply;
    if m > 0 {
      if CanAct(s, Go) { GoOnAdd(Apply(s, Go), m - 1, n); } else { assert GoOn(s, n) == s; }
    }
  }

  lemma GotoTwice(s: Sys, p: Pc, q: Pc)
    ensures Goto(Goto(s, p), q) == Goto(s, q)
  {
    assert s.pc[s.k.current := p][s.k.current := q] == s.pc[s.k.current := q];
  }

  lemma UnlockFirstHalf(s: Sys)
    requires CanAct(s, Go) && At(s, s.k.current) == UAssert
    ensures var q := Goto(s.(holder := Some(s.k.current)), if s.recursion == 1 then UHolder else UDec);
            CanAct(q, Go) && forall n: nat :: GoOn(s, n + 2) == GoOn(q, n)
  {
    hide SemUp, SemDown, Scheduler.Apply;
    var h := s.(holder := Some(s.k.current));
    var s1 := Goto(h, UTest);
    var p := if s.recursion == 1 then UHolder else UDec;
    GotoTwice(h, UTest, p);
    assert Apply(s, Go) == s1 && CanAct(s1, Go);
    assert Apply(s1, Go) == Goto(h, p) && CanAct(Goto(h, p), Go);
    forall n: nat ensures GoOn(s, n + 2) == GoOn(Goto(h, p), n) {
      assert GoOn(s, n + 2) == GoOn(s1, n + 1) == GoOn(Goto(h, p), n);
    }
  }

  lemma UnlockSecondHalf(s: Sys)
    requires CanAct(s, Go) && At(s, s.k.current) == UHolder
    ensures var q := Goto(s.(holder := None, recursion := 0), UUp); CanAct(q, Go) && GoOn(s, 2) == q
  {
    hide SemUp, SemDown, Scheduler.Apply;
    var s1 := Goto(s.(holder := None), URec);
    GotoTwice(s.(holder := None, recursion := 0), URec, UUp);
    assert Apply(s, Go) == s1 && CanAct(s1, Go);
    assert GoOn(s, 2) == GoOn(s1, 1);
  }

  /** With recursion at 1, mutex_unlock raises the semaphore, whoever calls it and however deep. */
  lemma UnlockAtOne(s: Sys)
    requires CanAct(s, Go) && At(s, s.k.current) == UAssert && s.recursion == 1
    ensures GoOn(s, 4) == Goto(s.(holder := None, recursion := 0), UUp) && CanAct(GoOn(s, 4), Go)
  {
    hide GoOn, CanAct;
    UnlockFirstHalf(s);
    assert GoOn(s, 2 + 2) == GoOn(Goto(s.(holder := Some(s.k.current)), UHolder), 2);
    UnlockSecondHalf(Goto(s.(holder := Some(s.k.current)), UHolder));
    GotoTwice(s.(holder := None, recursion := 0), UHolder, UUp);
  }

  /** What mutex_unlock leaves when it only counts down. */
  function CountedDown(s: Sys): Sys {
    var d := if Depth(s, s.k.current) > 0 then Depth(s, s.k.current) - 1 else 0;
    Goto(SetDepth(s.(holder := Some(s.k.current), recursion := (s.recursion + BYTE - 1) % BYTE), d), Out)
  }

  /** With recursion at any other value it only counts down, by one, modulo 256. */
  lemma UnlockElsewhere(s: Sys)
    requires CanAct(s, Go) && At(s, s.k.current) == UAssert && s.recursion != 1
    ensures GoOn(s, 3) == CountedDown(s) && !CanAct(GoOn(s, 3), Go)
  {
    hide GoOn, SemUp, SemDown, Scheduler.Apply;
    UnlockFirstHalf(s);
    var q := Goto(s.(holder := Some(s.k.current)), UDec);
    assert GoOn(s, 1 + 2) == GoOn(q, 1);
    GotoTwice(CountedDown(s), UDec, Out);
    assert Apply(q, Go) == CountedDown(s) by {
      assert q.pc[s.k.current := Out] == s.pc[s.k.current := Out];
    }
    GoOnOne(q);
  }

  lemma GoOnOne(s: Sys)
    requires CanAct(s, Go)
    ensures GoOn(s, 1) == Apply(s, Go)
  {
    assert GoOn(Apply(s, Go), 0) == Apply(s, Go);
  }

  /** The last statement of a releasing mutex_unlock. */
  lemma UpRaises(s: Sys)
    requires CanAct(s, Go) && At(s, s.k.current) == UUp && SchedInv(s.k) && s.k.sems[s.m].value == 0
    ensures var q := Apply(s, Go);
            && !q.k.panic && SchedInv(q.k) && q.k.current == s.k.current && q.k.idle == s.k.idle
            && q.m == s.m && q.m in q.k.sems && q.k.sems[q.m].value == 1
            && q.k.threads.Keys == s.k.threads.Keys && q.k.threads[q.k.current].wait == s.k.threads[s.k.current].wait
            && q.inside == s.inside - {s.k.current} && q.holder == s.holder && q.recursion == s.recursion && !q.failed
            && At(q, s.k.current) == Out
            && Depth(q, s.k.current) == (if Depth(s, s.k.current) > 0 then Depth(s, s.k.current) - 1 else 0)
  {
    UpEffect(s.k, s.m);
    UpKeepsSched(s.k, s.m);
    assert SemEffect(s.k, Up(s.m), SemUp(s.k, s.m), s.m);
    hide SemUp, SchedInv, SemEffect, Enabled;
  }

  /** For a caller that keeps to at most 256 levels, mutex_unlock undoes one mutex_lock, and gives the mutex
      back if and only if it was the last. */
  lemma UnlockReleasesIff(s: Sys)
    requires Inv(s) && CanAct(s, Unlock) && Depth(s, s.k.current) > 0
    ensures var t := s.k.current;
            var q := GoOn(Apply(s, Unlock), 5);
            && Depth(q, t) == Depth(s, t) - 1 && At(q, t) == Out
            && (t !in q.inside <==> Depth(s, t) == 1) && (Depth(s, t) == 1 ==> q.holder.None? && q.recursion == 0)
            && q.m in q.k.sems && q.k.sems[q.m].value == (if Depth(s, t) == 1 then 1 else 0)
  {
    var t := s.k.current;
    var s1 := Apply(s, Unlock);
    assert ThreadInv(s, t);
    assert s.inside != {} && s.k.sems[s.m].value == 0;
    hide SemInv, Enabled, SchedInv, MutexInv, GoOn;
    assert CanAct(s1, Go) && At(s1, t) == UAssert && s1.k == s.k;
    assert s1.inside == s.inside && Depth(s1, t) == Depth(s, t);
    if Depth(s, t) == 1 {
      UnlockAtOne(s1);
      GoOnAdd(s1, 4, 1);
      GoOnOne(GoOn(s1, 4));
      UpRaises(GoOn(s1, 4));
    } else {
      UnlockElsewhere(s1);
      GoOnAdd(s1, 3, 2);
      GoOnStops(GoOn(s1, 3), 2);
    }
  }

  lemma GoOnStops(s: Sys, n: nat)
    requires !CanAct(s, Go)
    ensures GoOn(s, n) == s
  {
  }

  // ---- Runs that break the exclusion ----

  lemma {:induction false} ReachesTrans(s: Sys, a: seq<Act>, m: Sys, b: seq<Act>, q: Sys)
    requires Reaches(s, a, m) && Reaches(m, b, q)
    ensures Reaches(s, a + b, q)
    decreases |a|
  {
    hide CanAct, Apply;
    if a == [] {
      assert a + b == b;
    } else {
      assert (a + b)[0] == a[0] && (a + b)[1..] == a[1..] + b;
      ReachesTrans(Apply(s, a[0]), a[1..], m, b, q);
    }
  }

  lemma OneStep(s: Sys, a: Act)
    requires CanAct(s, a)
    ensures Reaches(s, [a], Apply(s, a))
  {
    hide CanAct, Apply;
    assert [a][1..] == [];
    assert Reaches(Apply(s, a), [], Apply(s, a));
  }

  /** A run with one act more. */
  lemma Extend(s: Sys, a: seq<Act>, m: Sys, b: Act) returns (c: seq<Act>)
    requires Reaches(s, a, m) && CanAct(m, b)
    ensures Reaches(s, c, Apply(m, b))
  {
    hide CanAct, Apply;
    OneStep(m, b);
    ReachesTrans(s, a, m, [b], Apply(m, b));
    c := a + [b];
  }

  /** Undisturbed statements are a run. */
  lemma {:induction false} GoOnRun(s: Sys, n: nat) returns (acts: seq<Act>)
    ensures Reaches(s, acts, GoOn(s, n))
    decreases n
  {
    hide CanAct, Apply;
    acts := [];
    if n > 0 && CanAct(s, Go) {
      acts := GoOnRun(Apply(s, Go), n - 1);
      OneStep(s, Go);
      ReachesTrans(s, [Go], Apply(s, Go), acts, GoOn(s, n));
      acts := [Go] + acts;
    }
  }

  /** The current thread is at rest outside the two functions. */
  predicate AtRest(s: Sys) {
    var t := s.k.current;
    && !s.failed && !s.k.panic && s.m in s.k.sems && t in s.k.threads && s.k.idle in s.k.threads && t != s.k.idle
    && At(s, t) == Out && s.k.threads[t].wait.None?
  }

  /** Taking a free mutex: the seven steps of a first mutex_lock up to the holder's test and sem_down. */
  lemma LockTakes(s: Sys) returns (acts: seq<Act>, q: Sys)
    requires AtRest(s) && s.holder != Some(s.k.current) && s.k.sems[s.m].value == 1
    ensures Reaches(s, acts, q) && q.inside == s.inside + {s.k.current}
    ensures q == Goto(s.(k := SemDown(s.k, s.m), inside := s.inside + {s.k.current}), LCheck)
  {
    var t := s.k.current;
    var s1, s2 := Goto(s, LTest), Goto(s, LDown);
    GotoTwice(s, LTest, LDown);
    assert CanAct(s, Lock) && Apply(s, Lock) == s1;
    assert CanAct(s1, Go) && Apply(s1, Go) == s2;
    assert CanAct(s2, Go) && s2.k.sems[s.m].value > 0;
    q := Goto(s.(k := SemDown(s.k, s.m), inside := s.inside + {t}), LCheck);
    assert Apply(s2, Go).pc == q.pc by { assert s.pc[t := LDown][t := LCheck] == s.pc[t := LCheck]; }
    assert Apply(s2, Go) == q;
    hide CanAct, Apply, SemDown;
    OneStep(s, Lock);
    acts := Extend(s, [Lock], s1, Go);
    acts := Extend(s, acts, s2, Go);
  }

  lemma UnlockCall(s: Sys)
    requires AtRest(s)
    ensures var q := Apply(s, Unlock);
            CanAct(s, Unlock) && CanAct(q, Go) && At(q, s.k.current) == UAssert && q == s.(pc := q.pc)
            && q.pc == s.pc[s.k.current := UAssert]
  {
  }

  /** A stranger's mutex_unlock with recursion at 1, and then its mutex_lock. */
  lemma StrangerSteals(s: Sys) returns (acts: seq<Act>, q: Sys)
    requires AtRest(s) && SchedInv(s.k) && s.k.sems[s.m].value == 0 && s.k.current !in s.inside && s.recursion == 1
    ensures Reaches(s, acts, q) && q.inside == s.inside + {s.k.current}
  {
    hide CanAct, Apply, GoOn, Reaches, SchedInv;
    UnlockCall(s);
    var s1 := Apply(s, Unlock);
    OneStep(s, Unlock);
    UnlockAtOne(s1);
    var s5 := GoOn(s1, 4);
    var a := GoOnRun(s1, 4);
    ReachesTrans(s, [Unlock], s1, a, s5);
    UpRaises(s5);
    var b := Extend(s, [Unlock] + a, s5, Go);
    var s6 := Apply(s5, Go);
    var c;
    c, q := LockTakes(s6);
    ReachesTrans(s, b, s6, c, q);
    acts := b + c;
  }

  /** Its mutex_unlock otherwise. */
  lemma StrangerCounts(s: Sys) returns (acts: seq<Act>)
    requires AtRest(s) && s.recursion != 1
    ensures Reaches(s, acts, CountedDown(s))
  {
    hide CanAct, Apply, GoOn, Reaches;
    UnlockCall(s);
    var s1 := Apply(s, Unlock);
    OneStep(s, Unlock);
    UnlockElsewhere(s1);
    var a := GoOnRun(s1, 3);
    ReachesTrans(s, [Unlock], s1, a, GoOn(s1, 3));
    acts := [Unlock] + a;
    assert CountedDown(s1) == CountedDown(s) by {
      assert s.pc[s.k.current := UAssert][s.k.current := Out] == s.pc[s.k.current := Out];
    }
  }

  /** However deep the holder is, a thread that goes on unlocking what it does not hold gets in beside it. */
  lemma {:induction false} StrangerGetsIn(s: Sys) returns (acts: seq<Act>, q: Sys)
    requires AtRest(s) && SchedInv(s.k) && s.k.sems[s.m].value == 0 && s.k.current !in s.inside && s.recursion < BYTE
    ensures Reaches(s, acts, q) && q.inside == s.inside + {s.k.current}
    decreases (s.recursion + BYTE - 1) % BYTE
  {
    hide Reaches, SchedInv;
    if s.recursion == 1 {
      acts, q := StrangerSteals(s);
    } else {
      var a := StrangerCounts(s);
      var s4 := CountedDown(s);
      var b;
      b, q := StrangerGetsIn(s4);
      ReachesTrans(s, a, s4, b, q);
      acts := a + b;
    }
  }

  /** From any state the mutex can be in with a thread inside, another thread that calls mutex_unlock without
      holding a lock can bring about that both are inside. */
  lemma StrangerUnlockBreaks(s: Sys, u: Tid)
    requires Inv(s) && u in s.inside && s.k.current != u && AtRest(s)
    ensures Depth(s, s.k.current) == 0
    ensures exists acts: seq<Act>, q: Sys ::
              Reaches(s, acts, q) && u in q.inside && s.k.current in q.inside && |q.inside| == 2
  {
    var t := s.k.current;
    assert ThreadInv(s, t);
    if t in s.inside { Alone(s.inside, t, u); }
    var acts, q := StrangerGetsIn(s);
    assert |s.inside + {t}| == |s.inside| + 1;
    assert |s.inside| > 0;
  }

  /** From any state the mutex can be in with nobody inside, a mutex_unlock leaves the caller as its holder with
      recursion at 255, and the semaphore free. */
  lemma FreeUnlock(s: Sys) returns (acts: seq<Act>)
    requires Inv(s) && AtRest(s) && s.inside == {}
    ensures var q := CountedDown(s);
            && Reaches(s, acts, q) && AtRest(q) && q.k == s.k && q.inside == {} && Depth(q, s.k.current) == 0
            && q.holder == Some(s.k.current) && q.recursion == 255 && q.k.sems[q.m].value == 1
  {
    assert ThreadInv(s, s.k.current);
    hide SchedInv, SemInv, Reaches;
    acts := StrangerCounts(s);
  }

  /** The caller's own next mutex_lock then skips sem_down: it returns with a lock and the mutex still free. */
  lemma FreeUnlockSkips(s: Sys)
    requires Inv(s) && AtRest(s) && s.inside == {}
    ensures exists acts: seq<Act>, q: Sys ::
              && Reaches(s, acts, q) && q.k.current == s.k.current && At(q, s.k.current) == Out
              && Depth(q, s.k.current) == 1 && q.inside == {} && q.m in q.k.sems && q.k.sems[q.m].value == 1
  {
    var t := s.k.current;
    var a := FreeUnlock(s);
    hide Inv, Reaches;
    var m := CountedDown(s);
    var b, q := LockNests(m);
    ReachesTrans(s, a, m, b, q);
  }

  lemma LockNests(s: Sys) returns (acts: seq<Act>, q: Sys)
    requires AtRest(s) && s.holder == Some(s.k.current)
    ensures Reaches(s, acts, q) && At(q, s.k.current) == Out
    ensures q == s.(recursion := (s.recursion + 1) % BYTE, pc := q.pc,
                    depth := s.depth[s.k.current := Depth(s, s.k.current) + 1])
  {
    hide SemDown, SemUp, Scheduler.Apply;
    var s1, s2 := Goto(s, LTest), Goto(s, LNest);
    GotoTwice(s, LTest, LNest);
    assert CanAct(s, Lock) && Apply(s, Lock) == s1;
    assert CanAct(s1, Go) && Apply(s1, Go) == s2 && CanAct(s2, Go);
    q := Apply(s2, Go);
    assert q.pc == s.pc[s.k.current := Out] by { assert s2.pc[s.k.current := Out] == s.pc[s.k.current := Out]; }
    hide CanAct, Apply;
    OneStep(s, Lock);
    acts := Extend(s, [Lock], s1, Go);
    acts := Extend(s, acts, s2, Go);
  }

  /** And the next mutex_lock by another thread stops the kernel: its assertion recursion == 0 fails. */
  lemma FreeUnlockFails(s: Sys, u: Tid)
    requires Inv(s) && AtRest(s) && s.inside == {} && s.k.ready != [] && s.k.ready[0] == u
    requires u != s.k.idle && u in s.k.threads && s.k.threads[u].wait.None? && At(s, u) == Out
    ensures exists acts: seq<Act>, q: Sys :: Reaches(s, acts, q) && q.failed
  {
    var a := FreeUnlock(s);
    var m := CountedDown(s);
    var m1 := YieldTo(m, u);
    hide Inv, Reaches, SchedInv;
    a := Extend(s, a, m, Other(Yield));
    var b, m2 := LockTakes(m1);
    ReachesTrans(s, a, m1, b, m2);
    CheckFails(m2);
    var c := Extend(s, a + b, m2, Go);
  }

  lemma YieldTo(s: Sys, u: Tid) returns (q: Sys)
    requires SchedInv(s.k) && AtRest(s) && s.k.ready != [] && s.k.ready[0] == u && u in s.k.threads
    requires u != s.k.idle && s.k.threads[u].wait.None? && At(s, u) == Out
    ensures u != s.k.current && CanAct(s, Other(Yield)) && q == Apply(s, Other(Yield))
    ensures q == s.(k := q.k) && AtRest(q) && q.k.current == u && q.k.sems == s.k.sems && SchedInv(q.k)
  {
    CurrentUnqueued(s.k);
    YieldOrder(s.k);
    YieldKeepsSched(s.k);
    q := s.(k := ThreadYield(s.k));
    assert SameThread(s.k, q.k, u);
    hide ReadyOk, WaitersOk, ThreadsOk, AllOk, ThreadYield;
  }

  lemma CheckFails(s: Sys)
    requires !s.failed && !s.k.panic && s.m in s.k.sems && s.k.current in s.k.threads && s.k.idle in s.k.threads
    requires At(s, s.k.current) == LCheck && s.k.threads[s.k.current].wait.None? && s.recursion != 0
    ensures CanAct(s, Go) && Apply(s, Go).failed
  {
  }

  /** Thread t holds the mutex n deep and is at rest. */
  ghost predicate Nested(s: Sys, t: Tid, n: nat) {
    && AtRest(s) && s.k.current == t && SchedInv(s.k) && t in s.inside && s.holder == Some(t)
    && Depth(s, t) == n && s.recursion == n % BYTE && s.k.sems[s.m].value == 0
  }

  /** A first mutex_lock. */
  lemma LockOnce(s: Sys) returns (acts: seq<Act>, q: Sys)
    requires AtRest(s) && SchedInv(s.k) && s.holder.None? && s.recursion == 0 && Depth(s, s.k.current) == 0
    requires s.k.sems[s.m].value == 1
    ensures Reaches(s, acts, q) && Nested(q, s.k.current, 1)
  {
    var t := s.k.current;
    var s1;
    acts, s1 := LockTakes(s);
    assert Enabled(s.k, Down(s.m));
    DownKeepsSched(s.k, s.m);
    assert s1.k.current == t && s1.k.idle == s.k.idle && s1.k.threads[t].wait == None && s1.k.sems[s.m].value == 0;
    hide SemDown, Reaches, SchedInv, Enabled;
    LockRest(s1);
    var a := GoOnRun(s1, 3);
    q := GoOn(s1, 3);
    ReachesTrans(s, acts, s1, a, q);
    acts := acts + a;
  }

  lemma LockRest(s: Sys)
    requires !s.failed && !s.k.panic && s.m in s.k.sems && s.k.current in s.k.threads && s.k.idle in s.k.threads
    requires At(s, s.k.current) == LCheck && s.k.threads[s.k.current].wait.None? && s.recursion == 0
    ensures var t := s.k.current;
            var q := GoOn(s, 3);
            && q == s.(holder := Some(t), recursion := 1, pc := q.pc, depth := s.depth[t := Depth(s, t) + 1])
            && At(q, t) == Out
  {
    var t := s.k.current;
    var s1, s2 := Goto(s, LHolder), Goto(s.(holder := Some(t)), LInc);
    GotoTwice(s.(holder := Some(t)), LHolder, LInc);
    assert Apply(s, Go) == s1 && CanAct(s, Go) && CanAct(s1, Go);
    assert Apply(s1, Go) == s2 && CanAct(s2, Go);
    assert GoOn(s, 3) == GoOn(s1, 2) == GoOn(s2, 1);
    GoOnOne(s2);
  }

  /** One more mutex_lock by the holder. */
  lemma LockAgain(s: Sys, t: Tid, n: nat) returns (acts: seq<Act>, q: Sys)
    requires Nested(s, t, n)
    ensures Reaches(s, acts, q) && Nested(q, t, n + 1)
  {
    hide Reaches, SchedInv;
    acts, q := LockNests(s);
    ByteSteps(n);
  }

  lemma {:induction false} LockUpTo(s: Sys, t: Tid, n: nat, d: nat) returns (acts: seq<Act>, q: Sys)
    requires Nested(s, t, n) && n <= d
    ensures Reaches(s, acts, q) && Nested(q, t, d)
    decreases d - n
  {
    hide Nested, CanAct, Apply;
    acts, q := [], s;
    if n < d {
      var a, s1 := LockAgain(s, t, n);
      var b;
      b, q := LockUpTo(s1, t, n + 1, d);
      ReachesTrans(s, a, s1, b, q);
      acts := a + b;
    }
  }

  /** From a new mutex, a thread that nests 257 locks and unlocks once has given the mutex away with 256 locks
      still held: the next thread may enter. */
  lemma DeepNestingBreaks(k: Kernel, m: SemId)
    requires SchedInv(k) && m in k.sems && k.sems[m].value == 1
    requires k.current != k.idle && k.threads[k.current].wait.None?
    ensures exists acts: seq<Act>, q: Sys ::
              && Reaches(MutexInit(k, m), acts, q) && Depth(q, k.current) == 256 && k.current !in q.inside
              && q.holder.None? && q.m in q.k.sems && q.k.sems[q.m].value == 1
  {
    var t := k.current;
    var s := MutexInit(k, m);
    var a, s1 := LockOnce(s);
    var b, s2 := LockUpTo(s1, t, 1, 257);
    ReachesTrans(s, a, s1, b, s2);
    var c, q := UnlockDeep(s2, t);
    hide SchedInv, Nested;
    ReachesTrans(s, a + b, s2, c, q);
  }

  lemma UnlockDeep(s: Sys, t: Tid) returns (acts: seq<Act>, q: Sys)
    requires Nested(s, t, 257)
    ensures Reaches(s, acts, q) && Depth(q, t) == 256 && t !in q.inside && q.holder.None?
    ensures q.m in q.k.sems && q.k.sems[q.m].value == 1
  {
    var s1 := Apply(s, Unlock);
    UnlockCall(s);
    hide CanAct, Apply, GoOn, Reaches, SchedInv;
    OneStep(s, Unlock);
    UnlockAtOne(s1);
    var s5 := GoOn(s1, 4);
    var a := GoOnRun(s1, 4);
    ReachesTrans(s, [Unlock], s1, a, s5);
    UpRaises(s5);
    q := Apply(s5, Go);
    acts := Extend(s, [Unlock] + a, s5, Go);
  }
}
