/** The bounded buffer of device/io_queue.c, statement by statement, on top of the scheduler: any number
    of producers and consumers, any interleaving, including an interrupt handler's operation on top of a
    thread in the middle of its own. */
module IoQueues {
  import opened Wrappers
  import opened Scheduler
  import opened SchedulerProofs
  import opened Semaphores
  import opened KernelRuns

  const BUF_SIZE: nat := 64

  /** The statement an operation is about to execute, with the character it carries. */
  datatype Pc = Out
    | PSlots(c: char) | PMutex(c: char) | PWrite(c: char) | PRear | PUpMutex | PUpItems
    | CItems | CMutex | CRead | CFront(c: char) | CUpMutex(c: char) | CUpSlots(c: char)

  /** An operation in progress: the n-th of a thread, counting from 1; the last one runs. */
  type Op = (Tid, nat)

  /** The queue over three semaphores of the kernel.  `level` counts the operations in progress of each
      thread.  `written` and `read` are history: the characters that went into and came out of the buffer,
      in order. */
  datatype Queue = Queue(
    k: Kernel, slots: SemId, items: SemId, mutex: SemId,
    buffer: seq<char>, front: nat, rear: nat,
    pc: map<Op, Pc>, level: map<Tid, nat>, written: seq<char>, read: seq<char>)

  function At(s: Queue, f: Op): Pc { if f in s.pc then s.pc[f] else Out }

  function Level(s: Queue, t: Tid): nat { if t in s.level then s.level[t] else 0 }

  /** The operation the current thread is in. */
  function Cur(s: Queue): Op { (s.k.current, Level(s, s.k.current)) }

  /** The current thread calls putchar or getchar, perhaps from an interrupt, or executes its next
      statement; or anything else happens. */
  datatype Act = Put(c: char) | Get | Go | Other(e: Event)

  /** The semaphore operation a thread at p executes. */
  function SemEvent(s: Queue, p: Pc): Option<Event> {
    match p
    case PSlots(_) => Some(Down(s.slots))
    case PMutex(_) => Some(Down(s.mutex))
    case PUpMutex => Some(Up(s.mutex))
    case PUpItems => Some(Up(s.items))
    case CItems => Some(Down(s.items))
    case CMutex => Some(Down(s.mutex))
    case CUpMutex(_) => Some(Up(s.mutex))
    case CUpSlots(_) => Some(Up(s.slots))
    case _ => None
  }

  predicate Own(s: Queue, x: SemId) { x == s.slots || x == s.items || x == s.mutex }

  predicate Shaped(s: Queue) {
    && s.slots != s.items && s.items != s.mutex && s.mutex != s.slots
    && s.slots in s.k.sems && s.items in s.k.sems && s.mutex in s.k.sems
    && |s.buffer| == BUF_SIZE && s.front < BUF_SIZE && s.rear < BUF_SIZE
  }

  function Called(s: Queue): Op { (s.k.current, Level(s, s.k.current) + 1) }

  predicate CanAct(s: Queue, a: Act) {
    var t := s.k.current;
    Shaped(s) && !s.k.panic && t in s.k.threads && s.k.idle in s.k.threads &&
    match a
    case Put(_) => At(s, Called(s)) == Out && s.k.threads[t].wait.None?
    case Get => At(s, Called(s)) == Out && s.k.threads[t].wait.None? && t != s.k.idle
    case Go =>
      (match SemEvent(s, At(s, Cur(s)))
       case Some(e) => Enabled(s.k, e)
       case None => At(s, Cur(s)) != Out && s.k.threads[t].wait.None?)
    case Other(e) => Enabled(s.k, e) && ((e.Down? || e.Up?) ==> !Own(s, e.x))
  }

  function Goto(s: Queue, p: Pc): Queue { s.(pc := s.pc[Cur(s) := p]) }

  /** A call puts a new operation on top. */
  function Call(s: Queue, p: Pc): Queue {
    s.(pc := s.pc[Called(s) := p], level := s.level[s.k.current := Level(s, s.k.current) + 1])
  }

  /** A return takes it off. */
  function Return(s: Queue, p: Pc): map<Tid, nat> {
    if p == Out && Level(s, s.k.current) > 0 then s.level[s.k.current := Level(s, s.k.current) - 1] else s.level
  }

  /** The statement after a semaphore operation; a thread that had to sleep is where it was. */
  function Next(s: Queue, p: Pc): Pc {
    match p
    case PSlots(c) => PMutex(c)
    case PMutex(c) => PWrite(c)
    case PUpMutex => PUpItems
    case PUpItems => Out
    case CItems => CMutex
    case CMutex => CRead
    case CUpMutex(c) => CUpSlots(c)
    case CUpSlots(_) => Out
    case _ => p
  }

  function Apply(s: Queue, a: Act): Queue
    requires CanAct(s, a)
  {
    match a
    case Put(c) => Call(s, PSlots(c))
    case Get => Call(s, CItems)
    case Go =>
      (match SemEvent(s, At(s, Cur(s)))
       case Some(e) => SemStatement(s, e)
       case None => Statement(s))
    case Other(e) => s.(k := Scheduler.Apply(s.k, e))
  }

  function SemStatement(s: Queue, e: Event): Queue
    requires Enabled(s.k, e) && (e.Down? || e.Up?)
  {
    var s1 := s.(k := Scheduler.Apply(s.k, e));
    if e.Down? && s.k.sems[e.x].value == 0 then s1
    else
      var p := Next(s, At(s, Cur(s)));
      s1.(pc := s.pc[Cur(s) := p], level := Return(s, p))
  }

  /** The statements on the buffer and its indices. */
  function Statement(s: Queue): Queue
    requires Shaped(s)
  {
    match At(s, Cur(s))
    case PWrite(c) => Goto(s.(buffer := s.buffer[s.rear := c], written := s.written + [c]), PRear)
    case PRear => Goto(s.(rear := (s.rear + 1) % BUF_SIZE), PUpMutex)
    case CRead => Goto(s.(read := s.read + [s.buffer[s.front]]), CFront(s.buffer[s.front]))
    case CFront(c) => Goto(s.(front := (s.front + 1) % BUF_SIZE), CUpMutex(c))
    case _ => s
  }

  // ---- Counting operations by where they are ----

  datatype Region = Writing | Filled | Reading | Emptied | Critical | AtRear | AtFront

  /** Writing: holds a slot not yet written.  Filled: has written, has not raised items.  Reading: holds
      an item not yet read.  Emptied: has read, has not raised slots.  Critical: holds the mutex. */
  predicate In(p: Pc, r: Region) {
    match r
    case Writing => p.PMutex? || p.PWrite?
    case Filled => p.PRear? || p.PUpMutex? || p.PUpItems?
    case Reading => p.CMutex? || p.CRead?
    case Emptied => p.CFront? || p.CUpMutex? || p.CUpSlots?
    case Critical => p.PWrite? || p.PRear? || p.PUpMutex? || p.CRead? || p.CFront? || p.CUpMutex?
    case AtRear => p.PRear?
    case AtFront => p.CFront?
  }

  ghost function Ops(pc: map<Op, Pc>, r: Region): set<Op> { set t | t in pc && In(pc[t], r) }

  ghost function Count(pc: map<Op, Pc>, r: Region): nat { |Ops(pc, r)| }

  function One(b: bool): nat { if b then 1 else 0 }

  lemma SetMove(a: set<Op>, b: set<Op>, t: Op)
    requires a - {t} == b - {t}
    ensures |b| + One(t in a) == |a| + One(t in b)
  {
    assert |a| == |a - {t}| + One(t in a) && |b| == |b - {t}| + One(t in b);
  }

  lemma CountMove(pc: map<Op, Pc>, t: Op, p: Pc, r: Region)
    ensures Count(pc[t := p], r) + One(In(if t in pc then pc[t] else Out, r)) == Count(pc, r) + One(In(p, r))
  {
    assert !In(Out, r);
    hide In;
    SetMove(Ops(pc, r), Ops(pc[t := p], r), t);
  }

  lemma CountOne(pc: map<Op, Pc>, t: Op, u: Op, r: Region)
    requires Count(pc, r) <= 1 && t in Ops(pc, r) && u in Ops(pc, r)
    ensures t == u
  {
    var a := Ops(pc, r);
    assert |a - {t}| == |a| - 1 == 0;
    assert u == t || u in a - {t};
  }

  lemma Subset(a: set<Op>, b: set<Op>)
    requires a <= b
    ensures |a| <= |b|
  {
    assert b == a + (b - a);
  }

  // ---- The invariant ----

  /** Each semaphore counts what its comment says, up to the operations in flight. */
  ghost predicate Counts(s: Queue)
    requires Shaped(s)
  {
    && s.k.sems[s.mutex].value + Count(s.pc, Critical) == 1
    && s.k.sems[s.items].value + Count(s.pc, Filled) + Count(s.pc, Reading) + |s.read| == |s.written|
    && s.k.sems[s.slots].value + Count(s.pc, Writing) + Count(s.pc, Emptied) + |s.written| == BUF_SIZE + |s.read|
  }

  /** The unread characters are in the buffer, at front .. rear modulo 64; while an operation is about to move
      an index, that index is one behind. */
  ghost predicate Contents(s: Queue)
    requires Shaped(s)
  {
    && |s.read| <= |s.written| <= |s.read| + BUF_SIZE
    && s.read == s.written[..|s.read|]
    && (forall i :: |s.read| <= i < |s.written| ==> s.buffer[i % BUF_SIZE] == s.written[i])
    && Count(s.pc, AtFront) <= |s.read| && s.front == (|s.read| - Count(s.pc, AtFront)) % BUF_SIZE
    && Count(s.pc, AtRear) <= |s.written| && s.rear == (|s.written| - Count(s.pc, AtRear)) % BUF_SIZE
  }

  ghost predicate Inv(s: Queue) { SchedInv(s.k) && SemInv(s.k) && Shaped(s) && Counts(s) && Contents(s) }

  /** A kernel step that touches none of the three semaphores' values. */
  lemma SameValues(s: Queue, q: Queue)
    requires Shaped(s) && Counts(s) && Contents(s) && q == s.(k := q.k) && s.k.sems.Keys == q.k.sems.Keys
    requires forall x :: Own(s, x) ==> q.k.sems[x].value == s.k.sems[x].value
    ensures Shaped(q) && Counts(q) && Contents(q)
  {
    assert Own(s, s.slots) && Own(s, s.items) && Own(s, s.mutex);
  }

  lemma OwnValues(s: Queue, e: Event, k: Kernel)
    requires Shaped(s) && Effect(s.k, e, k) && ((e.Down? || e.Up?) ==> !Own(s, e.x))
    ensures forall x :: Own(s, x) ==> x in k.sems && k.sems[x].value == s.k.sems[x].value
    ensures k.sems.Keys == s.k.sems.Keys
  {
    forall x | Own(s, x) ensures x in k.sems && k.sems[x].value == s.k.sems[x].value {
      assert SemEffect(s.k, e, k, x);
    }
  }

  lemma OtherStep(s: Queue, e: Event)
    requires Inv(s) && CanAct(s, Other(e)) && (e.Up? ==> s.k.sems[e.x].value < 255)
    ensures Inv(Apply(s, Other(e))) && !Apply(s, Other(e)).k.panic
  {
    hide SchedInv, SemInv, Scheduler.Apply, Counts, Contents;
    KernelStep(s.k, e);
    var q := Apply(s, Other(e));
    OwnValues(s, e, q.k);
    hide Effect, Enabled, Own;
    SameValues(s, q);
  }

  /** The pc moves and the semaphores do not. */
  lemma Moved(s: Queue, q: Queue, p: Pc)
    requires q.pc == s.pc[Cur(s) := p]
    ensures forall r :: Count(q.pc, r) + One(In(At(s, Cur(s)), r)) == Count(s.pc, r) + One(In(p, r))
  {
    forall r ensures Count(q.pc, r) + One(In(At(s, Cur(s)), r)) == Count(s.pc, r) + One(In(p, r)) {
      CountMove(s.pc, Cur(s), p, r);
    }
  }

  lemma CallStep(s: Queue, a: Act)
    requires Inv(s) && CanAct(s, a) && (a.Put? || a.Get?)
    ensures Inv(Apply(s, a)) && !Apply(s, a).k.panic
  {
    hide SchedInv, SemInv, Enabled;
    var p := if a.Put? then PSlots(a.c) else CItems;
    Calling(s, Apply(s, a), p);
  }

  predicate Outside(s: Queue, p: Pc) { At(s, Called(s)) == Out && (p.PSlots? || p.CItems?) }

  /** An operation about to take its first semaphore is in no region. */
  lemma Calling(s: Queue, q: Queue, p: Pc)
    requires Shaped(s) && Counts(s) && Contents(s) && Outside(s, p) && q == Call(s, p)
    ensures Shaped(q) && Counts(q) && Contents(q)
  {
    forall r ensures Count(q.pc, r) + One(In(Out, r)) == Count(s.pc, r) + One(In(p, r)) {
      CountMove(s.pc, Called(s), p, r);
    }
    assert forall r :: !In(p, r) && !In(Out, r);
    hide Count, In;
  }

  // ---- The semaphore operations ----

  /** The value of an own semaphore after the event e lets the current thread pass. */
  predicate Passed(s: Queue, q: Queue, e: Event, x: SemId)
  {
    x in s.k.sems && x in q.k.sems && q.k.sems[x].value + One(e == Down(x)) == s.k.sems[x].value + One(e == Up(x))
  }

  /** A thread passes a semaphore operation: the value and the counts move together. */
  lemma PassKeeps(s: Queue, q: Queue, e: Event)
    requires Shaped(s) && Counts(s) && Contents(s) && SemEvent(s, At(s, Cur(s))) == Some(e)
    requires q == s.(k := q.k, pc := s.pc[Cur(s) := Next(s, At(s, Cur(s)))], level := q.level)
        && s.k.sems.Keys == q.k.sems.Keys
    requires Passed(s, q, e, s.slots) && Passed(s, q, e, s.items) && Passed(s, q, e, s.mutex)
    ensures Shaped(q) && Counts(q) && Contents(q)
  {
    Moved(s, q, Next(s, At(s, Cur(s))));
    hide Count;
  }

  /** The queue's own sem_ups stay below 255. */
  lemma UpFits(s: Queue, e: Event)
    requires Shaped(s) && Counts(s) && SemEvent(s, At(s, Cur(s))) == Some(e)
    ensures e.Up? ==> e.x in s.k.sems && s.k.sems[e.x].value <= BUF_SIZE
  {
  }

  lemma SemEnabled(s: Queue, e: Event)
    requires CanAct(s, Go) && SemEvent(s, At(s, Cur(s))) == Some(e)
    ensures Enabled(s.k, e) && (e.Down? || e.Up?) && Own(s, e.x) && Apply(s, Go) == SemStatement(s, e)
  {
    hide Enabled, Statement, SemStatement;
  }

  lemma SemStep(s: Queue, e: Event)
    requires Inv(s) && CanAct(s, Go) && SemEvent(s, At(s, Cur(s))) == Some(e)
    ensures Inv(Apply(s, Go)) && !Apply(s, Go).k.panic
  {
    SemEnabled(s, e);
    UpFits(s, e);
    hide Counts, Contents, SchedInv, Enabled, Own, Next, Passed, SemEvent, CanAct, Apply, At;
    KernelStep(s.k, e);
    hide SemInv, Scheduler.Apply;
    var q := SemStatement(s, e);
    SemValues(s, e, q.k);
    hide Effect, Shaped;
    if e.Down? && s.k.sems[e.x].value == 0 {
      SameValues(s, q);
    } else {
      SemPass(s, q, e);
      PassKeeps(s, q, e);
    }
  }

  lemma SemPass(s: Queue, q: Queue, e: Event)
    requires Shaped(s) && q.k.sems.Keys == s.k.sems.Keys
    requires forall x :: Own(s, x) ==>
               x in q.k.sems && q.k.sems[x].value + One(e == Down(x)) == s.k.sems[x].value + One(e == Up(x))
    ensures Passed(s, q, e, s.slots) && Passed(s, q, e, s.items) && Passed(s, q, e, s.mutex)
  {
    assert Own(s, s.slots) && Own(s, s.items) && Own(s, s.mutex);
  }

  lemma SemValues(s: Queue, e: Event, k: Kernel)
    requires Shaped(s) && Effect(s.k, e, k) && (e.Down? || e.Up?) && Own(s, e.x)
    ensures k.sems.Keys == s.k.sems.Keys
    ensures if e.Down? && s.k.sems[e.x].value == 0
            then forall x :: Own(s, x) ==> x in k.sems && k.sems[x].value == s.k.sems[x].value
            else forall x :: Own(s, x) ==>
                   x in k.sems && k.sems[x].value + One(e == Down(x)) == s.k.sems[x].value + One(e == Up(x))
  {
    forall x | Own(s, x) ensures SemEffect(s.k, e, k, x) {}
  }

  // ---- The statements on the buffer ----

  /** While one thread holds the mutex, no other thread is at such a statement. */
  lemma NobodyElse(s: Queue, r: Region)
    requires Count(s.pc, Critical) <= 1 && In(At(s, Cur(s)), Critical) && r in {AtRear, AtFront}
    ensures Count(s.pc, r) == One(In(At(s, Cur(s)), r))
  {
    var t := Cur(s);
    var a := Ops(s.pc, r);
    assert t in Ops(s.pc, Critical);
    forall u | u in a ensures u == t {
      assert u in Ops(s.pc, Critical);
      CountOne(s.pc, t, u, Critical);
    }
    assert a == if In(At(s, t), r) then {t} else {};
  }

  lemma Apart(i: nat, n: nat)
    requires 0 < n - i < BUF_SIZE
    ensures i % BUF_SIZE != n % BUF_SIZE
  {
  }

  lemma CountAt(s: Queue, t: Op, r: Region)
    ensures In(At(s, t), r) && t in s.pc ==> Count(s.pc, r) >= 1
  {
    if In(At(s, t), r) && t in s.pc { Subset({t}, Ops(s.pc, r)); }
  }

  lemma WriteStep(s: Queue)
    requires Shaped(s) && Counts(s) && Contents(s) && At(s, Cur(s)).PWrite?
    ensures var q := Statement(s); Counts(q) && Contents(q) && Shaped(q)
  {
    var q := Statement(s);
    NobodyElse(s, AtRear);
    CountAt(s, Cur(s), Writing);
    Moved(s, q, PRear);
    hide Count;
    var n := |s.written|;
    assert s.rear == n % BUF_SIZE;
    forall i | |q.read| <= i < |q.written| ensures q.buffer[i % BUF_SIZE] == q.written[i] {
      if i < n { Apart(i, n); }
    }
    assert q.written[..|q.read|] == s.written[..|s.read|];
  }

  lemma RearStep(s: Queue)
    requires Shaped(s) && Counts(s) && Contents(s) && At(s, Cur(s)).PRear?
    ensures var q := Statement(s); Counts(q) && Contents(q) && Shaped(q)
  {
    var q := Statement(s);
    NobodyElse(s, AtRear);
    Moved(s, q, PUpMutex);
    hide Count;
    NextIndex(|s.written| - 1);
  }

  lemma NextIndex(n: nat)
    ensures (n % BUF_SIZE + 1) % BUF_SIZE == (n + 1) % BUF_SIZE
  {
  }

  lemma ReadStep(s: Queue)
    requires Shaped(s) && Counts(s) && Contents(s) && At(s, Cur(s)).CRead?
    ensures var q := Statement(s); Counts(q) && Contents(q) && Shaped(q)
    ensures |s.read| < |s.written| && s.buffer[s.front] == s.written[|s.read|]
  {
    var q := Statement(s);
    NobodyElse(s, AtFront);
    CountAt(s, Cur(s), Reading);
    Moved(s, q, CFront(s.buffer[s.front]));
    hide Count;
    assert s.front == |s.read| % BUF_SIZE;
    assert s.written[..|s.read| + 1] == s.written[..|s.read|] + [s.written[|s.read|]];
  }

  lemma FrontStep(s: Queue)
    requires Shaped(s) && Counts(s) && Contents(s) && At(s, Cur(s)).CFront?
    ensures var q := Statement(s); Counts(q) && Contents(q) && Shaped(q)
  {
    var q := Statement(s);
    NobodyElse(s, AtFront);
    Moved(s, q, CUpMutex(At(s, Cur(s)).c));
    hide Count;
    NextIndex(|s.read| - 1);
  }

  lemma BufferStep(s: Queue)
    requires Inv(s) && CanAct(s, Go) && SemEvent(s, At(s, Cur(s))).None?
    ensures Inv(Apply(s, Go)) && !Apply(s, Go).k.panic
  {
    hide Counts, Contents, SchedInv, SemInv, Enabled;
    match At(s, Cur(s))
    case PWrite(_) => WriteStep(s);
    case PRear => RearStep(s);
    case CRead => ReadStep(s);
    case CFront(_) => FrontStep(s);
    case _ =>
  }

  /** Every step keeps the buffer; the kernel stops only if somebody raises a foreign semaphore past 255. */
  lemma StepKeeps(s: Queue, a: Act)
    requires Inv(s) && CanAct(s, a)
    ensures Apply(s, a).k.panic <==> a.Other? && a.e.Up? && s.k.sems[a.e.x].value == 255
    ensures !Apply(s, a).k.panic ==> Inv(Apply(s, a))
  {
    hide Statement, SemStatement, Counts, Contents, SchedInv, Scheduler.Apply;
    match a
    case Put(c) => CallStep(s, a);
    case Get => CallStep(s, a);
    case Go =>
      if SemEvent(s, At(s, Cur(s))).None? { BufferStep(s); } else { SemStep(s, SemEvent(s, At(s, Cur(s))).value); }
    case Other(e) =>
      StepKeepsSched(s.k, e);
      assert e.Up? ==> s.k.sems[e.x].value < BYTE;
      if !(e.Up? && s.k.sems[e.x].value == 255) { OtherStep(s, e); }
  }

  // ---- Runs ----

  /** A new queue, as io_queue_init leaves it, in a running kernel. */
  function QueueInit(k: Kernel, slots: SemId, items: SemId, mutex: SemId, buffer: seq<char>): Queue {
    Queue(k, slots, items, mutex, buffer, 0, 0, map[], map[], [], [])
  }

  ghost predicate Fresh(s: Queue) {
    && Shaped(s) && s == QueueInit(s.k, s.slots, s.items, s.mutex, s.buffer) && SchedInv(s.k) && SemInv(s.k)
    && s.k.sems[s.slots].value == BUF_SIZE && s.k.sems[s.items].value == 0 && s.k.sems[s.mutex].value == 1
    && forall t :: t in s.k.threads && s.k.threads[t].wait.Some? ==> !Own(s, s.k.threads[t].wait.value)
  }

  lemma InitInv(s: Queue)
    requires Fresh(s)
    ensures Inv(s)
  {
    forall r ensures Count(s.pc, r) == 0 { assert Ops(s.pc, r) == {}; }
  }

  ghost predicate Reaches(s: Queue, acts: seq<Act>, q: Queue)
    decreases |acts|
  {
    if acts == [] then q == s else CanAct(s, acts[0]) && Reaches(Apply(s, acts[0]), acts[1..], q)
  }

  lemma {:induction false} RunKeeps(s: Queue, acts: seq<Act>, q: Queue)
    requires Inv(s) && Reaches(s, acts, q)
    ensures !q.k.panic ==> Inv(q)
    decreases |acts|
  {
    if acts != [] {
      var m := Apply(s, acts[0]);
      hide Inv, CanAct, Apply;
      StepKeeps(s, acts[0]);
      if m.k.panic { Halted(m, acts[1..], q); } else { RunKeeps(m, acts[1..], q); }
    }
  }

  lemma Halted(s: Queue, acts: seq<Act>, q: Queue)
    requires s.k.panic && Reaches(s, acts, q)
    ensures q == s
  {
  }

  /** The operations between their first semaphore and their last. */
  predicate InFlight(p: Pc) { In(p, Writing) || In(p, Filled) || In(p, Reading) || In(p, Emptied) }

  ghost function Flying(pc: map<Op, Pc>): set<Op> { set t | t in pc && InFlight(pc[t]) }

  lemma FourSets(a: set<Op>, b: set<Op>, c: set<Op>, d: set<Op>)
    requires a !! b && (a + b) !! c && (a + b + c) !! d
    ensures |a + b + c + d| == |a| + |b| + |c| + |d|
  {
  }

  lemma OneRegion(p: Pc)
    ensures !(In(p, Writing) && In(p, Filled)) && !((In(p, Writing) || In(p, Filled)) && In(p, Reading))
    ensures !((In(p, Writing) || In(p, Filled) || In(p, Reading)) && In(p, Emptied))
  {
  }

  lemma FlyingCount(pc: map<Op, Pc>)
    ensures |Flying(pc)| == Count(pc, Writing) + Count(pc, Filled) + Count(pc, Reading) + Count(pc, Emptied)
  {
    hide In;
    var a, b, c, d := Ops(pc, Writing), Ops(pc, Filled), Ops(pc, Reading), Ops(pc, Emptied);
    forall t | t in pc ensures t in Flying(pc) <==> t in a + b + c + d { OneRegion(pc[t]); }
    assert Flying(pc) == a + b + c + d;
    assert a !! b && (a + b) !! c && (a + b + c) !! d by { forall t | t in pc { OneRegion(pc[t]); } }
    FourSets(a, b, c, d);
  }

  lemma InvMeans(q: Queue)
    requires Shaped(q) && Counts(q) && Contents(q)
    ensures q.k.sems[q.slots].value + q.k.sems[q.items].value + |Flying(q.pc)| == BUF_SIZE
    ensures Flying(q.pc) == {} ==>
              && q.front == |q.read| % BUF_SIZE && q.rear == |q.written| % BUF_SIZE
              && q.k.sems[q.items].value == |q.written| - |q.read|
  {
    FlyingCount(q.pc);
    if Flying(q.pc) == {} {
      assert Ops(q.pc, AtFront) <= Flying(q.pc) && Ops(q.pc, AtRear) <= Flying(q.pc);
    }
    hide In, InFlight, Ops, Flying;
  }

  /** The bounded buffer in every reachable state: what was read is a prefix of what was written, at most
      64 characters are pending and they are in the buffer in order, and the free slots, the items and the
      operations in flight always make 64. */
  lemma BoundedBuffer(s: Queue, acts: seq<Act>, q: Queue)
    requires Fresh(s) && Reaches(s, acts, q) && !q.k.panic
    ensures |q.read| <= |q.written| <= |q.read| + 64 && q.read == q.written[..|q.read|]
    ensures |q.buffer| == 64 && forall i :: |q.read| <= i < |q.written| ==> q.buffer[i % 64] == q.written[i]
    ensures q.slots in q.k.sems && q.items in q.k.sems && q.mutex in q.k.sems
    ensures q.k.sems[q.slots].value + q.k.sems[q.items].value + |Flying(q.pc)| == 64
    ensures q.k.sems[q.mutex].value + Count(q.pc, Critical) == 1
    ensures Flying(q.pc) == {} ==>
              && q.front == |q.read| % 64 && q.rear == |q.written| % 64
              && q.k.sems[q.items].value == |q.written| - |q.read|
  {
    InitInv(s);
    RunKeeps(s, acts, q);
    hide SchedInv, SemInv, Reaches, Flying, Count;
    InvMeans(q);
  }

  /** No unread cell is overwritten: a producer about to write finds its cell free. */
  lemma WritesFreeCell(s: Queue, acts: seq<Act>, q: Queue, i: nat)
    requires Fresh(s) && Reaches(s, acts, q) && !q.k.panic
    requires At(q, Cur(q)).PWrite? && |q.read| <= i < |q.written|
    ensures q.rear != i % BUF_SIZE
  {
    InitInv(s);
    RunKeeps(s, acts, q);
    hide SchedInv, SemInv, Reaches;
    FreeCell(q, i);
  }

  lemma FreeCell(q: Queue, i: nat)
    requires Shaped(q) && Counts(q) && Contents(q) && At(q, Cur(q)).PWrite? && |q.read| <= i < |q.written|
    ensures q.rear != i % BUF_SIZE
  {
    NobodyElse(q, AtRear);
    CountAt(q, Cur(q), Writing);
    Apart(i, |q.written|);
    hide Count;
  }

  // ---- What an operation carries ----

  /** The character putchar has still to write, and the one getchar has read and will return. */
  function ToWrite(p: Pc): Option<char> {
    match p
    case PSlots(c) => Some(c)
    case PMutex(c) => Some(c)
    case PWrite(c) => Some(c)
    case _ => None
  }

  function ToReturn(p: Pc): Option<char> {
    match p
    case CFront(c) => Some(c)
    case CUpMutex(c) => Some(c)
    case CUpSlots(c) => Some(c)
    case _ => None
  }

  /** The operation has not returned anywhere in the run. */
  ghost predicate Busy(s: Queue, acts: seq<Act>, f: Op)
    decreases |acts|
  {
    At(s, f) != Out && (acts != [] && CanAct(s, acts[0]) ==> Busy(Apply(s, acts[0]), acts[1..], f))
  }

  lemma CarryStep(s: Queue, a: Act, f: Op)
    requires CanAct(s, a) && At(s, f) != Out && At(Apply(s, a), f) != Out
    ensures var q := Apply(s, a);
            && ToWrite(At(q, f)) in {None, ToWrite(At(s, f))}
            && (ToReturn(At(s, f)).Some? ==> ToReturn(At(q, f)) == ToReturn(At(s, f)))
  {
    hide Enabled, Scheduler.Apply;
    assert f == Cur(s) || At(Apply(s, a), f) == At(s, f);
  }

  lemma {:induction false} CarryRun(s: Queue, acts: seq<Act>, q: Queue, f: Op)
    requires Reaches(s, acts, q) && Busy(s, acts, f)
    ensures ToWrite(At(q, f)) in {None, ToWrite(At(s, f))}
    ensures ToReturn(At(s, f)).Some? ==> ToReturn(At(q, f)) == ToReturn(At(s, f))
    decreases |acts|
  {
    if acts != [] {
      hide CanAct, Apply, ToWrite, ToReturn;
      BusyNow(Apply(s, acts[0]), acts[1..], f);
      CarryStep(s, acts[0], f);
      CarryRun(Apply(s, acts[0]), acts[1..], q, f);
    }
  }

  lemma BusyNow(s: Queue, acts: seq<Act>, f: Op)
    requires Busy(s, acts, f)
    ensures At(s, f) != Out
  {
  }

  /** Whatever happens between a call of putchar and its write, it writes the character it was called with. */
  lemma PutcharWrites(s: Queue, c: char, acts: seq<Act>, m: Queue)
    requires CanAct(s, Put(c))
    requires var s1 := Apply(s, Put(c)); Reaches(s1, acts, m) && Busy(s1, acts, Called(s))
    requires CanAct(m, Go) && Cur(m) == Called(s) && At(m, Cur(m)).PWrite?
    ensures Apply(m, Go).written == m.written + [c] && Apply(m, Go).buffer == m.buffer[m.rear := c]
  {
    hide Enabled, Scheduler.Apply, Reaches, Busy;
    CarryRun(Apply(s, Put(c)), acts, m, Called(s));
  }

  /** And getchar returns the character it read, which is the next one written that nobody has read. */
  lemma GetcharReturns(s: Queue, acts: seq<Act>, m: Queue)
    requires Inv(s) && CanAct(s, Go) && At(s, Cur(s)).CRead?
    requires var s1 := Apply(s, Go); Reaches(s1, acts, m) && Busy(s1, acts, Cur(s))
    requires At(m, Cur(s)).CUpSlots?
    ensures |s.read| < |s.written| && At(m, Cur(s)) == CUpSlots(s.written[|s.read|])
  {
    hide Enabled, Scheduler.Apply, Reaches, Busy, Counts, Contents, SchedInv, SemInv;
    ReadStep(s);
    CarryRun(Apply(s, Go), acts, m, Cur(s));
  }

  // ---- io_queue_full ----

  /** What io_queue_full answers with the mutex in its hands. */
  predicate QueueFull(s: Queue) { (s.front + 1) % BUF_SIZE == s.rear }

  /** Its test has front and rear the wrong way round: with no operation in flight it says full exactly when one
      character is pending, so it is right exactly when neither one nor 64 are. */
  lemma QueueFullIff(s: Queue, acts: seq<Act>, q: Queue)
    requires Fresh(s) && Reaches(s, acts, q) && !q.k.panic && Flying(q.pc) == {}
    ensures var n := |q.written| - |q.read|;
            && 0 <= n <= 64 && (QueueFull(q) <==> n == 1)
            && ((QueueFull(q) <==> n == 64) <==> n != 1 && n != 64)
  {
    hide Fresh, Reaches, Flying, QueueFull;
    QueueIndices(s, acts, q);
    FullTest(q, |q.read|, |q.written|);
  }

  lemma QueueIndices(s: Queue, acts: seq<Act>, q: Queue)
    requires Fresh(s) && Reaches(s, acts, q) && !q.k.panic && Flying(q.pc) == {}
    ensures |q.read| <= |q.written| <= |q.read| + 64 && q.front == |q.read| % 64 && q.rear == |q.written| % 64
  {
    hide Fresh, Reaches, Flying, Count;
    BoundedBuffer(s, acts, q);
  }

  lemma FullTest(q: Queue, r: nat, w: nat)
    requires r <= w <= r + BUF_SIZE && q.front == r % 64 && q.rear == w % 64
    ensures QueueFull(q) <==> w - r == 1
  {
    IndicesApart(r, w);
  }

  lemma IndicesApart(r: nat, w: nat)
    requires r <= w <= r + BUF_SIZE
    ensures (r % BUF_SIZE + 1) % BUF_SIZE == w % BUF_SIZE <==> w - r == 1
  {
    NextIndex(r);
    if w - r > 1 { Apart(r + 1, w); }
    if w == r { Apart(r, r + 1); }
  }
}
