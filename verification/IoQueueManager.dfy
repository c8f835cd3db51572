/** io_queue.c in place: the buffer as an array, its indices as fields, the semaphores those of the
    processor.  Each method executes one statement of the current thread. */
module IoQueueManager {
  import opened Scheduler
  import opened Processors
  import opened KernelRuns
  import opened IoQueues

  class IoQueue {
    const cpu: Processor
    const slots: SemId
    const items: SemId
    const mutex: SemId
    const buffer: array<char>
    var front: nat
    var rear: nat
    var pc: map<Op, Pc>
    var level: map<Tid, nat>
    ghost var written: seq<char>
    ghost var read: seq<char>

    ghost function View(): Queue
      reads this, cpu, buffer
    {
      Queue(cpu.View(), slots, items, mutex, buffer[..], front, rear, pc, level, written, read)
    }

    /** io_queue_init. */
    constructor (cpu: Processor, slots: SemId, items: SemId, mutex: SemId)
      requires slots != items && items != mutex && mutex != slots
      requires slots !in cpu.sems && items !in cpu.sems && mutex !in cpu.sems
      requires SchedInv(cpu.View()) && SemInv(cpu.View())
      modifies cpu`sems
      ensures this.cpu == cpu && fresh(buffer) && Fresh(View()) && buffer.Length == 64
      ensures cpu.sems == old(cpu.sems)[slots := Sem(64, [], 64, 0, 0)][items := Sem(0, [], 0, 0, 0)]
                          [mutex := Sem(1, [], 1, 0, 0)]
    {
      this.cpu, this.slots, this.items, this.mutex := cpu, slots, items, mutex;
      buffer := new char[BUF_SIZE];
      front, rear, pc, level, written, read := 0, 0, map[], map[], [], [];
      new;
      NewSemaphore(cpu.View(), slots, BUF_SIZE);
      cpu.SemInit(slots, BUF_SIZE);
      NewSemaphore(cpu.View(), items, 0);
      cpu.SemInit(items, 0);
      NewSemaphore(cpu.View(), mutex, 1);
      cpu.SemInit(mutex, 1);
    }

    function Level(): nat
      reads this, cpu
    {
      if cpu.current in level then level[cpu.current] else 0
    }

    /** A call of io_queue_putchar. */
    method Putchar(c: char)
      requires CanAct(View(), Put(c))
      modifies this`pc, this`level
      ensures View() == IoQueues.Apply(old(View()), Put(c))
    {
      level := level[cpu.current := Level() + 1];
      pc := pc[(cpu.current, Level()) := PSlots(c)];
    }

    /** A call of io_queue_getchar. */
    method Getchar()
      requires CanAct(View(), Get)
      modifies this`pc, this`level
      ensures View() == IoQueues.Apply(old(View()), Get)
    {
      level := level[cpu.current := Level() + 1];
      pc := pc[(cpu.current, Level()) := CItems];
    }

    /** sem_down; the operation goes on to q unless its thread had to sleep. */
    method Down(x: SemId, q: Pc)
      requires Enabled(cpu.View(), Event.Down(x))
      modifies this`pc, cpu
      ensures cpu.View() == Scheduler.SemDown(old(cpu.View()), x)
      ensures pc == if old(cpu.sems[x].value) > 0 then old(pc)[old((cpu.current, Level())) := q] else old(pc)
    {
      var f := (cpu.current, Level());
      var done := cpu.SemDown(x);
      if done { pc := pc[f := q]; }
    }

    method Up(x: SemId, q: Pc)
      requires Enabled(cpu.View(), Event.Up(x))
      modifies this`pc, cpu
      ensures cpu.View() == Scheduler.SemUp(old(cpu.View()), x)
      ensures pc == old(pc)[old((cpu.current, Level())) := q]
    {
      pc := pc[(cpu.current, Level()) := q];
      cpu.SemUp(x);
    }

    /** The last sem_up of an operation, and its return. */
    method Finish(x: SemId)
      requires Enabled(cpu.View(), Event.Up(x))
      modifies this`pc, this`level, cpu
      ensures cpu.View() == Scheduler.SemUp(old(cpu.View()), x)
      ensures pc == old(pc)[old((cpu.current, Level())) := Out]
      ensures level == if old(Level()) > 0 then old(level)[old(cpu.current) := old(Level()) - 1] else old(level)
    {
      var t, n := cpu.current, Level();
      Up(x, Out);
      if n > 0 { level := level[t := n - 1]; }
    }

    /** The semaphore statements. */
    method SemStatement()
      requires CanAct(View(), Go) && SemEvent(View(), At(View(), Cur(View()))).Some?
      modifies this`pc, this`level, cpu
      ensures View() == IoQueues.Apply(old(View()), Go)
    {
      hide Scheduler.SemDown, Scheduler.SemUp;
      match pc[(cpu.current, Level())]
      case PSlots(c) => Down(slots, PMutex(c));
      case PMutex(c) => Down(mutex, PWrite(c));
      case PUpMutex => Up(mutex, PUpItems);
      case PUpItems => Finish(items);
      case CItems => Down(items, CMutex);
      case CMutex => Down(mutex, CRead);
      case CUpMutex(c) => Up(mutex, CUpSlots(c));
      case CUpSlots(c) => Finish(slots);
    }

    /** The statements on the buffer. */
    method BufferStatement()
      requires CanAct(View(), Go) && SemEvent(View(), At(View(), Cur(View()))).None?
      modifies this, buffer
      ensures View() == IoQueues.Apply(old(View()), Go)
    {
      var t := (cpu.current, Level());
      match pc[t]
      case PWrite(c) =>
        buffer[rear] := c;
        written := written + [c];
        pc := pc[t := PRear];
      case PRear =>
        rear := (rear + 1) % BUF_SIZE;
        pc := pc[t := PUpMutex];
      case CRead =>
        var c := buffer[front];
        read := read + [c];
        pc := pc[t := CFront(c)];
      case CFront(c) =>
        front := (front + 1) % BUF_SIZE;
        pc := pc[t := CUpMutex(c)];
    }
  }
}
