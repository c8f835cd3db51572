/** mutex_lock and mutex_unlock in place: holder and recursion as fields, the semaphore that of the
    processor.  Each method executes one statement of the current thread. */
module MutexManager {
  import opened Wrappers
  import opened Scheduler
  import opened Processors
  import opened KernelRuns
  import opened Mutexes

  class Mutex {
    const cpu: Processor
    const m: SemId
    var holder: Option<Tid>
    var recursion: nat
    var failed: bool
    var pc: map<Tid, Pc>
    ghost var depth: map<Tid, nat>
    ghost var inside: set<Tid>

    ghost function View(): Sys
      reads this, cpu
    {
      Sys(cpu.View(), m, holder, recursion, pc, depth, inside, failed)
    }

    /** mutex_init. */
    constructor (cpu: Processor, m: SemId)
      requires m !in cpu.sems && SchedInv(cpu.View()) && SemInv(cpu.View())
      modifies cpu`sems
      ensures this.cpu == cpu && View() == MutexInit(cpu.View(), m) && Inv(View())
    {
      this.cpu, this.m := cpu, m;
      holder, recursion, failed, pc, depth, inside := None, 0, false, map[], map[], {};
      new;
      NewSemaphore(cpu.View(), m, 1);
      cpu.SemInit(m, 1);
      InitInv(cpu.View(), m);
    }

    /** A call of mutex_lock. */
    method Lock()
      requires CanAct(View(), Act.Lock)
      modifies this`pc
      ensures View() == Mutexes.Apply(old(View()), Act.Lock)
    {
      pc := pc[cpu.current := LTest];
    }

    /** A call of mutex_unlock. */
    method Unlock()
      requires CanAct(View(), Act.Unlock)
      modifies this`pc
      ensures View() == Mutexes.Apply(old(View()), Act.Unlock)
    {
      pc := pc[cpu.current := UAssert];
    }

    /** The next statement of mutex_lock. */
    method LockStatement()
      requires CanAct(View(), Go) && pc[cpu.current] in {LTest, LDown, LCheck, LHolder, LInc, LNest}
      modifies this, cpu
      ensures View() == Mutexes.Apply(old(View()), Go)
    {
      hide Scheduler.SemDown, Enabled;
      var t := cpu.current;
      match pc[t]
      case LTest => pc := pc[t := if holder != Some(t) then LDown else LNest];
      case LDown =>
        assert Enabled(cpu.View(), Down(m));
        EnabledMeans(cpu.View(), m);
        var done := cpu.SemDown(m);
        if done {
          pc := pc[t := LCheck];
          inside := inside + {t};
        }
      case LCheck => if recursion != 0 { failed := true; } else { pc := pc[t := LHolder]; }
      case LHolder =>
        holder := Some(t);
        pc := pc[t := LInc];
      case LInc => Nest();
      case LNest => Nest();
    }

    /** ++mutex->recursion, the last statement of mutex_lock. */
    method Nest()
      modifies this`recursion, this`depth, this`pc
      ensures recursion == (old(recursion) + 1) % BYTE && pc == old(pc)[cpu.current := Out]
      ensures depth == old(depth)[cpu.current := Depth(old(View()), cpu.current) + 1]
    {
      recursion := (recursion + 1) % BYTE;
      depth := depth[cpu.current := Depth(View(), cpu.current) + 1];
      pc := pc[cpu.current := Out];
    }

    /** The next statement of mutex_unlock. */
    method UnlockStatement()
      requires CanAct(View(), Go) && pc[cpu.current] in {UAssert, UTest, UHolder, URec, UUp, UDec}
      modifies this, cpu
      ensures View() == Mutexes.Apply(old(View()), Go)
    {
      hide Scheduler.SemUp, Enabled;
      var t := cpu.current;
      ghost var d := Depth(View(), t);
      match pc[t]
      case UAssert =>
        holder := Some(t);
        pc := pc[t := UTest];
      case UTest => pc := pc[t := if recursion == 1 then UHolder else UDec];
      case UHolder =>
        holder := None;
        pc := pc[t := URec];
      case URec =>
        recursion := 0;
        pc := pc[t := UUp];
      case UUp =>
        cpu.SemUp(m);
        pc := pc[t := Out];
        inside := inside - {t};
        depth := depth[t := if d > 0 then d - 1 else 0];
      case UDec =>
        recursion := (recursion + BYTE - 1) % BYTE;
        depth := depth[t := if d > 0 then d - 1 else 0];
        pc := pc[t := Out];
    }
  }

  lemma EnabledMeans(s: Kernel, x: SemId)
    requires Enabled(s, Down(x))
    ensures !s.panic && s.current in s.threads && s.idle in s.threads && x in s.sems
  {
  }
}
