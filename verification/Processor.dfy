/** thread.c, lock.c and the tick handler in place: the scheduler's variables as the fields of an object,
    each function run up to its context switch.  Each method is proved against its transition in
    Scheduler, about which the invariants are proved. */
module Processors {
  import opened Wrappers
  import opened Scheduler

  class Processor {
    var threads: map<Tid, Thread>
    var ready: seq<Tid>
    var all: seq<Tid>
    var current: Tid
    const idle: Tid
    var sems: map<SemId, Sem>
    var total: nat
    var panic: bool

    function View(): Kernel
      reads this
    {
      Kernel(threads, ready, all, current, idle, sems, total, panic)
    }

    /** thread_init, with `main` already running on the boot stack. */
    constructor (main: Tid, idle: Tid)
      requires main != idle
      ensures threads == map[main := NewThread(32).(status := RUNNING), idle := NewThread(10)]
      ensures ready == [idle] && all == [main, idle] && current == main && this.idle == idle
      ensures sems == map[] && total == 0 && !panic
    {
      this.idle := idle;
      threads, ready, all := map[main := NewThread(32).(status := RUNNING)], [], [main];
      current, sems, total, panic := main, map[], 0, false;
      new;
      ThreadStart(idle, 10);
    }

    predicate Live()
      reads this
    {
      !panic && current in threads && idle in threads
    }

    method SetStatus(t: Tid, st: Status)
      requires t in threads
      modifies this`threads
      ensures View() == Scheduler.SetStatus(old(View()), t, st)
    {
      threads := threads[t := threads[t].(status := st)];
    }

    method ThreadUnblock(t: Tid)
      requires !panic && t in threads
      modifies this
      ensures View() == Scheduler.ThreadUnblock(old(View()), t)
    {
      var state := threads[t].status;
      if state != BLOCKED && state != HANGING && state != WAITING { panic := true; return; }
      if t in ready { panic := true; return; }
      ready := [t] + ready;
      SetStatus(t, READY);
    }

    method Schedule()
      requires Live()
      modifies this
      ensures View() == Scheduler.Schedule(old(View()))
    {
      var curr := current;
      if threads[curr].status == RUNNING {
        if curr in ready { panic := true; return; }
        ready := ready + [curr];
        threads := threads[curr := threads[curr].(ava := threads[curr].priority, refills := threads[curr].refills + 1)];
        SetStatus(curr, READY);
      }
      if ready == [] {
        ThreadUnblock(idle);
        if panic { return; }
      }
      var next := ready[0];
      if next !in threads { panic := true; return; }
      ready := ready[1..];
      current := next;
      SetStatus(next, RUNNING);
    }

    method ThreadBlock()
      requires Live()
      modifies this
      ensures View() == Scheduler.ThreadBlock(old(View()))
    {
      SetStatus(current, BLOCKED);
      Schedule();
    }

    method ThreadYield()
      requires Live()
      modifies this
      ensures View() == Scheduler.ThreadYield(old(View()))
    {
      if current in ready { panic := true; return; }
      SetStatus(current, READY);
      ready := ready + [current];
      Schedule();
    }

    method ThreadStart(t: Tid, prio: int)
      requires !panic
      modifies this
      ensures View() == Scheduler.ThreadStart(old(View()), t, prio)
    {
      if t in ready || t in all { panic := true; return; }
      threads := threads[t := NewThread(prio)];
      ready := ready + [t];
      all := all + [t];
    }

    method SemInit(x: SemId, value: nat)
      requires value < BYTE
      modifies this`sems
      ensures View() == old(View()).(sems := old(sems)[x := Sem(value, [], value, 0, 0)])
    {
      sems := sems[x := Sem(value, [], value, 0, 0)];
    }

    method SemUp(x: SemId)
      requires !panic && x in sems
      modifies this
      ensures View() == Scheduler.SemUp(old(View()), x)
    {
      if sems[x].waiters != [] {
        var next := sems[x].waiters[0];
        if next !in threads { panic := true; return; }
        sems := sems[x := sems[x].(waiters := sems[x].waiters[1..])];
        ThreadUnblock(next);
        if panic { return; }
      }
      sems := sems[x := sems[x].(value := (sems[x].value + 1) % BYTE, ups := sems[x].ups + 1)];
      if sems[x].value == 0 { panic := true; }
    }

    /** One pass of the loop; `done` says whether the thread is through, or asleep and due to retest. */
    method SemDown(x: SemId) returns (done: bool)
      requires Live() && x in sems
      modifies this
      ensures View() == Scheduler.SemDown(old(View()), x)
      ensures done <==> old(sems[x].value) > 0
    {
      var curr := current;
      done := sems[x].value > 0;
      if !done {
        if curr in sems[x].waiters { panic := true; return; }
        sems := sems[x := sems[x].(waiters := sems[x].waiters + [curr])];
        threads := threads[curr := threads[curr].(wait := Some(x))];
        ThreadBlock();
      } else {
        sems := sems[x := sems[x].(value := sems[x].value - 1, downs := sems[x].downs + 1)];
        threads := threads[curr := threads[curr].(wait := None)];
      }
    }

    method TimeIntrHandler()
      requires Live()
      modifies this
      ensures View() == Scheduler.Tick(old(View()))
    {
      hide Scheduler.Schedule;
      var curr := current;
      threads := threads[curr := threads[curr].(elapsed := (threads[curr].elapsed + 1) % WORD,
                                                ticks := threads[curr].ticks + 1)];
      total := (total + 1) % WORD;
      if threads[curr].ava == 0 {
        Schedule();
      } else {
        threads := threads[curr := threads[curr].(ava := threads[curr].ava - 1)];
      }
    }
  }
}
