// The task table and the scheduler's tick as the kernel keeps them (kernel/task.c).

module TaskTable {
  import opened Bytes
  import opened Procs
  import opened Tasks
  import opened ProcTable

  class Scheduler {
    const slot: array<Task>
    const procs: Processes
    var used: nat
    var current: int
    var switches: nat
    var slice: nat

    ghost const Repr: set<object>

    ghost predicate Valid()
      reads this, procs
    {
      && procs.Valid() && slot.Length == MAX_TASKS && -1 <= current < MAX_TASKS
      && Repr == {this, slot} + procs.Repr && this !in procs.Repr && slot as object !in procs.Repr
    }

    function State(): (b: Both)
      requires Valid()
      reads this, slot, procs, procs.slot, procs.image
      ensures b.Shape()
    {
      Both(Sched(slot[..], used, current, switches, slice), procs.State())
    }

    /** Both tables after `kmain` has made itself the running task. */
    constructor (p: Processes)
      requires p.Valid()
      ensures Valid() && procs == p && fresh(Repr - p.Repr) && State() == Both(InitTasks(), old(p.State()))
    {
      slot := new Task[MAX_TASKS](i => if i == 0 then Task(0, -1, Running, 0) else NO_TASK);
      procs := p;
      used, current, switches, slice := 1, 0, 0, 0;
      Repr := {this, slot} + p.Repr;
      new;
      assert slot[..] == InitTasks().slot;
    }

    method FindSlot(pid: int) returns (i: int)
      requires Valid()
      ensures i == FindTask(State().t, pid)
    {
      i := 0;
      while i < MAX_TASKS
        invariant 0 <= i <= MAX_TASKS
        invariant forall j :: 0 <= j < i ==> slot[j].state == Unused || slot[j].pid != pid
      {
        if slot[i].state != Unused && slot[i].pid == pid {
          return;
        }
        i := i + 1;
      }
      i := -1;
    }

    method AllocSlot() returns (i: int)
      requires Valid()
      ensures i == AllocTask(State().t)
    {
      i := 0;
      while i < MAX_TASKS
        invariant 0 <= i <= MAX_TASKS
        invariant forall j :: 0 <= j < i ==> slot[j].state != Unused && slot[j].state != Zombie
      {
        if slot[i].state == Unused || slot[i].state == Zombie {
          return;
        }
        i := i + 1;
      }
      i := -1;
    }

    /** One entry's state. */
    method Mark(i: int, st: RunState)
      requires Valid() && 0 <= i < MAX_TASKS
      modifies slot
      ensures Valid() && State() == Both(WithState(old(State()).t, i, st), old(State()).p)
    {
      slot[i] := slot[i].(state := st);
      assert slot[..] == old(slot[..])[i := slot[i]];
    }

    /** The current task gives way to slot `i`. */
    method GiveWay(i: int)
      requires Valid()
      modifies slot, procs.slot
      ensures Valid() && State() == Preempt(old(State()), i)
    {
      if current >= 0 && current != i && slot[current].state == Running {
        Mark(current, Ready);
        procs.SetState(slot[current].pid, Ready);
      }
    }

    method ReturnToKernelMain()
      requires Valid()
      modifies this, slot, procs.slot
      ensures Valid() && State() == ReturnToKernel(old(State()))
    {
      var i := FindSlot(0);
      if i < 0 {
        current := -1;
        return;
      }
      GiveWay(i);
      Mark(i, Running);
      current, slice := i, 0;
      procs.SetState(slot[i].pid, Running);
    }

    method Spawn(ppid: int) returns (pid: int)
      requires Valid()
      modifies Repr
      ensures Valid() && (State(), pid) == Tasks.Spawn(old(State()), ppid)
    {
      var i := AllocSlot();
      if i < 0 {
        return -1;
      }
      pid := procs.Spawn(ppid);
      if pid < 0 {
        return -1;
      }
      slot[i] := Task(pid, ppid, Ready, 0);
      used := used + 1;
      assert slot[..] == old(slot[..])[i := slot[i]];
    }

    method SetTask(pid: int, st: RunState)
      requires Valid()
      modifies this, slot, procs.slot
      ensures Valid() && State() == Tasks.SetTask(old(State()), pid, st)
    {
      var i := FindSlot(pid);
      if i < 0 {
        return;
      }
      if st == Running {
        GiveWay(i);
      }
      Mark(i, st);
      if st == Running {
        current, slice := i, 0;
        procs.SetState(pid, Running);
      }
    }

    method ReapPid(pid: int)
      requires Valid()
      modifies this, slot, procs.slot
      ensures Valid() && State() == ReapTask(old(State()), pid)
    {
      var i := FindSlot(pid);
      if i < 0 {
        return;
      }
      slot[i] := NO_TASK;
      if used > 0 {
        used := used - 1;
      }
      assert slot[..] == old(slot[..])[i := NO_TASK];
      if current == i {
        ReturnToKernelMain();
      }
    }

    /** The loop for the next READY slot after the current one. */
    method FindNext() returns (next: int)
      requires Valid() && current >= 0
      ensures next == NextSlot(State().t)
    {
      ghost var t := State().t;
      var n := 1;
      while n < MAX_TASKS
        invariant 1 <= n <= MAX_TASKS && NextReady(t, n) == NextReady(t, 1)
      {
        next := (current + n) % MAX_TASKS;
        if slot[next].state == Ready {
          assert ReadyAt(t, n);
          return;
        }
        assert !ReadyAt(t, n);
        n := n + 1;
      }
      next := -1;
    }

    method ChargeCurrent()
      requires Valid() && current >= 0
      modifies this`slice, slot
      ensures Valid() && State() == old(State()).(t := Charge(old(State()).t))
    {
      if slot[current].state == Running {
        slot[current] := slot[current].(ticks := slot[current].ticks + 1);
        slice := slice + 1;
        assert slot[..] == old(slot[..])[current := slot[current]];
      }
    }

    method SwitchTo(next: int)
      requires Valid() && current >= 0 && 0 <= next < MAX_TASKS
      modifies this, slot, procs.slot
      ensures Valid()
      ensures var b := old(State());
              var t1 := WithState(WithState(b.t, b.t.current, Ready), next, Running);
              State() == Both(t1.(current := next, slice := 0, switches := b.t.switches + 1),
                              SetState(SetState(b.p, b.t.slot[b.t.current].pid, Ready), b.t.slot[next].pid, Running))
    {
      var oldPid, newPid := slot[current].pid, slot[next].pid;
      hide SetState;
      Mark(current, Ready);
      Mark(next, Running);
      current := next;
      procs.SetState(oldPid, Ready);
      procs.SetState(newPid, Running);
      slice, switches := 0, switches + 1;
    }

    method OnTimerTick()
      requires Valid()
      modifies this, slot, procs.slot
      ensures Valid() && State() == Tick(old(State()))
    {
      hide SetState, WithState, NextSlot, Charge;
      if current < 0 {
        return;
      }
      ChargeCurrent();
      if used <= 1 || slice < TIMESLICE {
        return;
      }
      var next := FindNext();
      if next >= 0 {
        SwitchTo(next);
      }
    }
  }
}
