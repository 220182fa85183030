// What holds of the two tables at every step boundary of every run (kernel/task.c, kernel/proc.c, kernel/exec.c).

module Boundary {
  import opened Bytes
  import opened Procs
  import opened Tasks
  import opened Images
  import opened Kernel
  import opened KernelInv
  import opened Safety
  import TableInv
  import Elf

  /** One task runs, the current one, and nobody is a zombie. */
  predicate OneRuns(b: Both)
    requires b.Shape()
  {
    && 0 <= b.t.current && b.t.slot[b.t.current].state == Running
    && (forall i :: 0 <= i < MAX_TASKS && b.t.slot[i].state == Running ==> i == b.t.current)
    && (forall i :: 0 <= i < MAX_TASKS ==> b.t.slot[i].state != Zombie && b.p.slot[i].state != Zombie)
  }

  /** A pid has a task exactly when it has a process, and both are in the same state. */
  ghost predicate Paired(b: Both)
    requires b.Shape()
  {
    && (forall pid :: FindTask(b.t, pid) == Find(b.p, pid))
    && (forall pid :: Find(b.p, pid) >= 0 ==> b.t.slot[Find(b.p, pid)].state == b.p.slot[Find(b.p, pid)].state)
    && (forall i, j :: Lives(b, i) && Lives(b, j) && b.t.slot[i].pid == b.t.slot[j].pid ==> i == j)
    && b.t.used == b.p.used == |set i | 0 <= i < MAX_TASKS && Lives(b, i)|
  }

  predicate Lives(b: Both, i: int)
    requires b.Shape()
  {
    0 <= i < MAX_TASKS && b.t.slot[i].state != Unused
  }

  lemma SettledIs(b: Both)
    requires TableInv.Settled(b)
    ensures OneRuns(b) && Paired(b)
  {
    assert TableInv.LiveSet(b) == set i | 0 <= i < MAX_TASKS && Lives(b, i);
    forall pid ensures FindTask(b.t, pid) == Find(b.p, pid) {
      TableInv.FoundIsLive(b, pid);
    }
    forall i, j | Lives(b, i) && Lives(b, j) && b.t.slot[i].pid == b.t.slot[j].pid ensures i == j {
      assert TableInv.Live(b, i) && TableInv.Live(b, j);
    }
  }

  /** From boot, after any number of steps, refused starts included. */
  lemma EveryBoundary(stacksBase: U32, steps: seq<Step>)
    requires 0 < stacksBase && stacksBase + SLOTS * STACK_SIZE <= Elf.IMAGE_BASE
    requires BootKernel(stacksBase).Shape() && CanRun(BootKernel(stacksBase), steps)
    ensures var k := Run(BootKernel(stacksBase), steps); OneRuns(k.b) && Paired(k.b)
  {
    BootInv(stacksBase);
    RunKeeps(BootKernel(stacksBase), steps);
    var k := Run(BootKernel(stacksBase), steps);
    assert CoreInv(k) && TableInv.Settled(k.b);
    SettledIs(k.b);
  }
}
