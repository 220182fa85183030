// Safety of the process kernel over all its runs.

module Safety {
  import opened Bytes
  import opened Procs
  import opened Tasks
  import opened TableInv
  import opened TablePids
  import opened Elf
  import opened Images
  import opened Ipc
  import opened Kernel
  import opened KernelInv
  import opened KernelMsg

  // ---- boot ----------------------------------------------------------------

  /** The kernel as kmain leaves it: three kernel tasks, no user image, no message. */
  function BootKernel(stacksBase: U32): (k: Kernel)
  {
    Kernel(TableInv.Boot(),
           Mem(seq(SLOTS, i => -1), seq(SLOTS, i => Zeros(IMAGE_MAX)), Zeros(SLOTS * STACK_SIZE), Zeros(IMAGE_MAX), stacksBase),
           Ipc.Init(), 0)
  }

  lemma BootInv(stacksBase: U32)
    requires 0 < stacksBase && stacksBase + SLOTS * STACK_SIZE <= IMAGE_BASE
    ensures Inv(BootKernel(stacksBase))
  {
    BootSettled();
    var k := BootKernel(stacksBase);
    hide TableInv.Boot;
    forall pid ensures !k.Resident(pid) && StateOf(k.b.p, pid) != Blocked {
      FoundIsLive(k.b, pid);
    }
  }

  // ---- every step ----------------------------------------------------------

  lemma KernelNotBlocked(b: Both)
    requires Settled(b)
    ensures StateOf(b.p, 0) in {Ready, Running}
  {
    SlotOf(b, 0);
  }

  lemma ResumeKeeps(k: Kernel, pid: int)
    requires Inv(k) && k.ring3 == 0 && k.Resident(pid) && StateOf(k.b.p, pid) != Blocked
    ensures Inv(Begin(k, pid, []).0)
  {
    FoundIsLive(k.b, pid);
    assert StateOf(k.b.p, pid) in {Ready, Running};
    ResumeCore(k, pid);
    var r := Begin(k, pid, []).0;
    hide Begin, Find, Blit;
    QuietMessages(k, r, pid);
  }

  lemma ExecKeeps(k: Kernel, prog: Program, args: seq<seq<Byte>>)
    requires Inv(k) && Enabled(k, Step.Exec(prog, args))
    ensures Inv(ExecPath(k, prog, args).0)
  {
    ExecCore(k, prog, args);
    var (r, out) := ExecPath(k, prog, args);
    KernelNotBlocked(k.b);
    KernelNotBlocked(r.b);
    hide ExecPath, Find, OthersKept, NewImage;
    if out == Failed {
      QuietMessages(k, r, 0);
    } else {
      FoundIsLive(k.b, out.pid);
      QuietMessages(k, r, out.pid);
    }
  }

  lemma NextIsResident(k: Kernel)
    requires Inv(k) && NextResumable(k.b) >= 0
    ensures var pid := k.b.t.slot[NextResumable(k.b)].pid; k.Resident(pid) && StateOf(k.b.p, pid) == Ready
  {
    var j := NextResumable(k.b);
    SlotOf(k.b, j);
  }

  lemma StepKeeps(k: Kernel, s: Step)
    requires Inv(k) && Enabled(k, s)
    ensures Inv(Apply(k, s).0)
  {
    var r := Apply(k, s).0;
    match s
    case Exec(prog, args) =>
      ExecKeeps(k, prog, args);
    case ResumeNext =>
      if NextResumable(k.b) >= 0 {
        NextIsResident(k);
        ResumeKeeps(k, k.b.t.slot[NextResumable(k.b)].pid);
      }
    case ResumePid(pid) =>
      if pid > 0 && Resumable(k.b.p, pid) {
        ResumeKeeps(k, pid);
      }
    case Compute(w, st) =>
      ComputeKeeps(k, w, st);
    case Send(ptr) =>
      if BufferOk(k, ptr) {
        SendKeeps(k, MessageAt(k, ptr).dst, MessageAt(k, ptr));
      }
    case Recv(ptr, frame) =>
      RecvKeeps(k, ptr, frame);
    case Yield(frame) =>
      YieldKeeps(k, frame);
    case Exit(code) =>
      ExitKeeps(k, code);
    case Tick =>
      TickStepKeeps(k);
  }

  lemma ComputeKeeps(k: Kernel, w: seq<Byte>, s: seq<Byte>)
    requires Inv(k) && Enabled(k, Compute(w, s))
    ensures Inv(Apply(k, Compute(w, s)).0)
  {
    var r := Apply(k, Compute(w, s)).0;
    MemoryCore(k, r);
    hide Find, Apply;
    QuietMessages(k, r, k.ring3);
  }

  lemma YieldKeeps(k: Kernel, frame: Context)
    requires Inv(k) && k.InUser()
    ensures Inv(Stop(k, Ready, frame).0)
  {
    StopCore(k, Ready, frame);
    var r := Stop(k, Ready, frame).0;
    hide Stop, Find, Blit, Window;
    QuietMessages(k, r, k.ring3);
  }

  lemma ExitKeeps(k: Kernel, code: int)
    requires Inv(k) && k.InUser()
    ensures Inv(ExitRun(k, code).0)
  {
    ExitCore(k, code);
    var r := ExitRun(k, code).0;
    hide ExitRun;
    QuietMessages(k, r, k.ring3);
  }

  lemma TickStepKeeps(k: Kernel)
    requires Inv(k)
    ensures Inv(k.(b := Tasks.Tick(k.b)))
  {
    TickCore(k);
    var r := k.(b := Tasks.Tick(k.b));
    KernelNotBlocked(k.b);
    KernelNotBlocked(r.b);
    assert k.ring3 > 0 ==> SamePid(k.b, r.b, k.ring3);
    hide Tasks.Tick, Find;
    QuietMessages(k, r, 0);
  }

  /**
   * Resuming a named process keeps the invariant exactly when the process is not blocked: the code does not
   * look, and a blocked process that runs again is still waited on.
   */
  lemma ResumeNamedSafe(k: Kernel, pid: int)
    requires Inv(k) && k.ring3 == 0 && pid > 0 && Resumable(k.b.p, pid)
    ensures Inv(ResumeNamed(k, pid).0) <==> StateOf(k.b.p, pid) != Blocked
  {
    if StateOf(k.b.p, pid) == Blocked {
      SetByPid(k.b, pid, Running);
      var r := ResumeNamed(k, pid).0;
      assert r.b == SetBoth(k.b, pid, Running) && r.i == k.i;
      assert BlockedOk(k, pid);
      assert StateOf(r.b.p, pid) == Running && FindWaiter(r.i, pid) >= 0;
      if r.Shape() && WaitersOk(r) {
        WaiterBlocked(r, pid);
      }
    } else {
      ResumeKeeps(k, pid);
    }
  }

  /** Every process that blocks in receive is one that `exec_resume_pid` would resume, and should not. */
  lemma BlockedIsResumable(k: Kernel, ptr: U32, frame: Context)
    requires Inv(k) && k.Shape() && k.InUser() && BufferOk(k, ptr) && Take(k.i, k.ring3).1 == []
    ensures var (r, pid) := (SysRecv(k, ptr, frame).0, k.ring3);
            && Inv(r) && r.ring3 == 0 && StateOf(r.b.p, pid) == Blocked && Resumable(r.b.p, pid)
            && !Inv(ResumeNamed(r, pid).0)
  {
    RecvKeeps(k, ptr, frame);
    BlockIs(k, ptr);
    var k2 := k.(i := BlockRecv(k.i, k.b.p, k.ring3, ptr).0);
    MemoryCore(k, k2);
    StopCore(k2, Blocked, frame);
    var r := SysRecv(k, ptr, frame).0;
    assert r == Stop(k2, Blocked, frame).0;
    hide SysRecv, Stop, BlockRecv, Take, BufferOk, Inv;
    ResumeNamedSafe(r, k.ring3);
  }

  // ---- runs ----------------------------------------------------------------

  /** Each step of the run is enabled when its turn comes. */
  ghost predicate CanRun(k: Kernel, steps: seq<Step>)
    requires k.Shape()
    decreases |steps|
  {
    steps == [] || (Enabled(k, steps[0]) && CanRun(Apply(k, steps[0]).0, steps[1..]))
  }

  ghost function Run(k: Kernel, steps: seq<Step>): (r: Kernel)
    requires k.Shape() && CanRun(k, steps)
    ensures r.Shape()
    decreases |steps|
  {
    if steps == [] then k else Run(Apply(k, steps[0]).0, steps[1..])
  }

  /** The invariant holds at every step boundary of every run. */
  lemma {:induction false} RunKeeps(k: Kernel, steps: seq<Step>)
    requires Inv(k) && CanRun(k, steps)
    ensures Inv(Run(k, steps))
    decreases |steps|
  {
    if steps != [] {
      StepKeeps(k, steps[0]);
      hide Apply, Inv, Enabled;
      RunKeeps(Apply(k, steps[0]).0, steps[1..]);
    }
  }
}
