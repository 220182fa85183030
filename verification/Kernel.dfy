// The process kernel as a state machine: one step per kernel entry (kernel/exec.c, kernel/task.c,
// kernel/syscall.c, kernel/arch/i386/syscall_stubs.asm).  User code runs between the steps; each step
// is atomic, since the gates for system calls and interrupts keep interrupts off.

module Kernel {
  import opened Bytes
  import opened Procs
  import opened Tasks
  import opened Elf
  import opened Args
  import opened Images
  import opened Ipc

  const ERR_AGAIN := -11
  const ERR_FAULT := -14
  const MAX_PID := 0x7FFF_FFFF

  /** `ring3` is the pid in user mode, 0 while the kernel's own loop runs. */
  datatype Kernel = Kernel(b: Both, m: Mem, i: Boxes, ring3: int) {
    ghost predicate Shape() {
      var all := b.Shape() && m.Shape() && i.Shape() && ImagesFit(b.p, m);
      all  // named, so that a caller proves it as one fact
    }
    /** A process is in user mode. */
    ghost predicate InUser() {
      var all :=
        b.p.Shape() && ring3 > 0 && Resident(ring3);
      all
    }
    predicate Resident(pid: int)
      requires b.p.Shape()
    {
      Find(b.p, pid) >= 0 && b.p.image[Find(b.p, pid)].loaded
    }
    function ImageOf(pid: int): Image
      requires b.p.Shape() && Resident(pid)
    {
      b.p.image[Find(b.p, pid)]
    }
  }

  ghost predicate ImagesFit(p: Table, m: Mem)
    requires p.Shape() && m.Shape()
  {
    forall j :: 0 <= j < MAX_PROCS && p.image[j].loaded ==> Fits(m, p.image[j])
  }

  /** What a step makes visible: a refusal, a system call's result, or who runs in user mode from where. */
  datatype Output =
    | Done
    | Failed
    | Ret(code: int)
    | Started(pid: int, eip: U32, sp: int)
    | Resumed(pid: int, context: Context)

  // ---- messages ------------------------------------------------------------

  /** `ipc_unblock_deliver`: the message into the waiting process's memory, and the process READY. */
  ghost function Deliver(k: Kernel, dst: int, msg: Message): (r: (Kernel, bool))
    requires k.Shape()
    ensures r.0.Shape()
  {
    var w := FindWaiter(k.i, dst);
    if dst < 0 || w < 0 then (k, false)
    else if StateOf(k.b.p, dst) == Unused then (k.(i := ClearWaiter(k.i, w)), false)
    else if !k.Resident(dst) then (k, false)
    else
      var im := k.ImageOf(dst);
      var (m1, ok) := WriteToTask(k.m, k.b.p, dst, im, k.i.waiter[w].ptr, Encode(msg));
      if !ok || !im.contextValid then (k.(m := m1), false)
      else
        var p1 := Bind(k.b.p, dst, im.(context := im.context.(eax := 0)));
        (Kernel(SetBoth(Both(k.b.t, p1), dst, Ready), m1, ClearWaiter(k.i, w), k.ring3), true)
  }

  /** `ipc_send`: direct delivery, or else the mailbox. */
  ghost function SendMessage(k: Kernel, src: int, dst: int, msg: Message): (r: (Kernel, bool))
    requires k.Shape()
    ensures r.0.Shape()
  {
    if dst < 0 || StateOf(k.b.p, dst) == Unused then (k, false)
    else
      var stamped := msg.(src := src, dst := dst);
      var (k1, ok) := Deliver(k, dst, stamped);
      if ok then (k1, true)
      else
        var (i1, posted) := Post(k1.i, dst, stamped);
        (k1.(i := i1), posted)
  }

  ghost predicate BufferOk(k: Kernel, ptr: U32)
    requires k.Shape() && k.InUser()
  {
    ptr != 0 && Validate(k.ImageOf(k.ring3), ptr, MSG_SIZE)
  }

  ghost function MessageAt(k: Kernel, ptr: U32): Message
    requires k.Shape() && k.InUser() && BufferOk(k, ptr)
  {
    Decode(ReadLive(k.m, k.ImageOf(k.ring3), ptr, MSG_SIZE))
  }

  /** `ksys_ipc_send` on the message at `ptr`. */
  ghost function SysSend(k: Kernel, ptr: U32): (r: (Kernel, Output))
    requires k.Shape() && k.InUser()
    ensures r.0.Shape()
  {
    if !BufferOk(k, ptr) then (k, Ret(ERR_FAULT))
    else
      var msg := MessageAt(k, ptr);
      var (k1, ok) := SendMessage(k, k.ring3, msg.dst, msg);
      (k1, Ret(if ok then 0 else ERR_AGAIN))
  }

  /** `syscall_save_yield_context`: the user frame, with 0 as the value the call will return. */
  function Saved(im: Image, frame: Context): Image {
    im.(contextValid := true, context := frame.(eax := 0))
  }

  /** The process in user mode stops: context saved, image snapshot, both tables in `st`, kmain running. */
  ghost function Stop(k: Kernel, st: RunState, frame: Context): (r: (Kernel, Output))
    requires k.Shape() && k.InUser()
    ensures r.0.Shape()
  {
    var pid := k.ring3;
    var im := Saved(k.ImageOf(pid), frame);
    var p1 := Bind(k.b.p, pid, im);
    var (m1, ok) := Snapshot(k.m, p1, pid, im);
    if !ok then (Kernel(Both(k.b.t, p1), m1, k.i, 0), Failed)
    else (Kernel(ReturnToKernel(SetBoth(Both(k.b.t, p1), pid, st)), m1, k.i, 0), Done)
  }

  /** `ksys_ipc_recv` into `ptr`; the stub turns "blocked" into a stop. */
  ghost function SysRecv(k: Kernel, ptr: U32, frame: Context): (r: (Kernel, Output))
    requires k.Shape() && k.InUser()
    ensures r.0.Shape()
  {
    if !BufferOk(k, ptr) then (k, Ret(ERR_FAULT))
    else
      var (i1, got) := Take(k.i, k.ring3);
      if got == [] then
        var (i2, ok) := BlockRecv(k.i, k.b.p, k.ring3, ptr);
        if !ok then (k, Ret(ERR_AGAIN)) else Stop(k.(i := i2), Blocked, frame)
      else (k.(i := i1, m := WriteLive(k.m, k.ImageOf(k.ring3), ptr, Encode(got[0]))), Ret(0))
  }

  // ---- starting, resuming, exiting -----------------------------------------

  /** `task_run_user_until_stop` up to the switch to user mode. */
  ghost function Begin(k: Kernel, pid: int, args: seq<seq<Byte>>): (r: (Kernel, Output))
    requires k.Shape() && k.Resident(pid)
    ensures r.0.Shape() && r.1 in {Failed, Started(pid, k.ImageOf(pid).entry, if r.1.Started? then r.1.sp else 0),
                                   Resumed(pid, k.ImageOf(pid).context)}
  {
    var im := k.ImageOf(pid);
    var b1 := SetBoth(k.b, pid, Running);
    if im.contextValid then
      var (m1, ok) := Restore(k.m, b1.p, pid, im);
      if ok then (Kernel(b1, m1, k.i, pid), Resumed(pid, im.context)) else (k.(b := b1, m := m1), Failed)
    else if im.entry < im.base || im.entry >= im.base + im.size then (k.(b := b1), Failed)
    else
      var r := LayOut(Stack(k.m, im), im.stackBase, args);
      var m1 := WithStack(k.m, im, r.mem);
      if r.ok then (Kernel(b1, m1, k.i, pid), Started(pid, im.entry, r.sp)) else (k.(b := b1, m := m1), Failed)
  }

  /** `exec_run_elf_path` on a planned program, clean-up paths included. */
  ghost function ExecPath(k: Kernel, prog: Program, args: seq<seq<Byte>>): (r: (Kernel, Output))
    requires k.Shape() && prog.Ok()
    ensures r.0.Shape()
  {
    var ppid := if k.b.t.current < 0 then 0 else k.b.t.slot[k.b.t.current].pid;
    var (b1, pid) := Tasks.Spawn(k.b, ppid);
    if pid < 0 then (k.(b := b1), Failed)
    else
      var (m1, im) := Load(k.m, b1.p, pid, prog);
      if im.None? then (Kernel(Discard(b1, pid, -1), m1, k.i, k.ring3), Failed)
      else
        var k2 := Kernel(Both(b1.t, Bind(b1.p, pid, im.value)), m1, k.i, k.ring3);
        if !k2.Resident(pid) then (k2, Failed)
        else
          var (k3, out) := Begin(k2, pid, args);
          if out == Failed then (k3.(b := Discard(k3.b, pid, -1)), Failed) else (k3, out)
  }

  predicate Resumable(p: Table, pid: int)
    requires p.Shape()
  {
    Find(p, pid) >= 0 && p.image[Find(p, pid)].loaded && p.image[Find(p, pid)].contextValid
  }

  /** The slot `task_resume_next_ready_user` picks, or -1. */
  function NextResumable(b: Both): (r: int)
    requires b.Shape()
    ensures r < MAX_TASKS
  {
    FirstIndex(b.t.slot, (x: Task) => x.state == Ready && x.pid > 0 && Resumable(b.p, x.pid))
  }

  ghost function ResumeReady(k: Kernel): (r: (Kernel, Output))
    requires k.Shape()
    ensures r.0.Shape()
  {
    var j := NextResumable(k.b);
    if j < 0 then (k, Failed) else Begin(k, k.b.t.slot[j].pid, [])
  }

  /** `exec_resume_pid`, which does not look at the process's state. */
  ghost function ResumeNamed(k: Kernel, pid: int): (r: (Kernel, Output))
    requires k.Shape()
    ensures r.0.Shape()
  {
    if pid <= 0 || !Resumable(k.b.p, pid) then (k, Failed) else Begin(k, pid, [])
  }

  /** The exit stop and the clean-up its callers share. */
  ghost function ExitRun(k: Kernel, code: int): (r: (Kernel, Output))
    requires k.Shape() && k.InUser()
    ensures r.0.Shape()
  {
    var b1 := ReturnToKernel(SetBoth(k.b, k.ring3, Zombie));
    (Kernel(Discard(b1, k.ring3, code), k.m, k.i, 0), Done)
  }

  // ---- steps ---------------------------------------------------------------

  datatype Step =
    | Exec(prog: Program, args: seq<seq<Byte>>)
    | ResumeNext
    | ResumePid(pid: int)
    | Compute(window: seq<Byte>, stack: seq<Byte>)  // user instructions: any change to the own image and stack
    | Send(ptr: U32)
    | Recv(ptr: U32, frame: Context)
    | Yield(frame: Context)
    | Exit(code: int)
    | Tick

  ghost predicate Enabled(k: Kernel, s: Step)
    requires k.Shape()
  {
    match s
    case Exec(prog, _) => k.ring3 == 0 && prog.Ok() && k.b.p.nextPid < MAX_PID
    case ResumeNext => k.ring3 == 0
    case ResumePid(pid) => k.ring3 == 0 && StateOf(k.b.p, pid) != Blocked
    case Compute(w, s) => k.InUser() && |w| == k.ImageOf(k.ring3).size && |s| == STACK_SIZE
    case Tick => true
    case _ => k.InUser()
  }

  ghost function Apply(k: Kernel, s: Step): (r: (Kernel, Output))
    requires k.Shape() && Enabled(k, s)
    ensures r.0.Shape()
  {
    match s
    case Exec(prog, args) => ExecPath(k, prog, args)
    case ResumeNext => ResumeReady(k)
    case ResumePid(pid) => ResumeNamed(k, pid)
    case Compute(w, s) =>
      var im := k.ImageOf(k.ring3);
      (k.(m := WithStack(WithWindow(k.m, im, w), im, s)), Done)
    case Send(ptr) => SysSend(k, ptr)
    case Recv(ptr, frame) => SysRecv(k, ptr, frame)
    case Yield(frame) => Stop(k, Ready, frame)
    case Exit(code) => ExitRun(k, code)
    case Tick => (k.(b := Tasks.Tick(k.b)), Done)
  }
}
