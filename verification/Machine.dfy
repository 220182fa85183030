// The kernel's composite operations over its tables, object by object (kernel/ipc.c, kernel/syscall.c, kernel/task.c,
// kernel/exec.c).

module Machine {
  import opened Bytes
  import opened Procs
  import opened Tasks
  import opened Elf
  import opened Args
  import opened Images
  import opened Ipc
  import opened Kernel
  import opened ProcTable
  import opened TaskTable
  import opened IpcTable
  import opened ImageStore

  class Computer {
    const tasks: Scheduler
    const mail: Mailboxes
    const store: Store
    var ring3: int

    /** Everything a kernel entry may change. */
    ghost function Parts(): set<object>
      reads this, tasks
    {
      {this, tasks, tasks.slot, tasks.procs, tasks.procs.slot, tasks.procs.image, mail.box, mail.waiter, store.owner,
       store.images, store.stacks, store.region}
    }

    ghost predicate Valid()
      reads this, tasks, tasks.procs, mail, store
    {
      && tasks.Valid() && mail.Valid() && store.Valid()
      && mail as object !in tasks.Repr && store as object !in tasks.Repr && this !in tasks.Repr
      && this != mail as object && this != store as object
    }

    ghost function State(): (k: Kernel)
      requires Valid()
      reads this, tasks, tasks.procs, mail, store, Parts()
    {
      Kernel(tasks.State(), store.State(), mail.State(), ring3)
    }

    /** The tables as `kmain` leaves them. */
    constructor (stacksAt: U32)
      requires 0 < stacksAt && stacksAt + SLOTS * STACK_SIZE <= IMAGE_BASE
      ensures Valid() && State().b == Both(InitTasks(), Procs.Init()) && State().i == Ipc.Init() && ring3 == 0
      ensures State().m.owner == seq(SLOTS, i => -1)
    {
      var procs := new Processes();
      tasks := new Scheduler(procs);
      mail := new Mailboxes();
      store := new Store(stacksAt);
      ring3 := 0;
    }

    /** `task_set_state` and `proc_set_state`, which always come together. */
    method MarkBoth(pid: int, st: RunState)
      requires Valid()
      modifies Parts() - {this}
      ensures Valid() && State() == old(State()).(b := SetBoth(old(State()).b, pid, st))
    {
      hide Find, FindTask, Tasks.SetTask, Procs.SetState, Snapshots;
      tasks.SetTask(pid, st);
      tasks.procs.SetState(pid, st);
    }

    /** The process leaves user mode in state `st`, and `kmain` is the running task. */
    method LeaveUser(pid: int, st: RunState)
      requires Valid()
      modifies Parts() - {this}
      ensures Valid() && State() == old(State()).(b := ReturnToKernel(SetBoth(old(State()).b, pid, st)))
    {
      hide SetBoth, ReturnToKernel, Snapshots;
      MarkBoth(pid, st);
      tasks.ReturnToKernelMain();
    }

    // ---- messages ------------------------------------------------------------

    /** The end of a delivery: the process READY with its new image entry, its waiter gone. */
    method Wake(dst: int, w: int, im: Image)
      requires Valid() && 0 <= w < BOXES
      modifies Parts() - {this}
      ensures Valid()
      ensures var k := old(State());
              State() == Kernel(SetBoth(Both(k.b.t, Procs.Bind(k.b.p, dst, im)), dst, Ready), k.m,
                                Ipc.ClearWaiter(k.i, w), k.ring3)
    {
      hide SetBoth, Procs.Bind, Ipc.ClearWaiter, Snapshots;
      tasks.procs.Bind(dst, im);
      MarkBoth(dst, Ready);
      mail.ClearWaiter(w);
    }

    /** `ipc_unblock_deliver`. */
    method UnblockDeliver(dst: int, msg: Message) returns (ok: bool)
      requires Valid() && State().Shape()
      modifies Parts() - {this}
      ensures Valid() && (State(), ok) == Deliver(old(State()), dst, msg)
    {
      hide Find, SetBoth, Procs.Bind, Procs.StateOf, Snapshots, WriteToTask, FindWaiter, Ipc.ClearWaiter, Encode;
      var w := mail.FindWaiterSlot(dst);
      if dst < 0 || w < 0 {
        return false;
      }
      var st := tasks.procs.StateOf(dst);
      if st == Unused {
        mail.ClearWaiter(w);
        return false;
      }
      var i := tasks.procs.FindSlot(dst);
      if i < 0 || !tasks.procs.image[i].loaded {
        return false;
      }
      var im := tasks.procs.image[i];
      ok := store.WriteToTaskMemory(tasks.procs, dst, im, mail.waiter[w].ptr, Encode(msg));
      if !ok || !im.contextValid {
        return false;
      }
      Wake(dst, w, im.(context := im.context.(eax := 0)));
    }

    /** `ipc_send`. */
    method Send(src: int, dst: int, msg: Message) returns (ok: bool)
      requires Valid() && State().Shape()
      modifies Parts() - {this}
      ensures Valid() && (State(), ok) == SendMessage(old(State()), src, dst, msg)
    {
      var st := tasks.procs.StateOf(dst);
      if dst < 0 || st == Unused {
        return false;
      }
      var stamped := msg.(src := src, dst := dst);
      ok := UnblockDeliver(dst, stamped);
      if !ok {
        ok := mail.Post(dst, stamped);
      }
    }

    /** `ksys_ipc_send`. */
    method UserSend(ptr: U32) returns (code: int)
      requires Valid() && State().Shape() && State().InUser()
      modifies Parts() - {this}
      ensures Valid() && (State(), Ret(code)) == SysSend(old(State()), ptr)
    {
      var i := tasks.procs.FindSlot(ring3);
      var im := tasks.procs.image[i];
      assert im == State().ImageOf(ring3);
      hide Find, SendMessage, ReadLive, Decode, Snapshots, Validate;
      if ptr == 0 || !Validate(im, ptr, MSG_SIZE) {
        return ERR_FAULT;
      }
      var bytes := store.ReadUser(im, ptr, MSG_SIZE);
      var msg := Decode(bytes);
      var ok := Send(ring3, msg.dst, msg);
      code := if ok then 0 else ERR_AGAIN;
    }

    // ---- stopping ------------------------------------------------------------

    /** The stop of the running process: context, snapshot, both states, `kmain`. */
    method StopUser(st: RunState, frame: Context) returns (ok: bool)
      requires Valid() && State().Shape() && State().InUser()
      modifies Parts()
      ensures Valid() && (State(), if ok then Done else Failed) == Stop(old(State()), st, frame)
    {
      hide Find, SetBoth, ReturnToKernel, Procs.Bind, Snapshots, Snapshot;
      var pid := ring3;
      var i := tasks.procs.FindSlot(pid);
      var im := Saved(tasks.procs.image[i], frame);
      ring3 := 0;
      tasks.procs.Bind(pid, im);
      ok := store.SnapshotImage(tasks.procs, pid, im);
      if ok {
        LeaveUser(pid, st);
      }
    }

    /** Nothing to receive: a waiter and a stop. */
    method BlockUser(ptr: U32, frame: Context) returns (out: Output)
      requires Valid() && State().Shape() && State().InUser()
      modifies Parts()
      ensures Valid()
      ensures var k := old(State());
              var (i2, ok) := BlockRecv(k.i, k.b.p, k.ring3, ptr);
              (State(), out) == if ok then Stop(k.(i := i2), Blocked, frame) else (k, Ret(ERR_AGAIN))
    {
      hide Find, Stop, BlockRecv, Snapshots, StateOf;
      var ok := mail.BlockRecv(tasks.procs, ring3, ptr);
      if !ok {
        BlockRefused(old(State()), ptr);
        return Ret(ERR_AGAIN);
      }
      ok := StopUser(Blocked, frame);
      out := if ok then Done else Failed;
    }

    lemma BlockRefused(k: Kernel, ptr: U32)
      requires k.Shape() && !BlockRecv(k.i, k.b.p, k.ring3, ptr).1
      ensures BlockRecv(k.i, k.b.p, k.ring3, ptr).0 == k.i
    {
    }

    /** `ksys_ipc_recv`: a message at once, or a stop. */
    method UserRecv(ptr: U32, frame: Context) returns (out: Output)
      requires Valid() && State().Shape() && State().InUser()
      modifies Parts()
      ensures Valid() && (State(), out) == SysRecv(old(State()), ptr, frame)
    {
      var i := tasks.procs.FindSlot(ring3);
      var im := tasks.procs.image[i];
      assert im == State().ImageOf(ring3);
      hide Find, Stop, Take, BlockRecv, WriteLive, Encode, Snapshots, Validate, StateOf;
      if ptr == 0 || !Validate(im, ptr, MSG_SIZE) {
        return Ret(ERR_FAULT);
      }
      var got := mail.Take(ring3);
      if got != [] {
        store.WriteUser(im, ptr, Encode(got[0]));
        return Ret(0);
      }
      out := BlockUser(ptr, frame);
    }

    // ---- exiting, starting, resuming -----------------------------------------

    /** Exit, reap, reap: the clean-up shared by exits and failed starts. */
    method DiscardProcess(pid: int, code: int)
      requires Valid()
      modifies Parts() - {this}
      ensures Valid() && State() == old(State()).(b := Discard(old(State()).b, pid, code))
    {
      hide Find, FindTask, Procs.Exit, Procs.Reap, ReapTask, Snapshots;
      tasks.procs.Exit(pid, code);
      tasks.procs.Reap(pid);
      tasks.ReapPid(pid);
    }

    method ExitUser(code: int)
      requires Valid() && State().Shape() && State().InUser()
      modifies Parts()
      ensures Valid() && State() == ExitRun(old(State()), code).0
    {
      hide Find, SetBoth, ReturnToKernel, Discard, Snapshots;
      var pid := ring3;
      LeaveUser(pid, Zombie);
      DiscardProcess(pid, code);
      ring3 := 0;
    }

    /** `task_run_user_until_stop` up to the switch to user mode. */
    method BeginUser(pid: int, args: seq<seq<Byte>>) returns (out: Output)
      requires Valid() && State().Shape() && State().Resident(pid)
      modifies Parts()
      ensures Valid() && (State(), out) == Begin(old(State()), pid, args)
    {
      hide Find, SetBoth, Restore, LayOut, WithStack, Fits, Snapshots;
      var i := tasks.procs.FindSlot(pid);
      var im := tasks.procs.image[i];
      MarkBoth(pid, Running);
      if im.contextValid {
        var ok := store.ResumeImage(tasks.procs, pid, im);
        if !ok {
          return Failed;
        }
        ring3 := pid;
        return Resumed(pid, im.context);
      }
      if im.entry < im.base || im.entry >= im.base + im.size {
        return Failed;
      }
      var ok, sp := store.LayOutArguments(im, args);
      if !ok {
        return Failed;
      }
      ring3 := pid;
      out := Started(pid, im.entry, sp);
    }

    /** `exec_run_elf_path` on a planned program, with its clean-up on every failure. */
    method ExecProgram(plan: Plan, file: seq<Byte>, args: seq<seq<Byte>>) returns (out: Output)
      requires Valid() && State().Shape() && Program(plan, file).Ok()
      modifies Parts()
      ensures Valid() && (State(), out) == ExecPath(old(State()), Program(plan, file), args)
    {
      hide Find, Load, Tasks.Spawn, Begin, Discard, Procs.Bind, Program.Ok, Snapshots;
      var ppid := if tasks.current < 0 then 0 else tasks.slot[tasks.current].pid;
      var pid := tasks.Spawn(ppid);
      if pid < 0 {
        return Failed;
      }
      var im := store.LoadFromPlan(tasks.procs, pid, plan, file);
      if im == None {
        DiscardProcess(pid, -1);
        return Failed;
      }
      tasks.procs.Bind(pid, im.value);
      var i := tasks.procs.FindSlot(pid);
      if i < 0 || !tasks.procs.image[i].loaded {
        return Failed;
      }
      out := BeginUser(pid, args);
      if out == Failed {
        DiscardProcess(pid, -1);
      }
    }

    /** `task_resume_next_ready_user`: the first READY process with a saved context. */
    method ResumeNextReady() returns (out: Output)
      requires Valid() && State().Shape()
      modifies Parts()
      ensures Valid() && (State(), out) == ResumeReady(old(State()))
    {
      hide Find, Begin, Snapshots;
      var j := 0;
      while j < MAX_TASKS
        invariant 0 <= j <= MAX_TASKS && Valid() && State() == old(State())
        invariant forall i :: 0 <= i < j ==> !(tasks.slot[i].state == Ready && tasks.slot[i].pid > 0
                                               && Resumable(tasks.procs.State(), tasks.slot[i].pid))
      {
        var t := tasks.slot[j];
        if t.state == Ready && t.pid > 0 {
          var i := tasks.procs.FindSlot(t.pid);
          if i >= 0 && tasks.procs.image[i].loaded && tasks.procs.image[i].contextValid {
            out := BeginUser(t.pid, []);
            return;
          }
        }
        j := j + 1;
      }
      out := Failed;
    }
  }
}
