// When a program starts and when a process resumes: exactly (kernel/exec.c, kernel/task.c, kernel/elf.c).

module Starts {
  import opened Bytes
  import opened Procs
  import opened Tasks
  import opened Elf
  import opened Args
  import opened Images
  import opened Kernel
  import opened KernelInv
  import opened TablePids
  import opened Refine
  import opened Safety
  import opened TableInv

  /** The task table has a free entry (and so has the process table, `SpawnNeedsSlot`), and some image slot has no living owner. */
  predicate HasRoom(k: Kernel)
    requires k.b.Shape()
  {
    FreeEntry(k.b) && SlotToSpare(k.m, k.b.p)
  }

  predicate SlotToSpare(m: Mem, p: Table) {
    exists x :: 0 <= x < |m.owner| && (m.owner[x] < 0 || StateOf(p, m.owner[x]) == Unused)
  }

  lemma SpareIsFree(m: Mem, p: Table)
    ensures FreeSlot(m, p) >= 0 <==> SlotToSpare(m, p)
  {
  }

  predicate FreeEntry(b: Both)
    requires b.Shape()
  {
    exists i :: 0 <= i < MAX_TASKS && b.t.slot[i].state == Unused
  }

  /** The entry point lies in the program's window. */
  predicate EntryInside(prog: Program) {
    prog.plan.base <= prog.plan.entry < prog.plan.base + prog.plan.size
  }

  /** The arguments fit a stack slot; which one does not matter. */
  predicate ArgsFit(m: Mem, args: seq<seq<Byte>>) {
    0 < m.stacksBase && m.stacksBase + SLOTS * STACK_SIZE <= IMAGE_BASE
    && LayOut(Zeros(STACK_SIZE), m.stacksBase, args).ok
  }

  /** Accepting an argument list depends neither on the stack's contents nor on which slot it is. */
  lemma AnySlot(mem: seq<Byte>, base: U32, slot: nat, args: seq<seq<Byte>>)
    requires |mem| == STACK_SIZE && base + (slot + 1) * STACK_SIZE < WORD
    ensures LayOut(mem, base + slot * STACK_SIZE, args).ok <==> LayOut(Zeros(STACK_SIZE), base, args).ok
  {
    var at := base + slot * STACK_SIZE;
    AcceptedArguments(mem, at, args);
    AcceptedArguments(Zeros(STACK_SIZE), base, args);
    var c := Clip(args);
    hide LayOut;
    if Total(c, 0) + 16 <= STACK_SIZE {
      AlignShift(base + STACK_SIZE - Total(c, 0), slot);
    }
  }

  lemma AlignShift(x: nat, slot: nat)
    ensures Align4(x + slot * STACK_SIZE) == Align4(x) + slot * STACK_SIZE
  {
    var y := slot * 1024;
    assert (x + 4 * y) / 4 == x / 4 + y;
  }

  /** A refused entry point or argument list is the only way a fresh image does not begin. */
  lemma BeginsExactly(k: Kernel, pid: int, args: seq<seq<Byte>>)
    requires k.Shape() && k.Resident(pid) && !k.ImageOf(pid).contextValid
    ensures var im := k.ImageOf(pid);
            Begin(k, pid, args).1.Started?
            <==> im.base <= im.entry < im.base + im.size && LayOut(Stack(k.m, im), im.stackBase, args).ok
  {
    hide LayOut, SetBoth, WithStack;
  }

  /** The slot a new pid gets is the first free one. */
  lemma SlotForNew(k: Kernel, p: Table, pid: int)
    requires k.Shape() && OwnerSlot(k.m, pid) < 0 && p.Shape()
    requires forall x :: 0 <= x < SLOTS && k.m.owner[x] >= 0 ==>
               (StateOf(p, k.m.owner[x]) == Unused <==> StateOf(k.b.p, k.m.owner[x]) == Unused)
    ensures SlotForPid(k.m, p, pid).1 == FreeSlot(k.m, k.b.p)
  {
    var a, b := FreeSlot(k.m, p), FreeSlot(k.m, k.b.p);
    if a >= 0 {
      assert k.m.owner[a] < 0 || StateOf(k.b.p, k.m.owner[a]) == Unused;
    }
    if b >= 0 {
      assert k.m.owner[b] < 0 || StateOf(p, k.m.owner[b]) == Unused;
    }
  }

  /** With its table entries made, a planned program begins if and only if it gets a slot and is accepted there. */
  lemma SpawnedBegins(k: Kernel, prog: Program, args: seq<seq<Byte>>, b1: Both)
    requires CoreInv(k) && k.Shape() && k.ring3 == 0 && prog.Ok() && k.b.p.nextPid < MAX_PID
    requires b1.Shape() && Settled(b1) && b1.p.nextPid == k.b.p.nextPid + 1 && ImagesFit(b1.p, k.m)
    requires var pid := k.b.p.nextPid;
             Find(b1.p, pid) >= 0 && StateOf(b1.p, pid) == Ready && forall q :: q != pid ==> SamePid(k.b, b1, q)
    ensures var pid := k.b.p.nextPid;
            var (m2, im) := Load(k.m, b1.p, pid, prog);
            && (im.Some? <==> FreeSlot(k.m, k.b.p) >= 0)
            && (im.Some? ==>
                  var k2 := Kernel(Both(b1.t, Bind(b1.p, pid, im.value)), m2, k.i, k.ring3);
                  && k2.Shape() && k2.Resident(pid)
                  && (Begin(k2, pid, args).1.Started? <==> EntryInside(prog) && ArgsFit(k.m, args)))
  {
    var pid := k.b.p.nextPid;
    NewOwner(k, b1, pid);
    LoadIs(k, b1.p, pid, prog);
    var (m2, im) := Load(k.m, b1.p, pid, prog);
    hide Load;
    if im.Some? {
      LoadedCore(k, prog, b1, m2, im.value);
      hide CoreInv, SamePid, StateOf;
      var k2 := Kernel(Both(b1.t, Bind(b1.p, pid, im.value)), m2, k.i, k.ring3);
      BeginsExactly(k2, pid, args);
      SlotFits(k, prog, im.value, m2, FreeSlot(k.m, k.b.p), args);
    }
  }

  /**
   * `exec` starts a planned program if and only if there is a free process entry and a free image slot, the entry
   * point is inside the image, and the arguments fit the stack.
   */
  lemma ExecStartsExactly(k: Kernel, prog: Program, args: seq<seq<Byte>>)
    requires CoreInv(k) && k.Shape() && k.ring3 == 0 && prog.Ok() && k.b.p.nextPid < MAX_PID
    ensures ExecPath(k, prog, args).1.Started? <==> HasRoom(k) && EntryInside(prog) && ArgsFit(k.m, args)
  {
    var ppid := if k.b.t.current < 0 then 0 else k.b.t.slot[k.b.t.current].pid;
    SpawnByPid(k.b, ppid);
    SpawnNeedsSlot(k.b, ppid);
    SpareIsFree(k.m, k.b.p);
    if Tasks.Spawn(k.b, ppid).1 < 0 {
      assert !ExecPath(k, prog, args).1.Started?;
    } else {
      StartsAfterSpawn(k, prog, args, Tasks.Spawn(k.b, ppid).0);
    }
    hide CoreInv, ExecPath, EntryInside, ArgsFit, FreeSlot, FreeEntry, SlotToSpare;
  }

  /** What starts, starts at the entry point its file names, with the next pid. */
  lemma StartsAtEntry(k: Kernel, prog: Program, args: seq<seq<Byte>>)
    requires CoreInv(k) && k.Shape() && k.ring3 == 0 && prog.Ok() && k.b.p.nextPid < MAX_PID
    ensures var out := ExecPath(k, prog, args).1;
            out.Started? ==> out == Started(k.b.p.nextPid, prog.plan.entry, out.sp)
  {
    ExecCore(k, prog, args);
    hide ExecPath, CoreInv;
  }

  lemma StartsAfterSpawn(k: Kernel, prog: Program, args: seq<seq<Byte>>, b1: Both)
    requires CoreInv(k) && k.Shape() && k.ring3 == 0 && prog.Ok() && k.b.p.nextPid < MAX_PID
    requires b1.Shape() && Settled(b1) && b1.p.nextPid == k.b.p.nextPid + 1 && ImagesFit(b1.p, k.m)
    requires var pid := k.b.p.nextPid;
             && Find(b1.p, pid) >= 0 && StateOf(b1.p, pid) == Ready && (forall q :: q != pid ==> SamePid(k.b, b1, q))
             && pid >= 0
             && Tasks.Spawn(k.b, if k.b.t.current < 0 then 0 else k.b.t.slot[k.b.t.current].pid) == (b1, pid)
    ensures ExecPath(k, prog, args).1.Started?
            <==> FreeSlot(k.m, k.b.p) >= 0 && EntryInside(prog) && ArgsFit(k.m, args)
  {
    ExecStartIs(k, prog, args);
    hide *;
    SpawnedBegins(k, prog, args, b1);
  }

  /** When `exec` starts a program, by the definition. */
  lemma ExecStartIs(k: Kernel, prog: Program, args: seq<seq<Byte>>)
    requires k.Shape() && prog.Ok() && k.ring3 == 0
    ensures var (b1, pid) := Tasks.Spawn(k.b, if k.b.t.current < 0 then 0 else k.b.t.slot[k.b.t.current].pid);
            if pid < 0 then !ExecPath(k, prog, args).1.Started?
            else
              var (m2, im) := Load(k.m, b1.p, pid, prog);
              if im == None then !ExecPath(k, prog, args).1.Started?
              else
                var k2 := Kernel(Both(b1.t, Bind(b1.p, pid, im.value)), m2, k.i, k.ring3);
                ExecPath(k, prog, args).1.Started? <==> k2.Resident(pid) && Begin(k2, pid, args).1.Started?
  {
    hide Tasks.Spawn, Load, Bind, Begin, Discard, Find;
  }

  /** Neither the new entry nor the claim changes who else lives. */
  lemma NewOwner(k: Kernel, b1: Both, pid: int)
    requires CoreInv(k) && k.Shape() && b1.Shape() && pid == k.b.p.nextPid && forall q :: q != pid ==> SamePid(k.b, b1, q)
    ensures OwnerSlot(k.m, pid) < 0 && SlotForPid(k.m, b1.p, pid).1 == FreeSlot(k.m, k.b.p)
  {
    assert OwnersOk(k);
    forall x | 0 <= x < SLOTS && k.m.owner[x] >= 0
      ensures StateOf(b1.p, k.m.owner[x]) == Unused <==> StateOf(k.b.p, k.m.owner[x]) == Unused
    {
      assert SamePid(k.b, b1, k.m.owner[x]);
    }
    hide StateOf, CoreInv, SamePid;
    SlotForNew(k, b1.p, pid);
  }

  /** The image loaded has the plan's entry and window and the stack of its slot. */
  lemma SlotFits(k: Kernel, prog: Program, im: Image, m2: Mem, x: int, args: seq<seq<Byte>>)
    requires k.Shape() && prog.Ok() && 0 <= x < SLOTS && im == NewImage(k.m, prog.plan, x) && m2.Shape() && Fits(m2, im)
    ensures im.base <= im.entry < im.base + im.size <==> EntryInside(prog)
    ensures LayOut(Stack(m2, im), im.stackBase, args).ok <==> ArgsFit(k.m, args)
  {
    AnySlot(Stack(m2, im), k.m.stacksBase, x, args);
    hide LayOut, Stack;
  }

  lemma SpawnNeedsSlot(b: Both, ppid: int)
    requires Settled(b)
    ensures Tasks.Spawn(b, ppid).1 >= 0 <==> FreeEntry(b)
  {
    SpawnKeeps(b, ppid);
    var i := AllocTask(b.t);
    if i < 0 {
      forall j | 0 <= j < MAX_TASKS ensures b.t.slot[j].state != Unused {
        assert Live(b, j);
      }
    } else {
      assert !Live(b, i);
    }
  }

  /** No READY process is stranded: the run loop resumes one if and only if a loaded process is READY. */
  lemma ResumeNextExactly(k: Kernel)
    requires Inv(k) && k.Shape() && k.ring3 == 0
    ensures ResumeReady(k).1.Resumed? <==> exists pid :: k.Resident(pid) && StateOf(k.b.p, pid) == Ready
  {
    var j := NextResumable(k.b);
    if j >= 0 {
      NextIsResident(k);
      ResumeStep(k, k.b.t.slot[j].pid);
    } else {
      forall pid ensures !(k.Resident(pid) && StateOf(k.b.p, pid) == Ready) {
        if k.Resident(pid) && StateOf(k.b.p, pid) == Ready {
          NotPassedOver(k, pid);
        }
      }
    }
  }

  /** The task in slot `j` is a READY process with an image. */
  predicate Waits(k: Kernel, j: int)
    requires k.b.t.Shape() && k.b.p.Shape() && 0 <= j < MAX_TASKS
  {
    k.b.t.slot[j].state == Ready && k.b.t.slot[j].pid > 0 && k.Resident(k.b.t.slot[j].pid)
  }

  /** The one resumed is that of the lowest slot: its context is never missing. */
  lemma LowestResumes(k: Kernel)
    requires Inv(k) && k.Shape() && k.ring3 == 0 && ResumeReady(k).1.Resumed?
    ensures exists j :: 0 <= j < MAX_TASKS && k.b.t.slot[j].pid == ResumeReady(k).1.pid && Waits(k, j)
                        && forall i :: 0 <= i < j ==> !Waits(k, i)
  {
    var j := NextResumable(k.b);
    NextIsResident(k);
    assert Waits(k, j) && k.b.t.slot[j].pid == ResumeReady(k).1.pid;
    forall i | 0 <= i < j ensures !Waits(k, i) {
      if k.Resident(k.b.t.slot[i].pid) {
        assert ResidentOk(k, k.b.t.slot[i].pid);
      }
    }
    hide Begin, Waits;
  }

  lemma NotPassedOver(k: Kernel, pid: int)
    requires CoreInv(k) && k.Shape() && k.ring3 == 0 && k.Resident(pid) && StateOf(k.b.p, pid) == Ready
    ensures NextResumable(k.b) >= 0
  {
    var i := Find(k.b.p, pid);
    FoundIsLive(k.b, pid);
    assert ResidentOk(k, pid);
    var x := k.b.t.slot[i];
    assert x.state == Ready && x.pid > 0 && Resumable(k.b.p, x.pid);
  }
}
