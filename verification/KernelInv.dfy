// The invariant of the process kernel, stated per pid across all its tables, and that every step keeps it.

module KernelInv {
  import opened Bytes
  import opened Procs
  import opened Tasks
  import opened TableInv
  import opened TablePids
  import opened Elf
  import opened Args
  import opened Images
  import opened Ipc
  import opened Kernel

  // ---- memory slots --------------------------------------------------------

  /** No two slots have the same owner, and only issued pids own slots. */
  ghost predicate OwnersOk(k: Kernel)
    requires k.Shape()
  {
    && (forall x, y :: 0 <= x < y < SLOTS && k.m.owner[x] == k.m.owner[y] ==> k.m.owner[x] < 0)
    && forall x :: 0 <= x < SLOTS && k.m.owner[x] >= 0 ==> 0 < k.m.owner[x] < k.b.p.nextPid
  }

  /** A process with a loaded image owns a slot, has that slot's stack, and can be resumed unless it is running. */
  ghost predicate ResidentOk(k: Kernel, pid: int)
    requires k.Shape() && k.Resident(pid)
  {
    var all :=
      && 0 < pid && OwnerSlot(k.m, pid) >= 0
      && k.ImageOf(pid).stackBase == StackBase(k.m, OwnerSlot(k.m, pid))
      && (pid != k.ring3 ==> k.ImageOf(pid).contextValid);
    all
  }

  /** The part of the invariant that does not look at messages. */
  ghost predicate CoreInv(k: Kernel) {
    var all :=
      && k.Shape() && Settled(k.b) && k.b.p.nextPid <= MAX_PID && OwnersOk(k)
      && (forall pid :: k.Resident(pid) ==> ResidentOk(k, pid))
      && (k.ring3 == 0 || k.InUser());
    all
  }

  // ---- receivers -----------------------------------------------------------

  ghost predicate NoPending(i: Boxes, pid: int) {
    FindBox(i, pid) >= 0 ==> !i.box[FindBox(i, pid)].full
  }

  /** A process blocked in receive can be delivered to: it has a waiter, a valid buffer, and an empty mailbox. */
  ghost predicate BlockedOk(k: Kernel, pid: int)
    requires k.Shape()
  {
    var all :=
      && k.Resident(pid) && pid != k.ring3 && FindWaiter(k.i, pid) >= 0
      && Validate(k.ImageOf(pid), k.i.waiter[FindWaiter(k.i, pid)].ptr, MSG_SIZE)
      && NoPending(k.i, pid);
    all
  }

  /** Active waiters belong to distinct blocked processes. */
  ghost predicate WaitersOk(k: Kernel)
    requires k.Shape()
  {
    forall w :: 0 <= w < BOXES && k.i.waiter[w].active ==>
      StateOf(k.b.p, k.i.waiter[w].pid) == Blocked && FindWaiter(k.i, k.i.waiter[w].pid) == w
  }

  /** Mailboxes in use belong to distinct issued pids, and pending messages are well formed. */
  ghost predicate BoxesOk(k: Kernel)
    requires k.Shape()
  {
    forall x :: 0 <= x < BOXES && k.i.box[x].used ==>
      && 0 <= k.i.box[x].pid < k.b.p.nextPid && FindBox(k.i, k.i.box[x].pid) == x
      && (k.i.box[x].full ==> k.i.box[x].msg.Ok())
  }

  ghost predicate MessageInv(k: Kernel)
    requires k.Shape()
  {
    var all :=
      && WaitersOk(k) && BoxesOk(k)
      && (forall pid :: StateOf(k.b.p, pid) == Blocked ==> BlockedOk(k, pid))
      && (k.ring3 > 0 ==> StateOf(k.b.p, k.ring3) != Blocked);
    all
  }

  ghost predicate Inv(k: Kernel) {
    var all :=
      CoreInv(k) && MessageInv(k);
    all
  }

  // ---- slots of resident processes -----------------------------------------

  lemma OwnersDiffer(k: Kernel, p: int, q: int)
    requires k.Shape() && p != q && OwnerSlot(k.m, p) >= 0 && OwnerSlot(k.m, q) >= 0
    ensures OwnerSlot(k.m, p) != OwnerSlot(k.m, q)
  {
  }

  /** A step that leaves a process's table entry, slot and need for a saved context alone keeps it resident. */
  lemma ResidentKept(k: Kernel, r: Kernel, pid: int)
    requires k.Shape() && r.Shape() && SamePid(k.b, r.b, pid) && r.Resident(pid) && (k.Resident(pid) ==> ResidentOk(k, pid))
    requires OwnerSlot(r.m, pid) == OwnerSlot(k.m, pid) && r.m.stacksBase == k.m.stacksBase
    requires pid == k.ring3 ==> pid == r.ring3
    ensures ResidentOk(r, pid)
  {
  }

  // ---- stopping ------------------------------------------------------------

  /** What `Stop` does: kmain runs, the process has state `st`, its frame saved and its window snapshot. */
  ghost predicate Stopped(k: Kernel, r: Kernel, st: RunState, frame: Context)
    requires k.Shape() && k.InUser() && r.Shape() && OwnerSlot(k.m, k.ring3) >= 0
  {
    var all :=
      var pid, o := k.ring3, OwnerSlot(k.m, k.ring3);
      && r.ring3 == 0 && r.i == k.i && r.b.p.nextPid == k.b.p.nextPid
      && r.m == k.m.(snapshot := k.m.snapshot[o := Blit(k.m.snapshot[o], 0, Window(k.m, k.ImageOf(pid)))])
      && Find(r.b.p, pid) == Find(k.b.p, pid) && StateOf(r.b.p, pid) == st
      && r.Resident(pid) && r.ImageOf(pid) == Saved(k.ImageOf(pid), frame)
      && forall q :: q != pid ==> SamePid(k.b, r.b, q);
    all
  }

  lemma SnapshotIs(m: Mem, p: Table, pid: int, im: Image)
    requires m.Shape() && Fits(m, im) && OwnerSlot(m, pid) >= 0
    ensures var o := OwnerSlot(m, pid);
            Snapshot(m, p, pid, im) == (m.(snapshot := m.snapshot[o := Blit(m.snapshot[o], 0, Window(m, im))]), true)
  {
  }

  lemma StopIs(k: Kernel, st: RunState, frame: Context)
    requires CoreInv(k) && k.InUser() && st in {Ready, Blocked}
    ensures ResidentOk(k, k.ring3)
    ensures var (r, out) := Stop(k, st, frame); out == Done && Stopped(k, r, st, frame) && Settled(r.b)
  {
    var pid := k.ring3;
    var im := Saved(k.ImageOf(pid), frame);
    assert ResidentOk(k, pid) && k.Shape() && Settled(k.b) && pid > 0 && Find(k.b.p, pid) >= 0;
    assert Fits(k.m, k.ImageOf(pid)) && Fits(k.m, im) && im.base == k.ImageOf(pid).base && im.size == k.ImageOf(pid).size;
    StopByPid(k.b, pid, im, st);
    SnapshotIs(k.m, Bind(k.b.p, pid, im), pid, im);
    SameWindow(k.m, im, k.ImageOf(pid));
    StopUnfolds(k, st, frame);
    var b := ReturnToKernel(SetBoth(Both(k.b.t, Bind(k.b.p, pid, im)), pid, st));
    assert b.p.image[Find(k.b.p, pid)] == im;
    hide *;
    StoppedIs(k, Stop(k, st, frame).0, st, frame, im, b);
  }

  lemma StopUnfolds(k: Kernel, st: RunState, frame: Context)
    requires k.Shape() && k.InUser() && Fits(k.m, Saved(k.ImageOf(k.ring3), frame))
    ensures var im := Saved(k.ImageOf(k.ring3), frame);
            var p1 := Bind(k.b.p, k.ring3, im);
            var (m1, ok) := Snapshot(k.m, p1, k.ring3, im);
            ok ==> Stop(k, st, frame) == (Kernel(ReturnToKernel(SetBoth(Both(k.b.t, p1), k.ring3, st)), m1, k.i, 0), Done)
  {
    hide Bind, Snapshot, SetBoth, ReturnToKernel, Fits;
  }

  lemma StoppedIs(k: Kernel, r: Kernel, st: RunState, frame: Context, im: Image, b: Both)
    requires k.Shape() && k.InUser() && r.Shape() && OwnerSlot(k.m, k.ring3) >= 0 && Fits(k.m, k.ImageOf(k.ring3))
    requires im == Saved(k.ImageOf(k.ring3), frame) && b.Shape()
    requires var o := OwnerSlot(k.m, k.ring3);
             r == Kernel(b, k.m.(snapshot := k.m.snapshot[o := Blit(k.m.snapshot[o], 0, Window(k.m, k.ImageOf(k.ring3)))]),
                         k.i, 0)
    requires b.p.nextPid == k.b.p.nextPid && Find(b.p, k.ring3) == Find(k.b.p, k.ring3) >= 0
    requires b.p.image[Find(k.b.p, k.ring3)] == im && im.loaded && StateOf(b.p, k.ring3) == st
    requires forall q :: q != k.ring3 ==> SamePid(k.b, b, q)
    ensures Stopped(k, r, st, frame)
  {
    hide Find, OwnerSlot, Blit, Window, StateOf, SamePid, Fits;
  }

  lemma SameWindow(m: Mem, im: Image, im': Image)
    requires m.Shape() && Fits(m, im) && Fits(m, im') && im.base == im'.base && im.size == im'.size
    ensures Window(m, im) == Window(m, im')
  {
  }

  lemma StopCore(k: Kernel, st: RunState, frame: Context)
    requires CoreInv(k) && k.InUser() && st in {Ready, Blocked}
    ensures ResidentOk(k, k.ring3)
    ensures var (r, out) := Stop(k, st, frame); out == Done && CoreInv(r) && Stopped(k, r, st, frame)
  {
    StopIs(k, st, frame);
    var r := Stop(k, st, frame).0;
    StoppedCore(k, r, st, frame);
  }

  lemma StoppedCore(k: Kernel, r: Kernel, st: RunState, frame: Context)
    requires CoreInv(k) && k.InUser() && ResidentOk(k, k.ring3)
    requires r.Shape() && Stopped(k, r, st, frame) && Settled(r.b)
    ensures CoreInv(r)
  {
    SlotsKept(k, r);
    hide Find, Settled, Blit, Window, OwnerSlot;
    forall q | r.Resident(q) ensures ResidentOk(r, q) {
      if q != k.ring3 {
        ResidentKept(k, r, q);
      }
    }
  }

  lemma SlotsKept(k: Kernel, r: Kernel)
    requires k.Shape() && r.Shape() && r.m.owner == k.m.owner && r.b.p.nextPid >= k.b.p.nextPid
    ensures forall pid :: OwnerSlot(r.m, pid) == OwnerSlot(k.m, pid)
    ensures OwnersOk(k) ==> OwnersOk(r)
  {
  }

  // ---- resuming ------------------------------------------------------------

  /** What a resume does: the region is zero but for the snapshot, back at its address. */
  ghost predicate Restored(k: Kernel, r: Kernel, pid: int)
    requires k.Shape() && k.Resident(pid) && r.Shape() && OwnerSlot(k.m, pid) >= 0
  {
    var all :=
      var im, o := k.ImageOf(pid), OwnerSlot(k.m, pid);
      && r.ring3 == pid && r.i == k.i && r.b.p.nextPid == k.b.p.nextPid
      && r.m == k.m.(region := Blit(Zeros(IMAGE_MAX), im.base - IMAGE_BASE, k.m.snapshot[o][..im.size]))
      && StateOf(r.b.p, pid) == Running && r.b.p.image == k.b.p.image
      && forall q :: SamePid(k.b, r.b, q);
    all
  }

  lemma RestoreIs(m: Mem, p: Table, pid: int, im: Image)
    requires m.Shape() && Fits(m, im) && OwnerSlot(m, pid) >= 0
    ensures var o := OwnerSlot(m, pid);
            Restore(m, p, pid, im) ==
            (m.(region := Blit(Zeros(IMAGE_MAX), im.base - IMAGE_BASE, m.snapshot[o][..im.size])), true)
  {
  }

  lemma ResumeCore(k: Kernel, pid: int)
    requires CoreInv(k) && k.ring3 == 0 && k.Resident(pid) && StateOf(k.b.p, pid) in {Ready, Running}
    ensures ResidentOk(k, pid)
    ensures var (r, out) := Begin(k, pid, []);
            CoreInv(r) && Restored(k, r, pid) && out == Resumed(pid, k.ImageOf(pid).context)
  {
    assert ResidentOk(k, pid) && Settled(k.b) && k.Shape();
    assert Fits(k.m, k.ImageOf(pid)) && k.ImageOf(pid).contextValid && Find(k.b.p, pid) >= 0;
    SetRunning(k.b, pid);
    hide *;
    RestoreIs(k.m, SetBoth(k.b, pid, Running).p, pid, k.ImageOf(pid));
    BeginResumes(k, pid);
    RestoredIs(k, Begin(k, pid, []).0, pid, SetBoth(k.b, pid, Running));
    RestoredCore(k, Begin(k, pid, []).0, pid);
  }

  lemma RestoredIs(k: Kernel, r: Kernel, pid: int, b: Both)
    requires k.Shape() && k.Resident(pid) && r.Shape() && OwnerSlot(k.m, pid) >= 0 && b.Shape()
    requires StateOf(b.p, pid) == Running && b.p.image == k.b.p.image && b.p.nextPid == k.b.p.nextPid
    requires forall q :: SamePid(k.b, b, q)
    requires Fits(k.m, k.ImageOf(pid))
    requires var im, o := k.ImageOf(pid), OwnerSlot(k.m, pid);
             r == Kernel(b, k.m.(region := Blit(Zeros(IMAGE_MAX), im.base - IMAGE_BASE, k.m.snapshot[o][..im.size])),
                         k.i, pid)
    ensures Restored(k, r, pid)
  {
    hide StateOf, SamePid, Blit, OwnerSlot;
  }

  lemma BeginResumes(k: Kernel, pid: int)
    requires k.Shape() && k.Resident(pid) && k.ImageOf(pid).contextValid
    ensures var im, b1 := k.ImageOf(pid), SetBoth(k.b, pid, Running);
            var (m1, ok) := Restore(k.m, b1.p, pid, im);
            ok ==> Begin(k, pid, []) == (Kernel(b1, m1, k.i, pid), Resumed(pid, im.context))
  {
    hide Find, SetBoth, Restore, LayOut;
  }

  lemma RestoredCore(k: Kernel, r: Kernel, pid: int)
    requires CoreInv(k) && k.ring3 == 0 && k.Resident(pid) && ResidentOk(k, pid)
    requires r.Shape() && Restored(k, r, pid) && Settled(r.b)
    ensures CoreInv(r)
  {
    SlotsKept(k, r);
    hide Find, Settled, Blit, OwnerSlot;
    assert SamePid(k.b, r.b, pid);
    forall q | r.Resident(q) ensures ResidentOk(r, q) {
      ResidentKept(k, r, q);
    }
  }

  // ---- exit, tick, user code -----------------------------------------------

  lemma ExitCore(k: Kernel, code: int)
    requires CoreInv(k) && k.InUser()
    ensures var (r, out) := ExitRun(k, code);
            && CoreInv(r) && out == Done && r.ring3 == 0 && r.m == k.m && r.i == k.i
            && r.b.p.nextPid == k.b.p.nextPid && Find(r.b.p, k.ring3) < 0
            && forall q :: q != k.ring3 ==> SamePid(k.b, r.b, q)
  {
    ExitByPid(k.b, k.ring3, code);
    var r := ExitRun(k, code).0;
    SlotsKept(k, r);
    hide Find, Settled, OwnerSlot, SetBoth, ReturnToKernel, Discard;
    forall q | r.Resident(q) ensures ResidentOk(r, q) {
      ResidentKept(k, r, q);
    }
  }

  lemma TickCore(k: Kernel)
    requires CoreInv(k)
    ensures var r := k.(b := Tasks.Tick(k.b)); CoreInv(r) && forall q :: SamePid(k.b, r.b, q)
  {
    TickByPid(k.b);
    var r := k.(b := Tasks.Tick(k.b));
    SlotsKept(k, r);
    hide Find, Settled, OwnerSlot, Tasks.Tick;
    if k.ring3 > 0 {
      assert SamePid(k.b, r.b, k.ring3);
    }
    forall q | r.Resident(q) ensures ResidentOk(r, q) {
      ResidentKept(k, r, q);
    }
  }

  /** Steps of a running process that change only memory keep the core. */
  lemma MemoryCore(k: Kernel, r: Kernel)
    requires CoreInv(k) && r.Shape() && r.b == k.b && r.ring3 == k.ring3
    requires r.m.owner == k.m.owner && r.m.stacksBase == k.m.stacksBase
    ensures CoreInv(r)
  {
    SlotsKept(k, r);
    hide Find, Settled, OwnerSlot;
    forall q | r.Resident(q) ensures ResidentOk(r, q) {
      ResidentKept(k, r, q);
    }
  }

  // ---- exec ----------------------------------------------------------------

  /** Memory of every resident process of `k` is where it was and as it was, but for the live region. */
  ghost predicate OthersKept(k: Kernel, m: Mem)
    requires k.Shape() && m.Shape()
  {
    var all :=
      && m.stacksBase == k.m.stacksBase && m.snapshot == k.m.snapshot
      && forall q :: k.Resident(q) ==> OwnerSlot(m, q) == OwnerSlot(k.m, q) && Stack(m, k.ImageOf(q)) == Stack(k.m, k.ImageOf(q));
    all
  }

  lemma OwnerClaimed(m: Mem, pid: int, x: int)
    requires m.Shape() && OwnerSlot(m, pid) < 0 && 0 <= x < SLOTS
    ensures OwnerSlot(m.(owner := m.owner[x := pid]), pid) == x
  {
    var m1 := m.(owner := m.owner[x := pid]);
    forall j | 0 <= j < SLOTS && j != x ensures m1.owner[j] != pid {
      assert m.owner[j] != pid;
    }
    assert m1.owner[x] == pid;
    var r := OwnerSlot(m1, pid);
    assert r >= 0 && m1.owner[r] == pid;
  }

  lemma OwnerElsewhere(m: Mem, pid: int, x: int, q: int)
    requires m.Shape() && 0 <= x < SLOTS && q != pid && OwnerSlot(m, q) >= 0 && m.owner[x] != q
    ensures OwnerSlot(m.(owner := m.owner[x := pid]), q) == OwnerSlot(m, q)
  {
    var m1, y := m.(owner := m.owner[x := pid]), OwnerSlot(m, q);
    assert m1.owner[y] == q;
    assert forall j :: 0 <= j < y ==> m.owner[j] != q && m1.owner[j] != q;
  }

  /** Claiming a slot for a fresh pid takes it from nobody alive. */
  lemma ClaimKeeps(k: Kernel, b1: Both, pid: int)
    requires CoreInv(k) && b1.Shape() && pid == k.b.p.nextPid && forall q :: q != pid ==> SamePid(k.b, b1, q)
    ensures var (m1, x) := SlotForPid(k.m, b1.p, pid);
            && OthersKept(k, m1) && m1.region == k.m.region && m1.stacks == k.m.stacks
            && (x < 0 ==> m1 == k.m)
            && (x >= 0 ==> OwnerSlot(m1, pid) == x && m1 == k.m.(owner := k.m.owner[x := pid]))
            && (x >= 0 ==> forall q :: k.Resident(q) ==> OwnerSlot(k.m, q) != x)
            && (forall i, j :: 0 <= i < j < SLOTS && m1.owner[i] == m1.owner[j] ==> m1.owner[i] < 0)
            && (forall i :: 0 <= i < SLOTS && m1.owner[i] >= 0 ==> 0 < m1.owner[i] <= pid)
  {
    ClaimIs(k, b1.p, pid);
    var (m1, x) := SlotForPid(k.m, b1.p, pid);
    hide Settled, Find, Stack, StateOf, OwnerSlot, SlotForPid, CoreInv;
    if x >= 0 {
      forall q | k.Resident(q)
        ensures OwnerSlot(m1, q) == OwnerSlot(k.m, q) && OwnerSlot(k.m, q) != x
        ensures Stack(m1, k.ImageOf(q)) == Stack(k.m, k.ImageOf(q))
      {
        ClaimApart(k, b1, pid, x, q);
        SameStack(k.m, m1, k.ImageOf(q));
      }
    }
  }

  lemma ClaimIs(k: Kernel, p: Table, pid: int)
    requires CoreInv(k) && k.Shape() && p.Shape() && pid == k.b.p.nextPid
    ensures OwnerSlot(k.m, pid) < 0
    ensures var (m1, x) := SlotForPid(k.m, p, pid);
            && (x < 0 ==> m1 == k.m)
            && (x >= 0 ==> OwnerSlot(m1, pid) == x && m1 == k.m.(owner := k.m.owner[x := pid])
                           && (k.m.owner[x] < 0 || StateOf(p, k.m.owner[x]) == Unused))
            && (forall i, j :: 0 <= i < j < SLOTS && m1.owner[i] == m1.owner[j] ==> m1.owner[i] < 0)
            && (forall i :: 0 <= i < SLOTS && m1.owner[i] >= 0 ==> 0 < m1.owner[i] <= pid)
  {
    assert OwnersOk(k) && k.b.p.nextPid > 0;
    assert OwnerSlot(k.m, pid) < 0;
    var x := SlotForPid(k.m, p, pid).1;
    if x >= 0 {
      OwnerClaimed(k.m, pid, x);
    }
    hide StateOf, CoreInv, OwnerSlot;
  }

  lemma ClaimApart(k: Kernel, b1: Both, pid: int, x: int, q: int)
    requires CoreInv(k) && b1.Shape() && pid == k.b.p.nextPid && (q != pid ==> SamePid(k.b, b1, q)) && k.Resident(q)
    requires OwnerSlot(k.m, pid) < 0 && 0 <= x < SLOTS
    requires k.m.owner[x] < 0 || StateOf(b1.p, k.m.owner[x]) == Unused
    ensures OwnerSlot(k.m, q) != x && OwnerSlot(k.m.(owner := k.m.owner[x := pid]), q) == OwnerSlot(k.m, q)
  {
    assert ResidentOk(k, q) && q != pid;
    FoundIsLive(k.b, q);
    assert StateOf(b1.p, q) != Unused && k.m.owner[OwnerSlot(k.m, q)] == q;
    hide Settled, Find, Stack, StateOf;
    OwnerElsewhere(k.m, pid, x, q);
  }

  /** An exec that does not reach user mode leaves no process and touches nobody's memory or state. */
  ghost predicate ExecRefused(k: Kernel, r: Kernel)
    requires k.Shape() && r.Shape()
  {
    var all :=
      && r.ring3 == 0 && r.i == k.i && k.b.p.nextPid <= r.b.p.nextPid <= k.b.p.nextPid + 1
      && OthersKept(k, r.m) && forall q :: SamePid(k.b, r.b, q);
    all
  }

  /** An exec that succeeds: a new pid in user mode, with its own slot, image and argument stack. */
  ghost predicate ExecStarted(k: Kernel, r: Kernel, prog: Program, args: seq<seq<Byte>>, pid: int, sp: int)
    requires k.Shape() && r.Shape() && prog.Ok()
  {
    var all :=
      && pid == k.b.p.nextPid && r.b.p.nextPid == pid + 1 && Find(k.b.p, pid) < 0
      && r.ring3 == pid && r.i == k.i && OthersKept(k, r.m)
      && (forall q :: q != pid ==> SamePid(k.b, r.b, q))
      && r.Resident(pid) && StateOf(r.b.p, pid) == Running
      && OwnerSlot(r.m, pid) >= 0 && r.ImageOf(pid) == NewImage(k.m, prog.plan, OwnerSlot(r.m, pid))
      && r.m.region == LoadSegments(Zeros(IMAGE_MAX), prog.plan.segs, prog.file)
      && var lay := LayOut(Stack(k.m, r.ImageOf(pid)), r.ImageOf(pid).stackBase, args);
         lay.ok && sp == lay.sp && Stack(r.m, r.ImageOf(pid)) == lay.mem;
    all
  }

  /** Writing to one slot's stack leaves the stacks of the other slots alone. */
  lemma StackElsewhere(m: Mem, im: Image, s: seq<Byte>, o: Image, x: int, y: int)
    requires m.Shape() && Fits(m, im) && Fits(m, o) && |s| == STACK_SIZE
    requires 0 <= x < SLOTS && 0 <= y < SLOTS && x != y
    requires im.stackBase == StackBase(m, x) && o.stackBase == StackBase(m, y)
    ensures Stack(WithStack(m, im, s), o) == Stack(m, o)
  {
    var lo := o.stackBase - m.stacksBase;
    BlitFrame(m.stacks, im.stackBase - m.stacksBase, s, lo, lo + STACK_SIZE);
  }

  lemma StackThere(m: Mem, im: Image, s: seq<Byte>)
    requires m.Shape() && Fits(m, im) && |s| == STACK_SIZE
    ensures Stack(WithStack(m, im, s), im) == s
  {
    BlitRead(m.stacks, im.stackBase - m.stacksBase, s);
  }

  /** Laying out arguments in a claimed slot keeps everybody else's stack. */
  lemma OthersKeptStack(k: Kernel, m: Mem, pid: int, im: Image, s: seq<Byte>)
    requires CoreInv(k) && m.Shape() && OthersKept(k, m) && Fits(m, im) && |s| == STACK_SIZE
    requires OwnerSlot(m, pid) >= 0 && im.stackBase == StackBase(m, OwnerSlot(m, pid))
    requires forall q :: k.Resident(q) ==> OwnerSlot(k.m, q) != OwnerSlot(m, pid)
    ensures OthersKept(k, WithStack(m, im, s))
  {
    var r := WithStack(m, im, s);
    hide OwnerSlot, Find, Blit, WithStack, Stack, StackBase;
    forall q | k.Resident(q)
      ensures OwnerSlot(r, q) == OwnerSlot(k.m, q) && Stack(r, k.ImageOf(q)) == Stack(k.m, k.ImageOf(q))
    {
      assert ResidentOk(k, q);
      SameOwners(m, r, q);
      SameStackBase(k.m, m, OwnerSlot(k.m, q));
      StackElsewhere(m, im, s, k.ImageOf(q), OwnerSlot(m, pid), OwnerSlot(k.m, q));
    }
    WithStackKeeps(m, im, s);
  }

  lemma WithStackKeeps(m: Mem, im: Image, s: seq<Byte>)
    requires m.Shape() && Fits(m, im) && |s| == STACK_SIZE
    ensures var r := WithStack(m, im, s); r == m.(stacks := r.stacks)
  {
  }

  lemma SameOwners(m: Mem, r: Mem, q: int)
    requires m.Shape() && r.Shape() && m.owner == r.owner
    ensures OwnerSlot(m, q) == OwnerSlot(r, q)
  {
  }

  lemma SameStackBase(m: Mem, r: Mem, x: int)
    requires m.Shape() && r.Shape() && m.stacksBase == r.stacksBase && 0 <= x < SLOTS
    ensures StackBase(m, x) == StackBase(r, x)
  {
  }

  /** No two slots of `m` have the same owner, all owners being pids up to `last`. */
  ghost predicate Owners(m: Mem, last: int)
    requires m.Shape()
  {
    && (forall i, j :: 0 <= i < j < SLOTS && m.owner[i] == m.owner[j] ==> m.owner[i] < 0)
    && forall i :: 0 <= i < SLOTS && m.owner[i] >= 0 ==> 0 < m.owner[i] <= last
  }

  /** Clean-up after a failed start. */
  lemma RefusedCore(k: Kernel, b: Both, m: Mem, pid: int)
    requires CoreInv(k) && k.ring3 == 0 && pid == k.b.p.nextPid < MAX_PID && m.Shape() && OthersKept(k, m) && Owners(m, pid)
    requires Settled(b) && Find(b.p, pid) >= 0 && b.p.nextPid == pid + 1 && forall q :: q != pid ==> SamePid(k.b, b, q)
    requires ImagesFit(b.p, m)
    ensures var r := Kernel(Discard(b, pid, -1), m, k.i, 0); CoreInv(r) && ExecRefused(k, r)
  {
    var r := Kernel(Discard(b, pid, -1), m, k.i, 0);
    DiscardedSame(k, b, pid);
    hide Discard, Settled, Find, OwnerSlot, Stack, CoreInv, SamePid, OthersKept, ImagesFit, Owners;
    assert r.Shape() by {
      DiscardFits(b, m, pid);
    }
    QuietCore(k, r);
  }

  lemma DiscardFits(b: Both, m: Mem, pid: int)
    requires b.Shape() && m.Shape() && ImagesFit(b.p, m)
    ensures ImagesFit(Discard(b, pid, -1).p, m)
  {
    hide Fits;
  }

  /** A failed start leaves the tables of everybody else, and of nobody new. */
  lemma DiscardedSame(k: Kernel, b: Both, pid: int)
    requires CoreInv(k) && k.Shape() && pid == k.b.p.nextPid && Settled(b) && Find(b.p, pid) >= 0 && b.p.nextPid == pid + 1
    requires forall q :: q != pid ==> SamePid(k.b, b, q)
    ensures var r := Discard(b, pid, -1); Settled(r) && r.p.nextPid == pid + 1 && forall q :: SamePid(k.b, r, q)
  {
    FoundIsLive(k.b, pid);
    DiscardByPid(b, pid, -1);
    var r := Discard(b, pid, -1);
    hide Discard, Settled, Find;
    forall q ensures SamePid(k.b, r, q) {
      if q != pid {
        SamePidTrans(k.b, b, r, q);
      }
    }
  }

  /** What tables and memory owe the invariant when nobody runs and everybody is as before. */
  lemma QuietCore(k: Kernel, r: Kernel)
    requires CoreInv(k) && k.ring3 == 0 && r.ring3 == 0 && r.Shape() && Settled(r.b) && OthersKept(k, r.m)
    requires k.b.p.nextPid <= r.b.p.nextPid <= MAX_PID && Owners(r.m, r.b.p.nextPid - 1)
    requires forall q :: SamePid(k.b, r.b, q)
    ensures CoreInv(r)
  {
    hide Settled, Find, OwnerSlot, Stack;
    forall q | r.Resident(q) ensures ResidentOk(r, q) {
      assert SamePid(k.b, r.b, q);
      ResidentKept(k, r, q);
    }
  }

  lemma LoadIs(k: Kernel, p: Table, pid: int, prog: Program)
    requires k.Shape() && prog.Ok()
    ensures var (m1, x) := SlotForPid(k.m, p, pid);
            var (m2, im) := Load(k.m, p, pid, prog);
            if x < 0 then im == None && m2 == m1
            else
              && im == Some(NewImage(k.m, prog.plan, x))
              && m2 == m1.(region := LoadSegments(Zeros(IMAGE_MAX), prog.plan.segs, prog.file))
  {
  }

  /** The process just before `Begin`: spawned, loaded and bound. */
  lemma LoadedCore(k: Kernel, prog: Program, b1: Both, m2: Mem, im: Image)
    requires CoreInv(k) && k.ring3 == 0 && prog.Ok() && k.b.p.nextPid < MAX_PID
    requires Settled(b1) && b1.p.nextPid == k.b.p.nextPid + 1 && ImagesFit(b1.p, k.m)
    requires var pid := k.b.p.nextPid;
             Find(b1.p, pid) >= 0 && StateOf(b1.p, pid) == Ready && forall q :: q != pid ==> SamePid(k.b, b1, q)
    requires Load(k.m, b1.p, k.b.p.nextPid, prog) == (m2, Some(im))
    ensures var pid := k.b.p.nextPid;
            var b2 := Both(b1.t, Bind(b1.p, pid, im));
            var k2 := Kernel(b2, m2, k.i, 0);
            && k2.Shape() && Settled(b2) && b2.p.nextPid == pid + 1 && StateOf(b2.p, pid) == Ready
            && k2.Resident(pid) && k2.ImageOf(pid) == im
            && (forall q :: q != pid ==> SamePid(k.b, b2, q))
            && OthersKept(k, m2) && Owners(m2, pid)
            && OwnerSlot(m2, pid) >= 0 && im == NewImage(k.m, prog.plan, OwnerSlot(m2, pid))
            && (forall q :: k.Resident(q) ==> OwnerSlot(k.m, q) != OwnerSlot(m2, pid))
            && m2.region == LoadSegments(Zeros(IMAGE_MAX), prog.plan.segs, prog.file) && m2.stacks == k.m.stacks
  {
    var pid := k.b.p.nextPid;
    LoadIs(k, b1.p, pid, prog);
    ClaimKeeps(k, b1, pid);
    var (m1, x) := SlotForPid(k.m, b1.p, pid);
    SameOwnersAll(m1, m2);
    BindByPid(b1, pid, im);
    hide Load, SlotForPid, Settled, LoadSegments, Bind, Stack, StackBase;
    var b2 := Both(b1.t, Bind(b1.p, pid, im));
    forall q | q != pid ensures SamePid(k.b, b2, q) {
      BoundElsewhere(b1, pid, q, im);
      SamePidTrans(k.b, b1, b2, q);
    }
    SameStacks(k, m1, m2);
  }

  lemma SameOwnersAll(m: Mem, r: Mem)
    requires m.Shape() && r.Shape() && m.owner == r.owner
    ensures forall q :: OwnerSlot(m, q) == OwnerSlot(r, q)
  {
  }

  lemma SameStacks(k: Kernel, m: Mem, r: Mem)
    requires k.Shape() && m.Shape() && r.Shape() && OthersKept(k, m) && m == r.(region := m.region)
    requires forall q :: OwnerSlot(m, q) == OwnerSlot(r, q)
    ensures OthersKept(k, r)
  {
    hide OwnerSlot, Find;
    forall q | k.Resident(q)
      ensures OwnerSlot(r, q) == OwnerSlot(k.m, q) && Stack(r, k.ImageOf(q)) == Stack(k.m, k.ImageOf(q))
    {
      assert Stack(m, k.ImageOf(q)) == Stack(r, k.ImageOf(q));
    }
  }

  /** `Begin` on a process without a saved context, branch by branch. */
  lemma BeginFreshIs(k: Kernel, pid: int, args: seq<seq<Byte>>)
    requires k.Shape() && k.Resident(pid) && !k.ImageOf(pid).contextValid
    ensures var im := k.ImageOf(pid);
            var lay := LayOut(Stack(k.m, im), im.stackBase, args);
            var (r, out) := Begin(k, pid, args);
            && r.b == SetBoth(k.b, pid, Running) && r.i == k.i
            && (out == Failed ==> (r.m == k.m || r.m == WithStack(k.m, im, lay.mem)) && r.ring3 == k.ring3)
            && (out != Failed ==>
                 lay.ok && out == Started(pid, im.entry, lay.sp) && r.ring3 == pid && r.m == WithStack(k.m, im, lay.mem))
  {
  }

  lemma ExecCore(k: Kernel, prog: Program, args: seq<seq<Byte>>)
    requires CoreInv(k) && k.ring3 == 0 && prog.Ok() && k.b.p.nextPid < MAX_PID
    ensures var (r, out) := ExecPath(k, prog, args);
            && CoreInv(r)
            && (out == Failed || out.Started?)
            && (out == Failed ==> ExecRefused(k, r))
            && (out.Started? ==> out.eip == prog.plan.entry && ExecStarted(k, r, prog, args, out.pid, out.sp))
  {
    var ppid := if k.b.t.current < 0 then 0 else k.b.t.slot[k.b.t.current].pid;
    var (b1, pid) := Tasks.Spawn(k.b, ppid);
    SpawnByPid(k.b, ppid);
    if pid < 0 {
      assert ExecPath(k, prog, args) == (k, Failed);
      forall q ensures SamePid(k.b, k.b, q) {}
    } else {
      hide CoreInv, ExecStarted, ExecRefused, SamePid, StateOf, Find;
      SpawnedCore(k, prog, args, b1);
    }
  }

  /** The rest of `exec`, with the new process in the tables. */
  lemma SpawnedCore(k: Kernel, prog: Program, args: seq<seq<Byte>>, b1: Both)
    requires CoreInv(k) && k.Shape() && k.ring3 == 0 && prog.Ok() && k.b.p.nextPid < MAX_PID
    requires Settled(b1) && b1.p.nextPid == k.b.p.nextPid + 1 && ImagesFit(b1.p, k.m)
    requires var pid := k.b.p.nextPid;
             && Find(b1.p, pid) >= 0 && StateOf(b1.p, pid) == Ready && (forall q :: q != pid ==> SamePid(k.b, b1, q))
             && Tasks.Spawn(k.b, if k.b.t.current < 0 then 0 else k.b.t.slot[k.b.t.current].pid) == (b1, pid)
    ensures var (r, out) := ExecPath(k, prog, args);
            && CoreInv(r) && (out == Failed || out.Started?)
            && (out == Failed ==> ExecRefused(k, r))
            && (out.Started? ==> out.eip == prog.plan.entry && ExecStarted(k, r, prog, args, out.pid, out.sp))
  {
    var pid := k.b.p.nextPid;
    LoadIs(k, b1.p, pid, prog);
    ClaimKeeps(k, b1, pid);
    var (m2, im) := Load(k.m, b1.p, pid, prog);
    hide Begin, Discard, Bind, Load, Tasks.Spawn, CoreInv, ExecStarted, ExecRefused, SamePid, StateOf, Find, Settled;
    if im == None {
      hide SlotForPid;
      RefusedCore(k, b1, m2, pid);
      assert ExecPath(k, prog, args) == (Kernel(Discard(b1, pid, -1), m2, k.i, 0), Failed);
    } else {
      hide SlotForPid, OthersKept, Owners, NewImage;
      ExecRun(k, prog, args, b1, m2, im.value);
    }
  }

  lemma ExecRun(k: Kernel, prog: Program, args: seq<seq<Byte>>, b1: Both, m2: Mem, im: Image)
    requires CoreInv(k) && k.ring3 == 0 && prog.Ok() && k.b.p.nextPid < MAX_PID
    requires Settled(b1) && b1.p.nextPid == k.b.p.nextPid + 1 && ImagesFit(b1.p, k.m)
    requires var pid := k.b.p.nextPid;
             Find(b1.p, pid) >= 0 && StateOf(b1.p, pid) == Ready && forall q :: q != pid ==> SamePid(k.b, b1, q)
    requires Load(k.m, b1.p, k.b.p.nextPid, prog) == (m2, Some(im))
    ensures var pid := k.b.p.nextPid;
            var k2 := Kernel(Both(b1.t, Bind(b1.p, pid, im)), m2, k.i, 0);
            && k2.Shape() && k2.Resident(pid)
            && var (k3, out) := Begin(k2, pid, args);
               && (out == Failed || out.Started?)
               && (out == Failed ==>
                    var r := k3.(b := Discard(k3.b, pid, -1)); CoreInv(r) && ExecRefused(k, r))
               && (out.Started? ==> out.eip == prog.plan.entry && CoreInv(k3) && ExecStarted(k, k3, prog, args, out.pid, out.sp))
  {
    var pid := k.b.p.nextPid;
    LoadedCore(k, prog, b1, m2, im);
    var b2 := Both(b1.t, Bind(b1.p, pid, im));
    var k2 := Kernel(b2, m2, k.i, 0);
    BeginFreshIs(k2, pid, args);
    RunningSame(k, b2, pid);
    assert Fits(m2, im) && !im.contextValid && Find(k.b.p, pid) < 0;
    hide CoreInv, Load, Bind, LoadSegments, LayOut, Find, OwnerSlot, Settled, Stack, WithStack, Begin, SetBoth, SamePid,
         OthersKept, Owners, ExecStarted, ExecRefused, NewImage, StateOf;
    var (k3, out) := Begin(k2, pid, args);
    var lay := LayOut(Stack(m2, im), im.stackBase, args);
    OthersKeptStack(k, m2, pid, im, lay.mem);
    OwnersStack(m2, WithStack(m2, im, lay.mem), pid);
    if out == Failed {
      RefusedCore(k, k3.b, k3.m, pid);
    } else {
      SameStack(k.m, m2, im);
      StackThere(m2, im, lay.mem);
      BegunIs(k, k3, prog, args, pid, im, lay, m2);
      StartedCore(k, k3, prog, args, pid, lay.sp);
    }
  }

  /** Making the new process RUNNING leaves everybody else's entries as they were. */
  lemma RunningSame(k: Kernel, b2: Both, pid: int)
    requires CoreInv(k) && k.Shape() && pid == k.b.p.nextPid && Settled(b2) && StateOf(b2.p, pid) == Ready
    requires Find(b2.p, pid) >= 0 && forall q :: q != pid ==> SamePid(k.b, b2, q)
    ensures var b3 := SetBoth(b2, pid, Running);
            && Settled(b3) && b3.p.nextPid == b2.p.nextPid && b3.p.image == b2.p.image
            && StateOf(b3.p, pid) == Running && Find(b3.p, pid) == Find(b2.p, pid)
            && Find(k.b.p, pid) < 0 && forall q :: q != pid ==> SamePid(k.b, b3, q)
  {
    FoundIsLive(k.b, pid);
    assert Find(k.b.p, pid) < 0;
    SetRunning(b2, pid);
    var b3 := SetBoth(b2, pid, Running);
    assert SamePid(b2, b3, pid);
    hide Find, Settled, SetBoth, CoreInv;
    forall q | q != pid ensures SamePid(k.b, b3, q) {
      SamePidTrans(k.b, b2, b3, q);
    }
  }

  lemma BegunIs(k: Kernel, k3: Kernel, prog: Program, args: seq<seq<Byte>>, pid: int, im: Image, lay: Layout, m2: Mem)
    requires k.Shape() && k3.Shape() && prog.Ok() && pid == k.b.p.nextPid && k3.b.p.nextPid == pid + 1
    requires Find(k.b.p, pid) < 0 && k3.ring3 == pid && k3.i == k.i && OthersKept(k, k3.m)
    requires forall q :: q != pid ==> SamePid(k.b, k3.b, q)
    requires k3.Resident(pid) && StateOf(k3.b.p, pid) == Running && k3.ImageOf(pid) == im
    requires OwnerSlot(k3.m, pid) >= 0 && im == NewImage(k.m, prog.plan, OwnerSlot(k3.m, pid))
    requires k3.m.region == LoadSegments(Zeros(IMAGE_MAX), prog.plan.segs, prog.file)
    requires Fits(k.m, im) && lay.ok && lay == LayOut(Stack(k.m, im), im.stackBase, args)
    requires Fits(k3.m, im) && Stack(k3.m, im) == lay.mem
    ensures ExecStarted(k, k3, prog, args, pid, lay.sp)
  {
    hide Find, OwnerSlot, Stack, LayOut, LoadSegments, SamePid, OthersKept, StateOf, NewImage;
  }

  lemma OwnersStack(m: Mem, r: Mem, pid: int)
    requires m.Shape() && r.Shape() && r == m.(stacks := r.stacks) && Owners(m, pid)
    ensures Owners(r, pid) && forall q :: OwnerSlot(m, q) == OwnerSlot(r, q)
  {
  }

  lemma SameStack(m: Mem, r: Mem, im: Image)
    requires m.Shape() && r.Shape() && Fits(m, im) && r.stacks == m.stacks && r.stacksBase == m.stacksBase
    ensures Stack(m, im) == Stack(r, im)
  {
  }

  lemma StartedCore(k: Kernel, r: Kernel, prog: Program, args: seq<seq<Byte>>, pid: int, sp: int)
    requires CoreInv(k) && k.ring3 == 0 && r.Shape() && Settled(r.b) && prog.Ok() && pid == k.b.p.nextPid < MAX_PID
    requires ExecStarted(k, r, prog, args, pid, sp) && Owners(r.m, pid)
    ensures CoreInv(r)
  {
    assert pid > 0;
    hide OwnerSlot, Settled, Stack, LayOut, LoadSegments;
    SameStackBase(k.m, r.m, OwnerSlot(r.m, pid));
    forall q | r.Resident(q) ensures ResidentOk(r, q) {
      if q != pid {
        assert SamePid(k.b, r.b, q);
        ResidentKept(k, r, q);
      }
    }
  }
}
