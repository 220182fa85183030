// The kernel refines the machine with one private memory per process.

module Refine {
  import opened Bytes
  import opened Procs
  import opened Tasks
  import opened TableInv
  import opened TablePids
  import opened Elf
  import opened Args
  import opened Images
  import opened Ipc
  import opened Kernel
  import opened KernelInv
  import opened KernelMsg
  import opened Private
  import opened Safety

  // ---- abstraction ---------------------------------------------------------

  ghost function Waiting(i: Boxes, pid: int): Option<U32> {
    if FindWaiter(i, pid) >= 0 then Some(i.waiter[FindWaiter(i, pid)].ptr) else None
  }

  /** The bytes of a process's image: live in the region while it runs, in its snapshot otherwise. */
  ghost function ImageBytes(k: Kernel, pid: int): (r: seq<Byte>)
    requires k.Shape() && k.Resident(pid) && OwnerSlot(k.m, pid) >= 0
    ensures |r| == k.ImageOf(pid).size
  {
    if pid == k.ring3 then Window(k.m, k.ImageOf(pid))
    else k.m.snapshot[OwnerSlot(k.m, pid)][..k.ImageOf(pid).size]
  }

  ghost function View(k: Kernel, pid: int): AProc
    requires k.Shape() && k.Resident(pid) && OwnerSlot(k.m, pid) >= 0
  {
    var im := k.ImageOf(pid);
    AProc(im.base, ImageBytes(k, pid), im.stackBase, Stack(k.m, im),
          if pid == k.ring3 then None else Some(im.context), Waiting(k.i, pid))
  }

  ghost function BoxPids(i: Boxes): set<int> {
    set x | 0 <= x < |i.box| && i.box[x].used :: i.box[x].pid
  }

  ghost function AbsBox(i: Boxes): map<int, seq<Message>> {
    map pid | pid in BoxPids(i) :: Pending(i, pid)
  }

  ghost function Abs(k: Kernel): AState
    requires CoreInv(k)
  {
    AState(imap pid | k.Resident(pid) :: assert ResidentOk(k, pid); View(k, pid),
           (iset pid | Find(k.b.p, pid) >= 0), k.ring3, AbsBox(k.i), k.b.p.nextPid - 1)
  }

  lemma BoxPidsAre(i: Boxes, pid: int)
    requires DistinctBoxes(i)
    ensures pid in BoxPids(i) <==> HasBox(i, pid)
  {
    if HasBox(i, pid) {
      assert i.box[FindBox(i, pid)].used && i.box[FindBox(i, pid)].pid == pid;
    }
  }

  /** There is a box to claim exactly while fewer than 32 pids have one. */
  lemma BoxRoom(i: Boxes)
    requires i.Shape() && DistinctBoxes(i)
    ensures FreeBox(i) >= 0 <==> |AbsBox(i)| < BOXES
  {
    var n := |i.box|;
    BoxPrefix(i, n);
    AllPids(i, n);
    FreeBoxIs(i);
    BoxCount(i);
    hide PidsUpTo, BoxPids, DistinctBoxes, FreeBox, AbsBox;
  }

  lemma FreeBoxIs(i: Boxes)
    ensures FreeBox(i) < 0 <==> forall x :: 0 <= x < |i.box| ==> i.box[x].used
  {
  }

  lemma BoxCount(i: Boxes)
    ensures |AbsBox(i)| == |BoxPids(i)|
  {
    assert AbsBox(i).Keys == BoxPids(i);
  }

  lemma AllPids(i: Boxes, n: nat)
    requires n == |i.box|
    ensures PidsUpTo(i, n) == BoxPids(i)
  {
    hide PidsUpTo;
    forall pid ensures pid in PidsUpTo(i, n) <==> pid in BoxPids(i) {
      PidsAre(i, n, pid);
    }
  }

  /** The pids of the boxes in use among the first `n`. */
  ghost function PidsUpTo(i: Boxes, n: nat): set<int>
    requires n <= |i.box|
  {
    if n == 0 then {}
    else if i.box[n - 1].used then PidsUpTo(i, n - 1) + {i.box[n - 1].pid}
    else PidsUpTo(i, n - 1)
  }

  lemma {:induction false} PidsAre(i: Boxes, n: nat, pid: int)
    requires n <= |i.box|
    ensures pid in PidsUpTo(i, n) <==> exists x :: 0 <= x < n && i.box[x].used && i.box[x].pid == pid
  {
    if n > 0 {
      PidsAre(i, n - 1, pid);
    }
  }

  lemma PidsStep(i: Boxes, n: nat)
    requires DistinctBoxes(i) && n < |i.box|
    ensures |PidsUpTo(i, n + 1)| == |PidsUpTo(i, n)| + if i.box[n].used then 1 else 0
  {
    if i.box[n].used {
      PidsAre(i, n, i.box[n].pid);
      forall x | 0 <= x < n && i.box[x].used ensures i.box[x].pid != i.box[n].pid {
        assert FindBox(i, i.box[x].pid) == x && FindBox(i, i.box[n].pid) == n;
      }
    }
  }

  lemma {:induction false} BoxPrefix(i: Boxes, n: nat)
    requires DistinctBoxes(i) && n <= |i.box|
    ensures |PidsUpTo(i, n)| <= n
    ensures |PidsUpTo(i, n)| == n <==> forall x :: 0 <= x < n ==> i.box[x].used
  {
    if n > 0 {
      BoxPrefix(i, n - 1);
      PidsStep(i, n - 1);
      hide PidsUpTo, FindBox, DistinctBoxes;
    }
  }

  // ---- views under a step --------------------------------------------------

  ghost predicate SameKey(a: imap<int, AProc>, b: imap<int, AProc>, q: int) {
    (q in a <==> q in b) && (q in a ==> a[q] == b[q])
  }

  lemma SameKeys(a: imap<int, AProc>, b: imap<int, AProc>)
    requires forall q :: SameKey(a, b, q)
    ensures a == b
  {
    forall q ensures (q in a <==> q in b) && (q in a ==> a[q] == b[q]) {
      assert SameKey(a, b, q);
    }
  }

  lemma OneKey(a: imap<int, AProc>, b: imap<int, AProc>, pid: int)
    requires pid in b && forall q :: q != pid ==> SameKey(a, b, q)
    ensures b == a[pid := b[pid]]
  {
    forall q ensures (q in a[pid := b[pid]] <==> q in b) && (q in b ==> a[pid := b[pid]][q] == b[q]) {
      assert q != pid ==> SameKey(a, b, q);
    }
  }

  lemma AbsAt(k: Kernel, q: int)
    requires CoreInv(k)
    ensures q in Abs(k).procs <==> k.Resident(q)
    ensures k.Resident(q) ==> ResidentOk(k, q) && Abs(k).procs[q] == View(k, q)
  {
    hide View, Find;
  }

  /** The table entry, the slot, the memory and the waiter of `q` are kept, and so is whether it runs. */
  ghost predicate Kept(k: Kernel, r: Kernel, q: int)
    requires k.Shape() && r.Shape()
  {
    var all :=
      && SamePid(k.b, r.b, q)
      && (k.Resident(q) ==>
           && Waiting(k.i, q) == Waiting(r.i, q) && (q == k.ring3 <==> q == r.ring3)
           && OwnerSlot(r.m, q) == OwnerSlot(k.m, q) >= 0 && r.m.stacksBase == k.m.stacksBase
           && r.m.snapshot[OwnerSlot(k.m, q)] == k.m.snapshot[OwnerSlot(k.m, q)]
           && Stack(r.m, k.ImageOf(q)) == Stack(k.m, k.ImageOf(q))
           && (q == k.ring3 ==> r.m.region == k.m.region));
    all
  }

  lemma ViewKept(k: Kernel, r: Kernel, q: int)
    requires CoreInv(k) && CoreInv(r) && Kept(k, r, q)
    ensures SameKey(Abs(k).procs, Abs(r).procs, q)
  {
    AbsAt(k, q);
    AbsAt(r, q);
    hide Find, OwnerSlot, Settled, Waiting, Stack, Abs;
  }

  lemma LiveKept(k: Kernel, r: Kernel)
    requires CoreInv(k) && CoreInv(r) && forall q :: SamePid(k.b, r.b, q)
    ensures Abs(r).live == Abs(k).live
  {
    forall q ensures Find(r.b.p, q) == Find(k.b.p, q) {
      assert SamePid(k.b, r.b, q);
    }
  }

  /** A step about nobody in particular leaves the private memories alone. */
  lemma AllKept(k: Kernel, r: Kernel)
    requires CoreInv(k) && CoreInv(r) && forall q :: Kept(k, r, q)
    ensures Abs(r).procs == Abs(k).procs
  {
    assert k.Shape() && r.Shape();
    hide *;
    forall q ensures SameKey(Abs(k).procs, Abs(r).procs, q) {
      assert Kept(k, r, q);
      ViewKept(k, r, q);
    }
    SameKeys(Abs(k).procs, Abs(r).procs);
  }

  /** A step about `pid` changes only `pid`'s private memory. */
  lemma AllButOneKept(k: Kernel, r: Kernel, pid: int)
    requires CoreInv(k) && CoreInv(r) && r.Resident(pid) && forall q :: q != pid ==> Kept(k, r, q)
    ensures ResidentOk(r, pid) && Abs(r).procs == Abs(k).procs[pid := View(r, pid)]
  {
    AbsAt(r, pid);
    assert pid in Abs(r).procs && Abs(r).procs[pid] == View(r, pid);
    hide *;
    forall q | q != pid ensures SameKey(Abs(k).procs, Abs(r).procs, q) {
      assert Kept(k, r, q);
      ViewKept(k, r, q);
    }
    OneKey(Abs(k).procs, Abs(r).procs, pid);
  }

  lemma SameWaiting(i: Boxes, j: Boxes, q: int)
    requires i.waiter == j.waiter
    ensures Waiting(i, q) == Waiting(j, q)
  {
    SameWaiters(i, j, q);
  }

  // ---- tick ----------------------------------------------------------------

  /** The same memory and messages, and tables that differ by READY and RUNNING only. */
  lemma QuietKept(k: Kernel, r: Kernel, q: int)
    requires CoreInv(k) && r.Shape() && r.m == k.m && r.i == k.i && SamePid(k.b, r.b, q)
    requires q == k.ring3 <==> q == r.ring3
    ensures Kept(k, r, q)
  {
    assert k.Resident(q) ==> ResidentOk(k, q);
    hide Find, OwnerSlot, Waiting, Stack;
  }

  lemma InvParts(k: Kernel)
    requires Inv(k)
    ensures CoreInv(k) && MessageInv(k) && k.Shape()
  {
  }

  lemma CoreShape(k: Kernel)
    requires CoreInv(k)
    ensures k.Shape() && k.b.p.Shape()
  {
  }

  lemma TickRefines(k: Kernel)
    requires Inv(k)
    ensures var r := k.(b := Tasks.Tick(k.b)); CoreInv(r) && Abs(r) == Abs(k)
  {
    InvParts(k);
    TickCore(k);
    var r := k.(b := Tasks.Tick(k.b));
    hide *;
    CoreShape(r);
    forall q ensures Kept(k, r, q) {
      QuietKept(k, r, q);
    }
    AllKept(k, r);
    LiveKept(k, r);
    SameAbs(k, r);
  }

  lemma SameAbs(k: Kernel, r: Kernel)
    requires CoreInv(k) && CoreInv(r) && Abs(r).procs == Abs(k).procs && Abs(r).live == Abs(k).live
    requires r.i == k.i && r.ring3 == k.ring3 && r.b.p.nextPid == k.b.p.nextPid
    ensures Abs(r) == Abs(k)
  {
  }

  // ---- user code -----------------------------------------------------------

  /** Two resident processes have different stack slots. */
  lemma StackApart(k: Kernel, pid: int, q: int, m: Mem, s: seq<Byte>)
    requires CoreInv(k) && k.Resident(pid) && k.Resident(q) && pid != q && |s| == STACK_SIZE
    requires m.Shape() && m.stacksBase == k.m.stacksBase && m.stacks == k.m.stacks
    ensures Stack(WithStack(m, k.ImageOf(pid), s), k.ImageOf(q)) == Stack(k.m, k.ImageOf(q))
  {
    assert ResidentOk(k, pid) && ResidentOk(k, q);
    OwnersDiffer(k, pid, q);
    SameStackBase(k.m, m, OwnerSlot(k.m, pid));
    SameStackBase(k.m, m, OwnerSlot(k.m, q));
    hide Find, OwnerSlot, StackBase, Blit;
    StackElsewhere(m, k.ImageOf(pid), s, k.ImageOf(q), OwnerSlot(k.m, pid), OwnerSlot(k.m, q));
    SameStack(k.m, m, k.ImageOf(q));
  }

  lemma ComputeKept(k: Kernel, w: seq<Byte>, s: seq<Byte>, q: int)
    requires CoreInv(k) && Enabled(k, Compute(w, s)) && q != k.ring3
    ensures Kept(k, Apply(k, Compute(w, s)).0, q)
  {
    var r := Apply(k, Compute(w, s)).0;
    var im := k.ImageOf(k.ring3);
    if k.Resident(q) {
      assert ResidentOk(k, q);
      StackApart(k, k.ring3, q, WithWindow(k.m, im, w), s);
      SameOwners(k.m, r.m, q);
    }
    SameWaiting(k.i, r.i, q);
  }

  lemma ComputeView(k: Kernel, w: seq<Byte>, s: seq<Byte>)
    requires CoreInv(k) && Enabled(k, Compute(w, s))
    ensures var r := Apply(k, Compute(w, s)).0;
            && ResidentOk(k, k.ring3) && OwnerSlot(r.m, k.ring3) >= 0
            && View(r, k.ring3) == View(k, k.ring3).(image := w, stack := s)
  {
    var r := Apply(k, Compute(w, s)).0;
    var im := k.ImageOf(k.ring3);
    assert ResidentOk(k, k.ring3) && Fits(k.m, im);
    assert r == k.(m := WithStack(WithWindow(k.m, im, w), im, s));
    hide CoreInv, Apply, Find, OwnerSlot, Waiting, Fits, Settled;
    SameOwners(k.m, r.m, k.ring3);
    WindowThere(k.m, im, w, s);
    StackThere(WithWindow(k.m, im, w), im, s);
    hide WithStack, WithWindow, Window, Stack;
  }

  lemma WindowThere(m: Mem, im: Image, w: seq<Byte>, s: seq<Byte>)
    requires m.Shape() && Fits(m, im) && |w| == im.size && |s| == STACK_SIZE
    ensures var m1 := WithWindow(m, im, w);
            var r := WithStack(m1, im, s);
            Fits(m1, im) && Fits(r, im) && Window(r, im) == w && r.owner == m.owner && r.snapshot == m.snapshot
  {
    BlitRead(m.region, im.base - IMAGE_BASE, w);
  }

  /** The abstract kernel after a step about the running process that changes no table and no mailbox. */
  lemma OneAbs(k: Kernel, r: Kernel, pid: int, v: AProc)
    requires CoreInv(k) && CoreInv(r) && r.Resident(pid) && OwnerSlot(r.m, pid) >= 0 && View(r, pid) == v
    requires forall q :: q != pid ==> Kept(k, r, q)
    requires Find(k.b.p, pid) >= 0 && r.b.p.nextPid == k.b.p.nextPid
    ensures Abs(r) == Abs(k).(procs := Abs(k).procs[pid := v], running := r.ring3, box := AbsBox(r.i))
  {
    AllButOneKept(k, r, pid);
    OneLive(k, r, pid);
    hide Find, View, Kept, CoreInv, OwnerSlot, AbsBox;
  }

  lemma OneLive(k: Kernel, r: Kernel, pid: int)
    requires k.Shape() && r.Shape() && (forall q :: q != pid ==> Kept(k, r, q))
    requires Find(k.b.p, pid) >= 0 && Find(r.b.p, pid) >= 0
    ensures (iset q | Find(r.b.p, q) >= 0) == (iset q | Find(k.b.p, q) >= 0)
  {
    hide Find, Waiting, Stack;
    forall q ensures Find(r.b.p, q) >= 0 <==> Find(k.b.p, q) >= 0 {
      assert q != pid ==> Kept(k, r, q);
    }
  }

  lemma RunningIn(k: Kernel)
    requires CoreInv(k) && k.InUser()
    ensures Abs(k).running == k.ring3 && k.ring3 in Abs(k).procs
    ensures ResidentOk(k, k.ring3) && Abs(k).procs[k.ring3] == View(k, k.ring3)
  {
    AbsAt(k, k.ring3);
  }

  lemma ComputeRefines(k: Kernel, w: seq<Byte>, s: seq<Byte>)
    requires Inv(k) && Enabled(k, Compute(w, s))
    ensures var r := Apply(k, Compute(w, s)).0; CoreInv(r) && AStep(Abs(k), Compute(w, s), Done, Abs(r))
  {
    var r := Apply(k, Compute(w, s)).0;
    MemoryCore(k, r);
    RunningIn(k);
    ComputeView(k, w, s);
    forall q | q != k.ring3 ensures Kept(k, r, q) {
      ComputeKept(k, w, s, q);
    }
    assert r.Resident(k.ring3) && r.i == k.i && r.ring3 == k.ring3;
    hide Apply, Find, View, Kept, CoreInv, MessageInv, OwnerSlot, AbsBox;
    OneAbs(k, r, k.ring3, View(k, k.ring3).(image := w, stack := s));
    hide Abs, AExec, AResume, ASend, ARecv, Inv;
  }

  // ---- stops ---------------------------------------------------------------

  lemma StoppedKept(k: Kernel, r: Kernel, st: RunState, frame: Context, q: int)
    requires CoreInv(k) && k.InUser() && r.Shape() && ResidentOk(k, k.ring3) && Stopped(k, r, st, frame) && q != k.ring3
    ensures Kept(k, r, q)
  {
    assert SamePid(k.b, r.b, q);
    if k.Resident(q) {
      assert ResidentOk(k, q);
      OwnersDiffer(k, k.ring3, q);
      SameOwners(k.m, r.m, q);
    }
    SameWaiting(k.i, r.i, q);
    hide Find, OwnerSlot, Waiting, Blit, Window;
  }

  lemma StoppedView(k: Kernel, r: Kernel, st: RunState, frame: Context)
    requires CoreInv(k) && k.InUser() && r.Shape() && ResidentOk(k, k.ring3) && Stopped(k, r, st, frame)
    ensures OwnerSlot(r.m, k.ring3) >= 0
    ensures View(r, k.ring3) == View(k, k.ring3).(saved := Some(frame.(eax := 0)))
  {
    var o, im := OwnerSlot(k.m, k.ring3), k.ImageOf(k.ring3);
    assert Fits(k.m, im) && k.Resident(k.ring3) && k.ring3 > 0;
    hide Find, OwnerSlot, Waiting, Blit, Window, CoreInv, SamePid, StateOf, Settled, Stack, Fits;
    SameOwners(k.m, r.m, k.ring3);
    SameWaiting(k.i, r.i, k.ring3);
    SnapshotReads(k.m.snapshot, r.m.snapshot, o, Window(k.m, im));
    assert ImageBytes(r, k.ring3) == Window(k.m, im) == ImageBytes(k, k.ring3);
    hide ImageBytes;
    StackOfStopped(k.m, r.m, im, r.ImageOf(k.ring3));
  }

  lemma SnapshotReads(before: seq<seq<Byte>>, after: seq<seq<Byte>>, o: int, w: seq<Byte>)
    requires 0 <= o < |before| && |w| <= |before[o]| && after == before[o := Blit(before[o], 0, w)]
    ensures |w| <= |after[o]| && after[o][..|w|] == w
  {
    BlitRead(before[o], 0, w);
  }

  lemma StackOfStopped(m: Mem, r: Mem, im: Image, after: Image)
    requires m.Shape() && r.Shape() && Fits(m, im) && Fits(r, after) && after.stackBase == im.stackBase
    requires r.stacks == m.stacks && r.stacksBase == m.stacksBase
    ensures Stack(r, after) == Stack(m, im)
  {
  }

  lemma YieldRefines(k: Kernel, frame: Context)
    requires CoreInv(k) && k.InUser()
    ensures ResidentOk(k, k.ring3) && k.ring3 in Abs(k).procs && Abs(k).procs[k.ring3] == View(k, k.ring3)
    ensures var (r, out) := Stop(k, Ready, frame);
            && CoreInv(r) && out == Done && r.i == k.i
            && Abs(r) == Abs(k).(running := 0,
                                 procs := Abs(k).procs[k.ring3 := View(k, k.ring3).(saved := Some(frame.(eax := 0)))])
  {
    StopCore(k, Ready, frame);
    RunningIn(k);
    StopRefines(k, Stop(k, Ready, frame).0, Ready, frame);
  }

  /** A stop, as the private memories see it: the saved registers appear, and nobody runs. */
  lemma StopRefines(k: Kernel, r: Kernel, st: RunState, frame: Context)
    requires CoreInv(k) && k.InUser() && CoreInv(r) && ResidentOk(k, k.ring3) && Stopped(k, r, st, frame)
    ensures Abs(r) == Abs(k).(running := 0, box := AbsBox(r.i),
                              procs := Abs(k).procs[k.ring3 := View(k, k.ring3).(saved := Some(frame.(eax := 0)))])
  {
    assert Find(k.b.p, k.ring3) >= 0 && r.Resident(k.ring3) && r.ring3 == 0 && r.b.p.nextPid == k.b.p.nextPid;
    StoppedView(k, r, st, frame);
    hide *;
    forall q | q != k.ring3 ensures Kept(k, r, q) {
      StoppedKept(k, r, st, frame, q);
    }
    OneAbs(k, r, k.ring3, View(k, k.ring3).(saved := Some(frame.(eax := 0))));
  }

  // ---- resume and exit -----------------------------------------------------

  lemma RestoredView(k: Kernel, r: Kernel, pid: int)
    requires CoreInv(k) && k.ring3 == 0 && k.Resident(pid) && r.Shape() && ResidentOk(k, pid) && Restored(k, r, pid)
    ensures r.Resident(pid) && OwnerSlot(r.m, pid) >= 0
    ensures View(r, pid) == View(k, pid).(saved := None) && View(k, pid).saved == Some(k.ImageOf(pid).context)
  {
    var o, im := OwnerSlot(k.m, pid), k.ImageOf(pid);
    SameOwners(k.m, r.m, pid);
    SameWaiting(k.i, r.i, pid);
    assert SamePid(k.b, r.b, pid);
    RestoredWindow(k.m, r.m, im, k.m.snapshot[o][..im.size]);
    hide Find, OwnerSlot, Waiting, Blit, Window, Stack, SamePid;
    SameStack(k.m, r.m, im);
  }

  lemma RestoredWindow(m: Mem, r: Mem, im: Image, d: seq<Byte>)
    requires m.Shape() && r.Shape() && Fits(r, im) && |d| == im.size
    requires r == m.(region := Blit(Zeros(IMAGE_MAX), im.base - IMAGE_BASE, d))
    ensures Window(r, im) == d
  {
    BlitRead(Zeros(IMAGE_MAX), im.base - IMAGE_BASE, d);
  }

  lemma RestoredKept(k: Kernel, r: Kernel, pid: int, q: int)
    requires CoreInv(k) && k.ring3 == 0 && k.Resident(pid) && r.Shape() && ResidentOk(k, pid) && Restored(k, r, pid) && q != pid
    ensures Kept(k, r, q)
  {
    assert SamePid(k.b, r.b, q);
    if k.Resident(q) {
      assert ResidentOk(k, q);
      SameOwners(k.m, r.m, q);
    }
    SameWaiting(k.i, r.i, q);
    hide Find, OwnerSlot, Waiting, Blit;
  }

  /** Resuming gives a process back exactly its own bytes and registers, and touches no other process. */
  lemma ResumeRefines(k: Kernel, pid: int)
    requires CoreInv(k) && k.ring3 == 0 && k.Resident(pid) && StateOf(k.b.p, pid) in {Ready, Running}
    ensures ResidentOk(k, pid) && pid in Abs(k).procs && Abs(k).procs[pid] == View(k, pid)
    ensures View(k, pid).saved == Some(k.ImageOf(pid).context)
    ensures var (r, out) := Begin(k, pid, []);
            && CoreInv(r) && out == Resumed(pid, k.ImageOf(pid).context) && r.i == k.i
            && Abs(r) == Abs(k).(running := pid, procs := Abs(k).procs[pid := View(k, pid).(saved := None)])
  {
    ResumeCore(k, pid);
    AbsAt(k, pid);
    var r := Begin(k, pid, []).0;
    assert k.Shape() && r.Shape() && r.i == k.i && r.ring3 == pid && Find(k.b.p, pid) >= 0;
    RestoredView(k, r, pid);
    hide *;
    forall q | q != pid ensures Kept(k, r, q) {
      RestoredKept(k, r, pid, q);
    }
    OneAbs(k, r, pid, View(k, pid).(saved := None));
  }

  lemma ExitRefines(k: Kernel, code: int)
    requires CoreInv(k) && k.InUser()
    ensures var (r, out) := ExitRun(k, code);
            && CoreInv(r) && out == Done && r.i == k.i
            && Abs(r) == Abs(k).(running := 0, live := Abs(k).live - iset{k.ring3},
                                 procs := imap p | p in Abs(k).procs && p != k.ring3 :: Abs(k).procs[p])
  {
    ExitCore(k, code);
    var r := ExitRun(k, code).0;
    CoreShape(k);
    CoreShape(r);
    var a, b := Abs(k).procs, Abs(r).procs;
    var a' := imap p | p in a && p != k.ring3 :: a[p];
    hide *;
    SameTables(k, r);
    ExitedLive(k, r);
    ExitedGone(r, k.ring3);
    forall q ensures SameKey(a', b, q) {
      if q != k.ring3 {
        ExitedKept(k, r, q);
        ViewKept(k, r, q);
        KeyWithout(a, b, k.ring3, q);
      } else {
        KeyGone(a, b, q);
      }
    }
    SameKeys(a', b);
  }

  lemma SameTables(k: Kernel, r: Kernel)
    requires CoreInv(k) && CoreInv(r) && r.i == k.i && r.b.p.nextPid == k.b.p.nextPid
    ensures Abs(r) == Abs(k).(running := r.ring3, live := Abs(r).live, procs := Abs(r).procs)
  {
  }

  lemma KeyWithout(a: imap<int, AProc>, b: imap<int, AProc>, pid: int, q: int)
    requires SameKey(a, b, q) && q != pid
    ensures SameKey(imap p | p in a && p != pid :: a[p], b, q)
  {
  }

  lemma KeyGone(a: imap<int, AProc>, b: imap<int, AProc>, pid: int)
    requires pid !in b
    ensures SameKey(imap p | p in a && p != pid :: a[p], b, pid)
  {
  }

  lemma ExitedKept(k: Kernel, r: Kernel, q: int)
    requires CoreInv(k) && k.InUser() && r.Shape() && r.ring3 == 0 && r.m == k.m && r.i == k.i
    requires SamePid(k.b, r.b, q) && q != k.ring3
    ensures Kept(k, r, q)
  {
    assert k.Resident(q) ==> ResidentOk(k, q);
    hide Find, OwnerSlot, Waiting, Stack;
  }

  lemma ExitedLive(k: Kernel, r: Kernel)
    requires CoreInv(k) && CoreInv(r) && Find(r.b.p, k.ring3) < 0 && forall q :: q != k.ring3 ==> SamePid(k.b, r.b, q)
    ensures Abs(r).live == Abs(k).live - iset{k.ring3}
  {
    hide Find;
    forall q ensures Find(r.b.p, q) >= 0 <==> Find(k.b.p, q) >= 0 && q != k.ring3 {
      assert q != k.ring3 ==> SamePid(k.b, r.b, q);
    }
  }

  lemma ExitedGone(r: Kernel, pid: int)
    requires CoreInv(r) && Find(r.b.p, pid) < 0
    ensures pid !in Abs(r).procs
  {
    AbsAt(r, pid);
  }

  // ---- exec ----------------------------------------------------------------

  lemma OthersKeptKept(k: Kernel, r: Kernel, q: int)
    requires CoreInv(k) && k.ring3 == 0 && r.Shape() && r.i == k.i && OthersKept(k, r.m) && SamePid(k.b, r.b, q)
    requires k.Resident(q) ==> q != r.ring3
    ensures Kept(k, r, q)
  {
    assert k.Resident(q) ==> ResidentOk(k, q);
    SameWaiting(k.i, r.i, q);
    hide Find, OwnerSlot, Waiting, Stack;
  }

  lemma RefusedRefines(k: Kernel, r: Kernel)
    requires CoreInv(k) && k.ring3 == 0 && CoreInv(r) && ExecRefused(k, r)
    ensures Abs(r) == Abs(k).(last := Abs(r).last) && Abs(k).last <= Abs(r).last <= Abs(k).last + 1
  {
    assert r.ring3 == 0 && r.i == k.i && OthersKept(k, r.m) && forall q :: SamePid(k.b, r.b, q);
    assert Abs(k).last <= Abs(r).last <= Abs(k).last + 1;
    CoreShape(k);
    CoreShape(r);
    forall q ensures k.Resident(q) ==> q != 0 {
      assert k.Resident(q) ==> ResidentOk(k, q);
    }
    hide *;
    forall q ensures Kept(k, r, q) {
      OthersKeptKept(k, r, q);
    }
    AllKept(k, r);
    LiveKept(k, r);
    SameButLast(k, r);
  }

  lemma SameButLast(k: Kernel, r: Kernel)
    requires CoreInv(k) && CoreInv(r) && Abs(r).procs == Abs(k).procs && Abs(r).live == Abs(k).live
    requires r.i == k.i && r.ring3 == k.ring3
    ensures Abs(r) == Abs(k).(last := Abs(r).last)
  {
  }

  /** The new process's own memory: the program's image and a stack that reads back as the arguments. */
  lemma StartedView(k: Kernel, r: Kernel, prog: Program, args: seq<seq<Byte>>, pid: int, sp: int)
    requires Inv(k) && k.ring3 == 0 && r.Shape() && prog.Ok() && ExecStarted(k, r, prog, args, pid, sp)
    ensures r.Resident(pid) && OwnerSlot(r.m, pid) >= 0
    ensures var f := View(r, pid);
            && f.base == prog.plan.base && f.image == ProgramImage(prog) && f.waiting == None && f.saved == None
            && |f.stack| == STACK_SIZE
            && ((forall x <- args :: NulFree(x)) ==>
                 Args.Readable(f.stack, f.stackBase, sp) && ReadArgs(f.stack, f.stackBase, sp) == Clip(args))
  {
    var im := r.ImageOf(pid);
    NewcomerNotWaiting(k, pid);
    SameWaiting(k.i, r.i, pid);
    StartedParts(k, r, prog, args, pid, sp);
    if forall x <- args :: NulFree(x) {
      StartedArguments(k, im, args, sp);
    }
    hide *;
  }

  lemma StartedParts(k: Kernel, r: Kernel, prog: Program, args: seq<seq<Byte>>, pid: int, sp: int)
    requires CoreInv(k) && k.ring3 == 0 && r.Shape() && prog.Ok() && ExecStarted(k, r, prog, args, pid, sp)
    requires Waiting(r.i, pid) == None
    ensures r.Resident(pid) && OwnerSlot(r.m, pid) >= 0 && Fits(k.m, r.ImageOf(pid))
    ensures var im, f := r.ImageOf(pid), View(r, pid);
            && f.base == prog.plan.base && f.image == ProgramImage(prog) && f.waiting == None && f.saved == None
            && f.stackBase == im.stackBase && f.stack == LayOut(Stack(k.m, im), im.stackBase, args).mem
            && LayOut(Stack(k.m, im), im.stackBase, args).ok && sp == LayOut(Stack(k.m, im), im.stackBase, args).sp
  {
    hide Find, OwnerSlot, FindWaiter, CoreInv, LoadSegments, Waiting, LayOut, SamePid, Settled;
  }

  lemma StartedArguments(k: Kernel, im: Image, args: seq<seq<Byte>>, sp: int)
    requires k.Shape() && Fits(k.m, im) && forall x <- args :: NulFree(x)
    requires var l := LayOut(Stack(k.m, im), im.stackBase, args); l.ok && sp == l.sp
    ensures var l := LayOut(Stack(k.m, im), im.stackBase, args);
            Args.Readable(l.mem, im.stackBase, sp) && ReadArgs(l.mem, im.stackBase, sp) == Clip(args)
  {
    ArgumentsRoundTrip(Stack(k.m, im), im.stackBase, args);
  }

  lemma NewcomerNotWaiting(k: Kernel, pid: int)
    requires Inv(k) && Find(k.b.p, pid) < 0
    ensures Waiting(k.i, pid) == None
  {
    if FindWaiter(k.i, pid) >= 0 {
      WaiterBlocked(k, pid);
    }
  }

  lemma StartedRefines(k: Kernel, r: Kernel, prog: Program, args: seq<seq<Byte>>, pid: int, sp: int)
    requires Inv(k) && k.ring3 == 0 && CoreInv(r) && prog.Ok() && ExecStarted(k, r, prog, args, pid, sp)
    ensures r.Resident(pid) && OwnerSlot(r.m, pid) >= 0
    ensures pid == Abs(k).last + 1 && pid !in Abs(k).live && pid !in Abs(k).procs && pid !in Abs(k).box
    ensures Abs(r) == Abs(k).(running := pid, last := pid, live := Abs(k).live + iset{pid},
                              procs := Abs(k).procs[pid := View(r, pid)])
  {
    InvParts(k);
    CoreShape(r);
    AbsAt(k, pid);
    assert r.ring3 == pid && r.i == k.i && OthersKept(k, r.m) && r.Resident(pid) && Find(k.b.p, pid) < 0;
    forall q | q != pid ensures SamePid(k.b, r.b, q) {}
    StartedLive(k, r, pid);
    UnissuedNoBox(k, pid);
    assert Abs(r) == Abs(k).(running := pid, last := pid, live := Abs(r).live, procs := Abs(r).procs);
    var a, v := Abs(k).live, Abs(r).live;
    assert v == a + iset{pid} && pid !in a;
    hide *;
    forall q | q != pid ensures Kept(k, r, q) {
      OthersKeptKept(k, r, q);
    }
    AllButOneKept(k, r, pid);
  }

  /** Nobody has a mailbox before having a pid. */
  lemma UnissuedNoBox(k: Kernel, pid: int)
    requires Inv(k) && k.b.p.nextPid <= pid
    ensures pid !in AbsBox(k.i)
  {
    assert BoxesOk(k);
  }

  lemma StartedLive(k: Kernel, r: Kernel, pid: int)
    requires CoreInv(k) && CoreInv(r) && k.Shape() && r.Shape() && Find(k.b.p, pid) < 0 && Find(r.b.p, pid) >= 0
    requires forall q :: q != pid ==> SamePid(k.b, r.b, q)
    ensures Abs(r).live == Abs(k).live + iset{pid} && pid !in Abs(k).live
  {
    var a, b := Abs(k).live, Abs(r).live;
    LiveAt(k, pid);
    LiveAt(r, pid);
    hide *;
    forall q ensures q in b <==> q in a || q == pid {
      if q != pid {
        LiveAt(k, q);
        LiveAt(r, q);
        SameFind(k.b, r.b, q);
      }
    }
    OneMore(a, b, pid);
  }

  lemma OneMore(a: iset<int>, b: iset<int>, x: int)
    requires forall q :: q in b <==> q in a || q == x
    ensures b == a + iset{x}
  {
    forall q ensures q in b <==> q in a + iset{x} {
    }
  }

  lemma SameFind(b: Both, r: Both, q: int)
    requires b.Shape() && r.Shape() && SamePid(b, r, q)
    ensures Find(r.p, q) == Find(b.p, q)
  {
  }

  lemma LiveAt(k: Kernel, q: int)
    requires CoreInv(k)
    ensures k.Shape() && (q in Abs(k).live <==> Find(k.b.p, q) >= 0)
  {
    hide Find, View;
  }

  lemma ExecRefines(k: Kernel, prog: Program, args: seq<seq<Byte>>)
    requires Inv(k) && k.ring3 == 0 && prog.Ok() && k.b.p.nextPid < MAX_PID
    ensures var (r, out) := ExecPath(k, prog, args); CoreInv(r) && AExec(Abs(k), prog, args, out, Abs(r))
  {
    ExecCore(k, prog, args);
    var (r, out) := ExecPath(k, prog, args);
    InvParts(k);
    hide ExecPath, CoreInv, Inv, MessageInv, ExecStarted, ExecRefused, Abs;
    CoreShape(r);
    if out == Failed {
      RefusedRefines(k, r);
    } else {
      StartedExec(k, r, prog, args, out.pid, out.sp);
    }
  }

  lemma StartedExec(k: Kernel, r: Kernel, prog: Program, args: seq<seq<Byte>>, pid: int, sp: int)
    requires Inv(k) && CoreInv(k) && k.ring3 == 0 && CoreInv(r) && r.Shape() && prog.Ok()
    requires ExecStarted(k, r, prog, args, pid, sp)
    ensures AExec(Abs(k), prog, args, Started(pid, prog.plan.entry, sp), Abs(r))
  {
    StartedRefines(k, r, prog, args, pid, sp);
    StartedView(k, r, prog, args, pid, sp);
    hide *;
    AExecIs(Abs(k), prog, args, pid, sp, View(r, pid), Abs(r));
  }

  lemma AExecIs(a: AState, prog: Program, args: seq<seq<Byte>>, pid: int, sp: int, f: AProc, a': AState)
    requires prog.Ok() && pid == a.last + 1 && pid !in a.live && pid !in a.procs && pid !in a.box
    requires a' == a.(running := pid, last := pid, live := a.live + iset{pid}, procs := a.procs[pid := f])
    requires f.base == prog.plan.base && f.image == ProgramImage(prog) && f.waiting == None && f.saved == None
    requires |f.stack| == STACK_SIZE
    requires (forall x <- args :: NulFree(x)) ==>
               Args.Readable(f.stack, f.stackBase, sp) && ReadArgs(f.stack, f.stackBase, sp) == Clip(args)
    ensures AExec(a, prog, args, Started(pid, prog.plan.entry, sp), a')
  {
    hide ProgramImage, Args.Readable, ReadArgs, Clip, Program.Ok;
  }

  // ---- user pointers -------------------------------------------------------

  lemma ValidateInRange(k: Kernel, pid: int, ptr: U32)
    requires CoreInv(k) && k.Resident(pid) && ResidentOk(k, pid)
    ensures Validate(k.ImageOf(pid), ptr, MSG_SIZE) <==> View(k, pid).InRange(ptr, MSG_SIZE)
  {
    var im := k.ImageOf(pid);
    assert Fits(k.m, im);
    RangesAgree(im.base, im.size, ptr, MSG_SIZE);
    RangesAgree(im.stackBase, im.stackSize, ptr, MSG_SIZE);
    hide Find, OwnerSlot, CoreInv, Waiting;
  }

  lemma ReadLiveIs(m: Mem, im: Image, ptr: U32)
    requires m.Shape() && Fits(m, im) && Validate(im, ptr, MSG_SIZE)
    ensures var inImage := im.base <= ptr && ptr + MSG_SIZE <= im.base + im.size;
            && (!inImage ==> im.stackBase <= ptr && ptr + MSG_SIZE <= im.stackBase + STACK_SIZE)
            && ReadLive(m, im, ptr, MSG_SIZE) ==
               if inImage then Window(m, im)[ptr - im.base..ptr - im.base + MSG_SIZE]
               else Stack(m, im)[ptr - im.stackBase..ptr - im.stackBase + MSG_SIZE]
  {
    RangesAgree(im.base, im.size, ptr, MSG_SIZE);
    RangesAgree(im.stackBase, im.stackSize, ptr, MSG_SIZE);
    if im.base <= ptr && ptr + MSG_SIZE <= im.base + im.size {
      SubSlice(m.region, im.base - IMAGE_BASE, im.base - IMAGE_BASE + im.size, ptr - im.base, ptr - im.base + MSG_SIZE);
    } else {
      SubSlice(m.stacks, im.stackBase - m.stacksBase, im.stackBase - m.stacksBase + STACK_SIZE,
               ptr - im.stackBase, ptr - im.stackBase + MSG_SIZE);
    }
  }

  /** Reading through a user pointer is reading the private memory. */
  lemma ReadIsRead(k: Kernel, ptr: U32)
    requires k.Shape() && k.InUser() && OwnerSlot(k.m, k.ring3) >= 0 && Validate(k.ImageOf(k.ring3), ptr, MSG_SIZE)
    requires View(k, k.ring3).InRange(ptr, MSG_SIZE)
    ensures ReadLive(k.m, k.ImageOf(k.ring3), ptr, MSG_SIZE) == View(k, k.ring3).Read(ptr, MSG_SIZE)
  {
    var im := k.ImageOf(k.ring3);
    assert Fits(k.m, im);
    RunningView(k);
    ReadLiveIs(k.m, im, ptr);
    hide *;
    ReadOf(View(k, k.ring3), im, Window(k.m, im), Stack(k.m, im), ptr);
  }

  lemma ReadOf(v: AProc, im: Image, image: seq<Byte>, stack: seq<Byte>, ptr: U32)
    requires v.base == im.base && v.image == image && v.stackBase == im.stackBase && v.stack == stack
    requires |image| == im.size && |stack| == STACK_SIZE && v.InRange(ptr, MSG_SIZE)
    ensures v.Read(ptr, MSG_SIZE)
            == if im.base <= ptr && ptr + MSG_SIZE <= im.base + im.size
               then image[ptr - im.base..ptr - im.base + MSG_SIZE]
               else stack[ptr - im.stackBase..ptr - im.stackBase + MSG_SIZE]
  {
  }

  /** The kernel's pointer check accepts exactly the buffers inside the process's own image or stack. */
  lemma BufferInRange(k: Kernel, ptr: U32)
    requires CoreInv(k) && k.InUser() && ResidentOk(k, k.ring3)
    ensures BufferOk(k, ptr) <==> ptr != 0 && View(k, k.ring3).InRange(ptr, MSG_SIZE)
    ensures BufferOk(k, ptr) ==> MessageAt(k, ptr) == Decode(View(k, k.ring3).Read(ptr, MSG_SIZE))
  {
    ValidateInRange(k, k.ring3, ptr);
    if BufferOk(k, ptr) {
      ReadIsRead(k, ptr);
    }
    hide Find, OwnerSlot, CoreInv, View, ReadLive, Decode;
  }

  // ---- direct delivery -----------------------------------------------------

  /** Bytes written into a stopped process are written into its private memory, and nowhere else. */
  lemma WrittenView(m: Mem, p: Table, pid: int, im: Image, ptr: U32, d: seq<Byte>, r: Mem)
    requires m.Shape() && Fits(m, im) && 0 < |d| < WORD && OwnerSlot(m, pid) >= 0
    requires WriteToTask(m, p, pid, im, ptr, d) == (r, true)
    ensures var o := OwnerSlot(m, pid);
            && r.owner == m.owner && r.region == m.region && r.stacksBase == m.stacksBase
            && (forall x :: 0 <= x < SLOTS && x != o ==> r.snapshot[x] == m.snapshot[x])
            && if im.base <= ptr && ptr + |d| <= im.base + im.size
               then r.stacks == m.stacks && r.snapshot[o][..im.size] == Blit(m.snapshot[o][..im.size], ptr - im.base, d)
               else im.stackBase <= ptr && ptr + |d| <= im.stackBase + STACK_SIZE && r.snapshot == m.snapshot
                    && r.stacks == Blit(m.stacks, ptr - m.stacksBase, d)
  {
    RangesAgree(im.base, im.size, ptr, |d|);
    RangesAgree(im.stackBase, im.stackSize, ptr, |d|);
    var o := OwnerSlot(m, pid);
    hide OwnerSlot;
    if im.base <= ptr && ptr + |d| <= im.base + im.size {
      BlitInside(m.snapshot[o], ptr - im.base, d, 0, im.size);
      assert m.snapshot[o][..im.size] == m.snapshot[o][0..im.size];
      assert r.snapshot[o][..im.size] == r.snapshot[o][0..im.size];
    }
  }

  /** A write inside one stack slot, seen from that slot and from another. */
  lemma StackWritten(m: Mem, r: Mem, im: Image, ptr: U32, d: seq<Byte>)
    requires m.Shape() && r.Shape() && Fits(m, im) && r.stacksBase == m.stacksBase
    requires im.stackBase <= ptr && ptr + |d| <= im.stackBase + STACK_SIZE && r.stacks == Blit(m.stacks, ptr - m.stacksBase, d)
    ensures Fits(r, im) && Stack(r, im) == Blit(Stack(m, im), ptr - im.stackBase, d)
  {
    var lo := im.stackBase - m.stacksBase;
    BlitInside(m.stacks, ptr - m.stacksBase, d, lo, lo + STACK_SIZE);
  }

  lemma StackNotWritten(m: Mem, r: Mem, x: int, y: int, im: Image, o: Image, ptr: U32, d: seq<Byte>)
    requires m.Shape() && r.Shape() && Fits(m, im) && Fits(m, o) && r.stacksBase == m.stacksBase
    requires 0 <= x < SLOTS && 0 <= y < SLOTS && x != y && im.stackBase == StackBase(m, x) && o.stackBase == StackBase(m, y)
    requires im.stackBase <= ptr && ptr + |d| <= im.stackBase + STACK_SIZE && r.stacks == Blit(m.stacks, ptr - m.stacksBase, d)
    ensures Stack(r, o) == Stack(m, o)
  {
    var lo := o.stackBase - m.stacksBase;
    BlitFrame(m.stacks, ptr - m.stacksBase, d, lo, lo + STACK_SIZE);
  }

  lemma WokenView(k: Kernel, r: Kernel, dst: int, msg: Message)
    requires Inv(k) && StateOf(k.b.p, dst) == Blocked && BlockedOk(k, dst) && ResidentOk(k, dst)
    requires r.Shape() && Woken(k, r, dst, msg)
    ensures OwnerSlot(r.m, dst) >= 0
    ensures var v := View(k, dst);
            && v.waiting.Some? && v.saved.Some? && v.InRange(v.waiting.value, MSG_SIZE)
            && View(r, dst) == v.Receive(msg)
  {
    var im, w := k.ImageOf(dst), FindWaiter(k.i, dst);
    var ptr := k.i.waiter[w].ptr;
    InvParts(k);
    ValidateInRange(k, dst, ptr);
    WrittenView(k.m, k.b.p, dst, im, ptr, Encode(msg), r.m);
    SameOwners(k.m, r.m, dst);
    assert k.i.waiter[w].active && k.i.waiter[w].pid == dst;
    WaiterCleared(k.i, w, dst);
    WokenParts(k, r, dst, msg);
  }

  /** The bytes a delivered message leaves in the image and on the stack of the process woken. */
  lemma WokenBytes(k: Kernel, r: Kernel, dst: int, msg: Message)
    requires CoreInv(k) && k.Resident(dst) && BlockedOk(k, dst) && ResidentOk(k, dst) && r.Shape() && Woken(k, r, dst, msg)
    requires OwnerSlot(r.m, dst) == OwnerSlot(k.m, dst)
    ensures var v, w, ptr, d := View(k, dst), View(r, dst), k.i.waiter[FindWaiter(k.i, dst)].ptr, Encode(msg);
            && w.base == v.base && w.stackBase == v.stackBase
            && if v.InImage(ptr, MSG_SIZE) then w.image == Blit(v.image, ptr - v.base, d) && w.stack == v.stack
               else w.image == v.image && (v.InStack(ptr, MSG_SIZE) ==> w.stack == Blit(v.stack, ptr - v.stackBase, d))
  {
    hide Find, OwnerSlot, FindWaiter, WriteToTask, Encode, Blit, CoreInv, SamePid, Stack, Validate, Waiting, Woken,
         BlockedOk,
         ResidentOk, Fits;
    WokenFacts(k, r, dst, msg);
    var im, w := k.ImageOf(dst), FindWaiter(k.i, dst);
    WokenMem(k.m, k.b.p, dst, im, r.ImageOf(dst), k.i.waiter[w].ptr, Encode(msg), r.m);
    assert ImageBytes(k, dst) == k.m.snapshot[OwnerSlot(k.m, dst)][..im.size];
    assert ImageBytes(r, dst) == r.m.snapshot[OwnerSlot(k.m, dst)][..im.size];
    hide ImageBytes;
  }

  lemma WokenFacts(k: Kernel, r: Kernel, dst: int, msg: Message)
    requires CoreInv(k) && k.Resident(dst) && BlockedOk(k, dst) && ResidentOk(k, dst) && r.Shape() && Woken(k, r, dst, msg)
    ensures k.Shape() && k.b.p.Shape() && r.b.p.Shape() && k.m.Shape() && r.m.Shape()
    ensures 0 < k.ImageOf(dst).size <= Elf.IMAGE_MAX
    ensures r.Resident(dst) && OwnerSlot(k.m, dst) >= 0 && 0 <= FindWaiter(k.i, dst) < |k.i.waiter|
    ensures dst != k.ring3 && dst != r.ring3 && Fits(k.m, k.ImageOf(dst)) && Fits(r.m, r.ImageOf(dst))
    ensures r.ImageOf(dst) == k.ImageOf(dst).(context := r.ImageOf(dst).context)
    ensures WriteToTask(k.m, k.b.p, dst, k.ImageOf(dst), k.i.waiter[FindWaiter(k.i, dst)].ptr, Encode(msg)) == (r.m, true)
  {
    assert dst != k.ring3 && k.ImageOf(dst).size <= Elf.IMAGE_MAX;
    hide Find, OwnerSlot, FindWaiter, WriteToTask, Encode, SamePid, Validate;
  }

  lemma WokenMem(m: Mem, p: Table, pid: int, im: Image, im': Image, ptr: U32, d: seq<Byte>, r: Mem)
    requires m.Shape() && Fits(m, im) && 0 < |d| < WORD && OwnerSlot(m, pid) >= 0 && r.Shape() && Fits(r, im')
    requires WriteToTask(m, p, pid, im, ptr, d) == (r, true) && im' == im.(context := im'.context)
    ensures var o, inImage := OwnerSlot(m, pid), im.base <= ptr && ptr + |d| <= im.base + im.size;
            && r.snapshot[o][..im'.size]
               == (if inImage then Blit(m.snapshot[o][..im.size], ptr - im.base, d) else m.snapshot[o][..im.size])
            && if inImage then Stack(r, im') == Stack(m, im)
               else im.stackBase <= ptr && ptr + |d| <= im.stackBase + STACK_SIZE
                    && Stack(r, im') == Blit(Stack(m, im), ptr - im.stackBase, d)
  {
    hide OwnerSlot, WriteToTask, Stack, Blit;
    WrittenView(m, p, pid, im, ptr, d, r);
    WrittenStack(m, p, pid, im, ptr, d, r);
    StackOfSame(r, im, im');
  }

  lemma WokenState(k: Kernel, r: Kernel, dst: int, msg: Message)
    requires CoreInv(k) && k.Resident(dst) && BlockedOk(k, dst) && ResidentOk(k, dst) && r.Shape() && Woken(k, r, dst, msg)
    requires OwnerSlot(r.m, dst) == OwnerSlot(k.m, dst) && FindWaiter(r.i, dst) == -1
    ensures var v, w := View(k, dst), View(r, dst);
            && v.waiting == Some(k.i.waiter[FindWaiter(k.i, dst)].ptr) && v.saved.Some? && w.waiting == None
            && w.saved == Some(v.saved.value.(eax := 0))
  {
    hide Find, OwnerSlot, WriteToTask, Encode, Blit, Stack, Validate, ImageBytes, SamePid;
  }

  lemma WokenParts(k: Kernel, r: Kernel, dst: int, msg: Message)
    requires CoreInv(k) && k.Resident(dst) && BlockedOk(k, dst) && ResidentOk(k, dst) && r.Shape() && Woken(k, r, dst, msg)
    requires OwnerSlot(r.m, dst) == OwnerSlot(k.m, dst) && FindWaiter(r.i, dst) == -1
    requires View(k, dst).InRange(k.i.waiter[FindWaiter(k.i, dst)].ptr, MSG_SIZE)
    ensures var v := View(k, dst);
            && v.waiting == Some(k.i.waiter[FindWaiter(k.i, dst)].ptr) && v.saved.Some?
            && View(r, dst) == v.Receive(msg)
  {
    WokenBytes(k, r, dst, msg);
    WokenState(k, r, dst, msg);
    hide Find, OwnerSlot, FindWaiter, Encode, Blit, CoreInv, BlockedOk, ResidentOk, Woken, View;
  }

  lemma WrittenStack(m: Mem, p: Table, pid: int, im: Image, ptr: U32, d: seq<Byte>, r: Mem)
    requires m.Shape() && Fits(m, im) && 0 < |d| < WORD && OwnerSlot(m, pid) >= 0
    requires WriteToTask(m, p, pid, im, ptr, d) == (r, true) && Fits(r, im)
    ensures if im.base <= ptr && ptr + |d| <= im.base + im.size then Stack(r, im) == Stack(m, im)
            else im.stackBase <= ptr && ptr + |d| <= im.stackBase + STACK_SIZE
                 && Stack(r, im) == Blit(Stack(m, im), ptr - im.stackBase, d)
  {
    WrittenView(m, p, pid, im, ptr, d, r);
    hide WriteToTask, OwnerSlot, Stack;
    if im.base <= ptr && ptr + |d| <= im.base + im.size {
      SameStack(m, r, im);
    } else {
      StackWritten(m, r, im, ptr, d);
    }
  }

  lemma StackOfSame(m: Mem, a: Image, b: Image)
    requires m.Shape() && Fits(m, a) && Fits(m, b) && a.stackBase == b.stackBase
    ensures Stack(m, a) == Stack(m, b)
  {
  }

  lemma WokenKept(k: Kernel, r: Kernel, dst: int, msg: Message, q: int)
    requires Inv(k) && StateOf(k.b.p, dst) == Blocked && BlockedOk(k, dst) && ResidentOk(k, dst)
    requires r.Shape() && Woken(k, r, dst, msg) && q != dst
    ensures Kept(k, r, q)
  {
    WokenSame(k, r, dst, msg, q);
    var resident := k.Resident(q);
    if resident {
      AbsAt(k, q);
      WokenApart(k, r, dst, msg, q);
      WokenStack(k, r, dst, msg, q);
    }
    hide Find, OwnerSlot, Waiting, Encode, CoreInv, MessageInv, Inv, Stack, BlockedOk, StateOf, Woken, ResidentOk;
  }

  /** Delivery to `dst` leaves the table entry and the waiter of `q` alone. */
  lemma WokenSame(k: Kernel, r: Kernel, dst: int, msg: Message, q: int)
    requires Inv(k) && k.Resident(dst) && FindWaiter(k.i, dst) >= 0 && r.Shape() && Woken(k, r, dst, msg) && q != dst
    ensures CoreInv(k) && SamePid(k.b, r.b, q) && r.ring3 == k.ring3 && Waiting(r.i, q) == Waiting(k.i, q)
  {
    var w := FindWaiter(k.i, dst);
    assert k.i.waiter[w].active && k.i.waiter[w].pid == dst && DistinctWaiters(k.i);
    hide Find, OwnerSlot, WriteToTask, Encode, CoreInv, StateOf, SamePid;
    WaiterCleared(k.i, w, q);
  }

  /** And its memory, which is in another slot. */
  lemma WokenApart(k: Kernel, r: Kernel, dst: int, msg: Message, q: int)
    requires CoreInv(k) && k.Resident(dst) && FindWaiter(k.i, dst) >= 0 && BlockedOk(k, dst) && ResidentOk(k, dst)
    requires r.Shape() && Woken(k, r, dst, msg) && q != dst && k.Resident(q) && ResidentOk(k, q)
    ensures OwnerSlot(k.m, q) != OwnerSlot(k.m, dst) && OwnerSlot(r.m, q) == OwnerSlot(k.m, q) >= 0
    ensures r.m.stacksBase == k.m.stacksBase && r.m.region == k.m.region
    ensures r.m.snapshot[OwnerSlot(k.m, q)] == k.m.snapshot[OwnerSlot(k.m, q)]
  {
    var im, ptr := k.ImageOf(dst), k.i.waiter[FindWaiter(k.i, dst)].ptr;
    WrittenView(k.m, k.b.p, dst, im, ptr, Encode(msg), r.m);
    OwnersDiffer(k, dst, q);
    SameOwners(k.m, r.m, q);
    hide Find, OwnerSlot, WriteToTask, Encode, Blit, CoreInv, Stack, StackBase, Validate, NoPending, StateOf;
  }

  lemma WokenStack(k: Kernel, r: Kernel, dst: int, msg: Message, q: int)
    requires Inv(k) && StateOf(k.b.p, dst) == Blocked && BlockedOk(k, dst) && ResidentOk(k, dst)
    requires r.Shape() && Woken(k, r, dst, msg) && q != dst && k.Resident(q) && ResidentOk(k, q)
    requires OwnerSlot(k.m, q) != OwnerSlot(k.m, dst)
    ensures r.m.stacksBase == k.m.stacksBase && Stack(r.m, k.ImageOf(q)) == Stack(k.m, k.ImageOf(q))
  {
    var im, ptr := k.ImageOf(dst), k.i.waiter[FindWaiter(k.i, dst)].ptr;
    WrittenView(k.m, k.b.p, dst, im, ptr, Encode(msg), r.m);
    hide Find, OwnerSlot, FindWaiter, WriteToTask, Encode, Blit, CoreInv, MessageInv, Inv, Stack, StackBase, Validate;
    if im.base <= ptr && ptr + MSG_SIZE <= im.base + im.size {
      SameStack(k.m, r.m, k.ImageOf(q));
    } else {
      StackNotWritten(k.m, r.m, OwnerSlot(k.m, dst), OwnerSlot(k.m, q), im, k.ImageOf(q), ptr, Encode(msg));
    }
  }

  lemma DeliverRefines(k: Kernel, dst: int, msg: Message)
    requires Inv(k) && StateOf(k.b.p, dst) == Blocked
    ensures k.Resident(dst) && ResidentOk(k, dst) && dst in Abs(k).procs && Abs(k).procs[dst] == View(k, dst)
    ensures var (r, ok) := Deliver(k, dst, msg);
            var v := View(k, dst);
            && ok && CoreInv(r) && v.waiting.Some? && v.saved.Some? && v.InRange(v.waiting.value, MSG_SIZE)
            && Abs(r) == Abs(k).(procs := Abs(k).procs[dst := v.Receive(msg)])
  {
    DeliverWakes(k, dst, msg);
    var r := Deliver(k, dst, msg).0;
    InvParts(k);
    AbsAt(k, dst);
    WokenCore(k, r, dst, msg);
    WokenView(k, r, dst, msg);
    WokenPlain(k, r, dst, msg);
    var v := View(k, dst);
    hide *;
    forall q | q != dst ensures Kept(k, r, q) {
      WokenKept(k, r, dst, msg, q);
    }
    OneAbs(k, r, dst, v.Receive(msg));
  }

  lemma WokenPlain(k: Kernel, r: Kernel, dst: int, msg: Message)
    requires k.Shape() && r.Shape() && k.Resident(dst) && FindWaiter(k.i, dst) >= 0 && Woken(k, r, dst, msg)
    ensures r.ring3 == k.ring3 && r.Resident(dst) && Find(k.b.p, dst) >= 0 && AbsBox(r.i) == AbsBox(k.i)
  {
    forall q ensures Pending(r.i, q) == Pending(k.i, q) {
      SameBoxes(k.i, r.i, q);
    }
    assert BoxPids(r.i) == BoxPids(k.i);
  }

  // ---- mailboxes -----------------------------------------------------------

  lemma BoxesDistinct(k: Kernel)
    requires CoreInv(k) && MessageInv(k)
    ensures k.i.Shape() && DistinctBoxes(k.i)
  {
  }

  lemma BoxAt(i: Boxes, q: int)
    requires DistinctBoxes(i)
    ensures q in AbsBox(i) <==> HasBox(i, q)
    ensures q in AbsBox(i) ==> AbsBox(i)[q] == Pending(i, q)
    ensures q !in AbsBox(i) ==> Pending(i, q) == []
  {
    BoxPidsAre(i, q);
  }

  /** A mailbox step about `pid` updates one entry of the map. */
  lemma BoxUpdate(i: Boxes, r: Boxes, pid: int)
    requires DistinctBoxes(i) && DistinctBoxes(r) && HasBox(r, pid) && forall q :: q != pid ==> SameBox(i, r, q)
    ensures AbsBox(r) == AbsBox(i)[pid := Pending(r, pid)]
  {
    var a, b := AbsBox(i), AbsBox(r);
    BoxAt(r, pid);
    hide *;
    forall q | q != pid ensures (q in b <==> q in a) && (q in b ==> b[q] == a[q]) {
      BoxKept(i, r, q);
    }
    assert b == a[pid := Pending(r, pid)];
  }

  lemma BoxKept(i: Boxes, r: Boxes, q: int)
    requires DistinctBoxes(i) && DistinctBoxes(r) && SameBox(i, r, q)
    ensures (q in AbsBox(r) <==> q in AbsBox(i)) && (q in AbsBox(r) ==> AbsBox(r)[q] == AbsBox(i)[q])
  {
    BoxAt(i, q);
    BoxAt(r, q);
    hide AbsBox, DistinctBoxes;
  }

  /** Posting, on the map of mailboxes. */
  lemma PostRefines(i: Boxes, pid: int, msg: Message)
    requires i.Shape() && DistinctBoxes(i)
    ensures var (r, ok) := Post(i, pid, msg);
            var box := AbsBox(i);
            && (ok <==> if pid in box then box[pid] == [] else |box| < BOXES)
            && AbsBox(r) == if ok then box[pid := [msg]] else box
  {
    Posted(i, pid, msg);
    BoxRoom(i);
    BoxAt(i, pid);
    var (r, ok) := Post(i, pid, msg);
    hide Post, AbsBox, DistinctBoxes, Pending, HasBox, FreeBox;
    if ok {
      BoxUpdate(i, r, pid);
    }
  }

  lemma TakeRefines(i: Boxes, pid: int)
    requires i.Shape() && DistinctBoxes(i) && pid >= 0
    ensures var (r, got) := Take(i, pid);
            var box := AbsBox(i);
            && got == (if pid in box then box[pid] else [])
            && (got != [] ==> AbsBox(r) == box[pid := []])
  {
    Taken(i, pid);
    BoxAt(i, pid);
    var (r, got) := Take(i, pid);
    hide Take, AbsBox, DistinctBoxes, Pending;
    if got != [] {
      BoxUpdate(i, r, pid);
    }
  }

  lemma BoxOnly(k: Kernel, i1: Boxes)
    requires CoreInv(k) && i1.Shape() && i1.waiter == k.i.waiter
    ensures CoreInv(k.(i := i1)) && Abs(k.(i := i1)) == Abs(k).(box := AbsBox(i1))
  {
    var r := k.(i := i1);
    MemoryCore(k, r);
    forall q ensures Kept(k, r, q) {
      BoxOnlyKept(k, r, q);
    }
    AllKept(k, r);
    LiveKept(k, r);
    hide AbsBox;
  }

  lemma BoxOnlyKept(k: Kernel, r: Kernel, q: int)
    requires CoreInv(k) && r.Shape() && r == k.(i := r.i) && r.i.waiter == k.i.waiter
    ensures Kept(k, r, q)
  {
    assert k.Resident(q) ==> ResidentOk(k, q);
    SameWaiting(k.i, r.i, q);
    hide Find, OwnerSlot, Waiting, Stack;
  }

  // ---- send ----------------------------------------------------------------

  lemma LiveIs(k: Kernel, pid: int)
    requires CoreInv(k)
    ensures pid in Abs(k).live <==> Find(k.b.p, pid) >= 0
    ensures pid in Abs(k).live <==> StateOf(k.b.p, pid) != Unused
    ensures pid in Abs(k).live ==> pid >= 0
  {
    FoundIsLive(k.b, pid);
  }

  lemma WaitingIs(k: Kernel, pid: int)
    requires Inv(k)
    ensures pid in Abs(k).procs && Abs(k).procs[pid].waiting.Some? <==> StateOf(k.b.p, pid) == Blocked
  {
    AbsAt(k, pid);
    if k.Resident(pid) && FindWaiter(k.i, pid) >= 0 {
      WaiterBlocked(k, pid);
    }
    if StateOf(k.b.p, pid) == Blocked {
      assert BlockedOk(k, pid);
    }
  }

  /** The three ways a send can go, from the sender's private memory. */
  ghost predicate SendEffect(a: AState, msg: Message, ok: bool, a': AState) {
    var stamped := msg.(src := a.running);
    if msg.dst !in a.live then a' == a && !ok
    else if msg.dst in a.procs && a.procs[msg.dst].waiting.Some? then
      && ok && a.procs[msg.dst].saved.Some? && a.procs[msg.dst].InRange(a.procs[msg.dst].waiting.value, MSG_SIZE)
      && a' == a.(procs := a.procs[msg.dst := a.procs[msg.dst].Receive(stamped)])
    else
      && (ok <==> if msg.dst in a.box then a.box[msg.dst] == [] else |a.box| < BOXES)
      && a' == if ok then a.(box := a.box[msg.dst := [stamped]]) else a
  }

  lemma SendEffectIs(a: AState, ptr: U32, msg: Message, ok: bool, a': AState)
    requires a.running in a.procs && ptr != 0 && a.procs[a.running].InRange(ptr, MSG_SIZE)
    requires msg == Decode(a.procs[a.running].Read(ptr, MSG_SIZE)) && SendEffect(a, msg, ok, a')
    ensures ASend(a, ptr, Ret(if ok then 0 else ERR_AGAIN), a')
  {
    hide Decode, Encode;
  }

  lemma SendRefines(k: Kernel, ptr: U32)
    requires Inv(k) && k.InUser()
    ensures Abs(k).running in Abs(k).procs
    ensures var (r, out) := SysSend(k, ptr); CoreInv(r) && ASend(Abs(k), ptr, out, Abs(r))
  {
    InvParts(k);
    RunningIn(k);
    BufferInRange(k, ptr);
    var (r, out) := SysSend(k, ptr);
    if BufferOk(k, ptr) {
      var msg := MessageAt(k, ptr);
      SendCases(k, msg);
      SendCasesEffect(k, msg);
      SendEffectIs(Abs(k), ptr, msg, SendMessage(k, k.ring3, msg.dst, msg).1, Abs(r));
    } else {
      assert r == k && out == Ret(ERR_FAULT);
    }
    hide *;
  }

  lemma SendCasesEffect(k: Kernel, msg: Message)
    requires Inv(k) && k.InUser()
    ensures var (r, ok) := SendMessage(k, k.ring3, msg.dst, msg); CoreInv(r) && SendEffect(Abs(k), msg, ok, Abs(r))
  {
    InvParts(k);
    RunningIn(k);
    SendCases(k, msg);
    LiveIs(k, msg.dst);
    WaitingIs(k, msg.dst);
    hide CoreInv, MessageInv, Inv, Abs, SendMessage, StateOf, Encode;
  }

  /** `ipc_send`, case by case. */
  lemma SendCases(k: Kernel, msg: Message)
    requires Inv(k) && k.InUser()
    ensures var stamped := msg.(src := k.ring3);
            var (r, ok) := SendMessage(k, k.ring3, msg.dst, msg);
            var a, st := Abs(k), StateOf(k.b.p, msg.dst);
            && CoreInv(r)
            && (st == Unused ==> r == k && !ok)
            && (st == Blocked ==>
                 && ok && msg.dst in a.procs && a.procs[msg.dst].waiting.Some? && a.procs[msg.dst].saved.Some?
                 && a.procs[msg.dst].InRange(a.procs[msg.dst].waiting.value, MSG_SIZE)
                 && Abs(r) == a.(procs := a.procs[msg.dst := a.procs[msg.dst].Receive(stamped)]))
            && (st != Unused && st != Blocked ==>
                 && (ok <==> if msg.dst in a.box then a.box[msg.dst] == [] else |a.box| < BOXES)
                 && Abs(r) == if ok then a.(box := a.box[msg.dst := [stamped]]) else a)
  {
    InvParts(k);
    BoxesDistinct(k);
    LiveIs(k, msg.dst);
    var st := StateOf(k.b.p, msg.dst);
    var stamped := msg.(src := k.ring3, dst := msg.dst);
    assert stamped == msg.(src := k.ring3);
    if st == Blocked {
      DeliverRefines(k, msg.dst, stamped);
    } else if st != Unused {
      DeliverFails(k, msg.dst, stamped);
      PostRefines(k.i, msg.dst, stamped);
      var i1 := Post(k.i, msg.dst, stamped).0;
      Posted(k.i, msg.dst, stamped);
      BoxOnly(k, i1);
    }
  }

  // ---- receive -------------------------------------------------------------

  lemma WriteLiveIs(m: Mem, im: Image, ptr: U32, d: seq<Byte>)
    requires m.Shape() && Fits(m, im) && |d| == MSG_SIZE && Validate(im, ptr, MSG_SIZE)
    ensures var r := WriteLive(m, im, ptr, d);
            var inImage := im.base <= ptr && ptr + MSG_SIZE <= im.base + im.size;
            && r.owner == m.owner && r.snapshot == m.snapshot && r.stacksBase == m.stacksBase
            && (inImage ==> Window(r, im) == Blit(Window(m, im), ptr - im.base, d) && r.stacks == m.stacks)
            && (!inImage ==>
                 && im.stackBase <= ptr && ptr + MSG_SIZE <= im.stackBase + STACK_SIZE && r.region == m.region
                 && r.stacks == Blit(m.stacks, ptr - m.stacksBase, d)
                 && Stack(r, im) == Blit(Stack(m, im), ptr - im.stackBase, d))
  {
    RangesAgree(im.base, im.size, ptr, MSG_SIZE);
    RangesAgree(im.stackBase, im.stackSize, ptr, MSG_SIZE);
    var r := WriteLive(m, im, ptr, d);
    if im.base <= ptr && ptr + MSG_SIZE <= im.base + im.size {
      BlitInside(m.region, ptr - IMAGE_BASE, d, im.base - IMAGE_BASE, im.base - IMAGE_BASE + im.size);
    } else {
      StackWritten(m, r, im, ptr, d);
    }
  }

  lemma ReceivedView(k: Kernel, r: Kernel, ptr: U32, d: seq<Byte>)
    requires k.Shape() && k.InUser() && ResidentOk(k, k.ring3) && |d| == MSG_SIZE && Validate(k.ImageOf(k.ring3), ptr, MSG_SIZE)
    requires r.Shape() && r == k.(i := r.i, m := WriteLive(k.m, k.ImageOf(k.ring3), ptr, d)) && r.i.waiter == k.i.waiter
    requires View(k, k.ring3).InRange(ptr, MSG_SIZE)
    ensures OwnerSlot(r.m, k.ring3) >= 0 && View(r, k.ring3) == View(k, k.ring3).Write(ptr, d)
  {
    var im := k.ImageOf(k.ring3);
    WrittenWindow(k.m, im, ptr, d);
    SameOwners(k.m, r.m, k.ring3);
    SameWaiting(k.i, r.i, k.ring3);
    RunningView(k);
    RunningView(r);
    hide *;
    WriteIs(im, Window(k.m, im), Stack(k.m, im), Waiting(k.i, k.ring3), ptr, d);
  }

  /** The view of the process in user mode. */
  lemma RunningView(k: Kernel)
    requires k.Shape() && k.InUser() && OwnerSlot(k.m, k.ring3) >= 0
    ensures var im := k.ImageOf(k.ring3);
            View(k, k.ring3) == AProc(im.base, Window(k.m, im), im.stackBase, Stack(k.m, im), None, Waiting(k.i, k.ring3))
  {
  }

  lemma WriteIs(im: Image, w: seq<Byte>, s: seq<Byte>, waiting: Option<U32>, ptr: U32, d: seq<Byte>)
    requires |w| == im.size && |s| == STACK_SIZE && |d| == MSG_SIZE
    requires (im.base <= ptr && ptr + MSG_SIZE <= im.base + im.size)
             || (im.stackBase <= ptr && ptr + MSG_SIZE <= im.stackBase + STACK_SIZE)
    ensures AProc(im.base, w, im.stackBase, s, None, waiting).Write(ptr, d) ==
            if im.base <= ptr && ptr + MSG_SIZE <= im.base + im.size
            then AProc(im.base, Blit(w, ptr - im.base, d), im.stackBase, s, None, waiting)
            else AProc(im.base, w, im.stackBase, Blit(s, ptr - im.stackBase, d), None, waiting)
  {
  }

  lemma WrittenWindow(m: Mem, im: Image, ptr: U32, d: seq<Byte>)
    requires m.Shape() && Fits(m, im) && |d| == MSG_SIZE && Validate(im, ptr, MSG_SIZE)
    ensures var r := WriteLive(m, im, ptr, d);
            && r.owner == m.owner && Fits(r, im)
            && if im.base <= ptr && ptr + MSG_SIZE <= im.base + im.size
               then Window(r, im) == Blit(Window(m, im), ptr - im.base, d) && Stack(r, im) == Stack(m, im)
               else im.stackBase <= ptr && ptr + MSG_SIZE <= im.stackBase + STACK_SIZE
                    && Window(r, im) == Window(m, im) && Stack(r, im) == Blit(Stack(m, im), ptr - im.stackBase, d)
  {
    WriteLiveIs(m, im, ptr, d);
    var r := WriteLive(m, im, ptr, d);
    hide WriteLive, Validate, Blit;
    if im.base <= ptr && ptr + MSG_SIZE <= im.base + im.size {
      SameStack(m, r, im);
    } else {
      SameRegion(m, r, im);
    }
  }

  lemma SameRegion(m: Mem, r: Mem, im: Image)
    requires m.Shape() && r.Shape() && Fits(m, im) && Fits(r, im) && r.region == m.region
    ensures Window(m, im) == Window(r, im)
  {
  }

  lemma ReceivedKept(k: Kernel, r: Kernel, ptr: U32, d: seq<Byte>, q: int)
    requires CoreInv(k) && k.InUser() && ResidentOk(k, k.ring3) && |d| == MSG_SIZE && Validate(k.ImageOf(k.ring3), ptr, MSG_SIZE)
    requires r.Shape() && r == k.(i := r.i, m := WriteLive(k.m, k.ImageOf(k.ring3), ptr, d)) && r.i.waiter == k.i.waiter
    requires q != k.ring3
    ensures Kept(k, r, q)
  {
    var im := k.ImageOf(k.ring3);
    WriteLiveIs(k.m, im, ptr, d);
    SameWaiting(k.i, r.i, q);
    if k.Resident(q) {
      assert ResidentOk(k, q);
      OwnersDiffer(k, k.ring3, q);
      SameOwners(k.m, r.m, q);
      hide Find, OwnerSlot, Waiting, WriteLive, Window, Stack, CoreInv, Validate, Blit, StackBase;
      if im.base <= ptr && ptr + MSG_SIZE <= im.base + im.size {
        SameStack(k.m, r.m, k.ImageOf(q));
      } else {
        StackNotWritten(k.m, r.m, OwnerSlot(k.m, k.ring3), OwnerSlot(k.m, q), im, k.ImageOf(q), ptr, d);
      }
    }
  }

  /** A message taken from the mailbox lands in the receiver's own memory. */
  lemma ReceiveRefines(k: Kernel, ptr: U32)
    requires Inv(k) && k.InUser() && ResidentOk(k, k.ring3) && BufferOk(k, ptr) && Take(k.i, k.ring3).1 != []
    requires View(k, k.ring3).InRange(ptr, MSG_SIZE)
    ensures var (i1, got) := Take(k.i, k.ring3);
            var r := k.(i := i1, m := WriteLive(k.m, k.ImageOf(k.ring3), ptr, Encode(got[0])));
            && CoreInv(r)
            && Abs(r) == Abs(k).(procs := Abs(k).procs[k.ring3 := View(k, k.ring3).Write(ptr, Encode(got[0]))],
                                 box := AbsBox(k.i)[k.ring3 := []])
  {
    var (i1, got) := Take(k.i, k.ring3);
    var d := Encode(got[0]);
    var r := k.(i := i1, m := WriteLive(k.m, k.ImageOf(k.ring3), ptr, d));
    InvParts(k);
    BoxesDistinct(k);
    Taken(k.i, k.ring3);
    TakeRefines(k.i, k.ring3);
    WriteLiveIs(k.m, k.ImageOf(k.ring3), ptr, d);
    MemoryCore(k, r);
    assert r.Resident(k.ring3) && Find(k.b.p, k.ring3) >= 0 && Validate(k.ImageOf(k.ring3), ptr, MSG_SIZE);
    ReceivedView(k, r, ptr, d);
    hide *;
    forall q | q != k.ring3 ensures Kept(k, r, q) {
      ReceivedKept(k, r, ptr, d, q);
    }
    OneAbs(k, r, k.ring3, View(k, k.ring3).Write(ptr, d));
  }

  /** Entering the receive in the waiter table. */
  lemma WaitRefines(k: Kernel, ptr: U32)
    requires Inv(k) && k.InUser() && ResidentOk(k, k.ring3)
    ensures var (i2, ok) := BlockRecv(k.i, k.b.p, k.ring3, ptr);
            var r := k.(i := i2);
            && ok && CoreInv(r) && r.InUser() && ResidentOk(r, k.ring3) && AbsBox(r.i) == AbsBox(k.i)
            && View(r, k.ring3) == View(k, k.ring3).(waiting := Some(ptr))
            && Abs(r) == Abs(k).(procs := Abs(k).procs[k.ring3 := View(k, k.ring3).(waiting := Some(ptr))])
  {
    BlockIs(k, ptr);
    InvParts(k);
    var i2 := BlockRecv(k.i, k.b.p, k.ring3, ptr).0;
    var r := k.(i := i2);
    MemoryCore(k, r);
    var w := FreeWaiter(k.i);
    forall q ensures Waiting(r.i, q) == if q == k.ring3 then Some(ptr) else Waiting(k.i, q) {
      WaiterSet(k.i, w, k.ring3, ptr, q);
      if q != k.ring3 && FindWaiter(k.i, q) >= 0 {
        assert FindWaiter(k.i, q) != w;
      }
    }
    SameAbsBox(k.i, r.i);
    hide BlockRecv, FreeWaiter, FindWaiter, Waiting, AbsBox;
    assert ResidentOk(r, k.ring3);
    WaitParts(k, r, ptr);
  }

  lemma SameAbsBox(i: Boxes, r: Boxes)
    requires i.box == r.box
    ensures AbsBox(i) == AbsBox(r)
  {
    forall q ensures Pending(r, q) == Pending(i, q) {
      SameBoxes(i, r, q);
    }
    assert BoxPids(r) == BoxPids(i);
  }

  lemma WaitParts(k: Kernel, r: Kernel, ptr: U32)
    requires CoreInv(k) && CoreInv(r) && k.InUser() && ResidentOk(k, k.ring3) && r == k.(i := r.i)
    requires r.Resident(k.ring3) && ResidentOk(r, k.ring3)
    requires forall q :: Waiting(r.i, q) == if q == k.ring3 then Some(ptr) else Waiting(k.i, q)
    requires AbsBox(r.i) == AbsBox(k.i)
    ensures View(r, k.ring3) == View(k, k.ring3).(waiting := Some(ptr))
    ensures Abs(r) == Abs(k).(procs := Abs(k).procs[k.ring3 := View(k, k.ring3).(waiting := Some(ptr))])
  {
    assert r.Resident(k.ring3) && Find(k.b.p, k.ring3) >= 0 && r.ring3 == k.ring3;
    assert View(r, k.ring3) == View(k, k.ring3).(waiting := Some(ptr));
    CoreShape(k);
    CoreShape(r);
    forall q | q != k.ring3 ensures Kept(k, r, q) {
      WaitKept(k, r, q);
    }
    hide *;
    OneAbs(k, r, k.ring3, View(k, k.ring3).(waiting := Some(ptr)));
  }

  lemma WaitKept(k: Kernel, r: Kernel, q: int)
    requires CoreInv(k) && r.Shape() && r == k.(i := r.i) && Waiting(r.i, q) == Waiting(k.i, q)
    ensures Kept(k, r, q)
  {
    assert k.Resident(q) ==> ResidentOk(k, q);
    hide Find, OwnerSlot, Waiting, Stack;
  }

  lemma BlockRefines(k: Kernel, ptr: U32, frame: Context)
    requires Inv(k) && k.InUser() && ResidentOk(k, k.ring3)
    ensures var (i2, ok) := BlockRecv(k.i, k.b.p, k.ring3, ptr);
            && ok && k.(i := i2).Shape() && k.(i := i2).InUser()
            && var (r, out) := Stop(k.(i := i2), Blocked, frame);
               && CoreInv(r) && out == Done
               && Abs(r) == Abs(k).(running := 0, procs :=
                    Abs(k).procs[k.ring3 := View(k, k.ring3).(waiting := Some(ptr), saved := Some(frame.(eax := 0)))])
  {
    WaitRefines(k, ptr);
    var k2 := k.(i := BlockRecv(k.i, k.b.p, k.ring3, ptr).0);
    CoreShape(k2);
    var v, a := View(k, k.ring3), Abs(k);
    hide *;
    StopCore(k2, Blocked, frame);
    StopRefines(k2, Stop(k2, Blocked, frame).0, Blocked, frame);
    SameBoxAfter(k2, Stop(k2, Blocked, frame).0, frame);
    TwiceUpdated(a.procs, k.ring3, v.(waiting := Some(ptr)), v.(waiting := Some(ptr), saved := Some(frame.(eax := 0))));
  }

  lemma SameBoxAfter(k: Kernel, r: Kernel, frame: Context)
    requires k.Shape() && k.InUser() && r.Shape() && OwnerSlot(k.m, k.ring3) >= 0 && Stopped(k, r, Blocked, frame)
    ensures r.i == k.i
  {
  }

  lemma TwiceUpdated(a: imap<int, AProc>, q: int, u: AProc, v: AProc)
    ensures a[q := u][q := v] == a[q := v]
  {
  }

  lemma RecvRefines(k: Kernel, ptr: U32, frame: Context)
    requires Inv(k) && k.InUser()
    ensures Abs(k).running in Abs(k).procs
    ensures var (r, out) := SysRecv(k, ptr, frame); CoreInv(r) && ARecv(Abs(k), ptr, frame, out, Abs(r))
  {
    InvParts(k);
    RunningIn(k);
    BufferInRange(k, ptr);
    var (r, out) := SysRecv(k, ptr, frame);
    if BufferOk(k, ptr) {
      BoxesDistinct(k);
      TakeRefines(k.i, k.ring3);
      BoxSizes(k.i);
      var (i1, got) := Take(k.i, k.ring3);
      if got == [] {
        BlockRefines(k, ptr, frame);
        var i2 := BlockRecv(k.i, k.b.p, k.ring3, ptr).0;
        assert r == Stop(k.(i := i2), Blocked, frame).0 && out == Done;
      } else {
        ReceiveRefines(k, ptr);
        assert out == Ret(0);
        assert r == k.(i := i1, m := WriteLive(k.m, k.ImageOf(k.ring3), ptr, Encode(got[0])));
      }
      assert Abs(k).box == AbsBox(k.i);
      hide SysRecv, Take, BlockRecv, Stop, CoreInv, MessageInv, Inv, Abs, AbsBox, View, Encode, WriteLive, BufferOk,
           Find;
    } else {
      assert r == k && out == Ret(ERR_FAULT);
    }
  }

  lemma BoxSizes(i: Boxes)
    ensures forall q :: q in AbsBox(i) ==> |AbsBox(i)[q]| <= 1
  {
  }

  // ---- every step, every run -----------------------------------------------

  lemma ResumeStep(k: Kernel, pid: int)
    requires Inv(k) && k.ring3 == 0 && k.Resident(pid) && StateOf(k.b.p, pid) != Blocked
    ensures var (r, out) := Begin(k, pid, []);
            CoreInv(r) && out.Resumed? && out.pid == pid && AResume(Abs(k), out, Abs(r))
  {
    InvParts(k);
    FoundIsLive(k.b, pid);
    assert StateOf(k.b.p, pid) in {Ready, Running};
    WaitingIs(k, pid);
    ResumeRefines(k, pid);
    var (r, out) := Begin(k, pid, []);
    ResumeSameBox(k, r);
    hide Begin, Abs, View, CoreInv, Inv, MessageInv, Find, StateOf;
  }

  lemma ResumeSameBox(k: Kernel, r: Kernel)
    requires r.i == k.i
    ensures AbsBox(r.i) == AbsBox(k.i)
  {
  }

  // ---- the abstract step, case by case -------------------------------------

  lemma AStepIs(a: AState, s: Step, out: Output, a': AState)
    requires s.Exec? ==> AExec(a, s.prog, s.args, out, a')
    requires s.ResumeNext? ==> AResume(a, out, a')
    requires s.ResumePid? ==> AResume(a, out, a') && (out.Resumed? ==> out.pid == s.pid)
    requires s.Send? ==> a.running in a.procs && ASend(a, s.ptr, out, a')
    requires s.Recv? ==> a.running in a.procs && ARecv(a, s.ptr, s.frame, out, a')
    requires s.Tick? ==> out == Done && a' == a
    requires !s.Compute? && !s.Yield? && !s.Exit?
    ensures AStep(a, s, out, a')
  {
    hide AExec, AResume, ASend, ARecv;
  }

  lemma ExecIsStep(k: Kernel, prog: Program, args: seq<seq<Byte>>)
    requires Inv(k) && k.Shape() && Enabled(k, Exec(prog, args)) && CoreInv(k) && CoreInv(Apply(k, Exec(prog, args)).0)
    ensures var (r, out) := Apply(k, Exec(prog, args)); AStep(Abs(k), Exec(prog, args), out, Abs(r))
  {
    assert k.ring3 == 0 && prog.Ok() && k.b.p.nextPid < MAX_PID && Apply(k, Exec(prog, args)) == ExecPath(k, prog, args) by {
      hide ExecPath, CoreInv, Inv;
    }
    hide *;
    ExecRefines(k, prog, args);
    AStepIs(Abs(k), Exec(prog, args), ExecPath(k, prog, args).1, Abs(ExecPath(k, prog, args).0));
  }

  lemma ResumeNextIsStep(k: Kernel)
    requires Inv(k) && k.Shape() && Enabled(k, ResumeNext) && CoreInv(k) && CoreInv(Apply(k, ResumeNext).0)
    ensures var (r, out) := Apply(k, ResumeNext); AStep(Abs(k), ResumeNext, out, Abs(r))
  {
    var (r, out) := Apply(k, ResumeNext);
    var j := NextResumable(k.b);
    assert k.ring3 == 0;
    assert if j < 0 then (r, out) == (k, Failed)
           else k.Resident(k.b.t.slot[j].pid) && (r, out) == Begin(k, k.b.t.slot[j].pid, []) by {
      if j >= 0 {
        NextIsResident(k);
      }
      hide Begin, CoreInv;
    }
    if j >= 0 {
      NextIsResident(k);
      hide *;
      ResumeStep(k, k.b.t.slot[j].pid);
      AStepIs(Abs(k), ResumeNext, out, Abs(r));
    } else {
      Stays(k);
      hide *;
      AStepIs(Abs(k), ResumeNext, out, Abs(r));
    }
  }

  lemma ResumePidIsStep(k: Kernel, pid: int)
    requires Inv(k) && k.Shape() && Enabled(k, ResumePid(pid)) && CoreInv(k) && CoreInv(Apply(k, ResumePid(pid)).0)
    ensures var (r, out) := Apply(k, ResumePid(pid)); AStep(Abs(k), ResumePid(pid), out, Abs(r))
  {
    var (r, out) := Apply(k, ResumePid(pid));
    assert k.ring3 == 0 && StateOf(k.b.p, pid) != Blocked;
    if pid > 0 && Resumable(k.b.p, pid) {
      assert k.Resident(pid) && (r, out) == Begin(k, pid, []);
      hide *;
      ResumeStep(k, pid);
      AStepIs(Abs(k), ResumePid(pid), out, Abs(r));
    } else {
      assert (r, out) == (k, Failed);
      hide *;
      Stays(k);
      AStepIs(Abs(k), ResumePid(pid), out, Abs(r));
    }
  }

  lemma ComputeIsStep(k: Kernel, w: seq<Byte>, st: seq<Byte>)
    requires Inv(k) && k.Shape() && Enabled(k, Compute(w, st)) && CoreInv(k) && CoreInv(Apply(k, Compute(w, st)).0)
    ensures var (r, out) := Apply(k, Compute(w, st)); AStep(Abs(k), Compute(w, st), out, Abs(r))
  {
    assert Apply(k, Compute(w, st)).1 == Done by {
      hide CoreInv, Inv, WithStack, WithWindow;
    }
    hide *;
    ComputeRefines(k, w, st);
  }

  lemma SendIsStep(k: Kernel, ptr: U32)
    requires Inv(k) && k.Shape() && Enabled(k, Send(ptr)) && CoreInv(k) && CoreInv(Apply(k, Send(ptr)).0)
    ensures var (r, out) := Apply(k, Send(ptr)); AStep(Abs(k), Send(ptr), out, Abs(r))
  {
    assert k.InUser() && Apply(k, Send(ptr)) == SysSend(k, ptr) by {
      hide SysSend, CoreInv, Inv;
    }
    hide *;
    SendRefines(k, ptr);
    AStepIs(Abs(k), Send(ptr), SysSend(k, ptr).1, Abs(SysSend(k, ptr).0));
  }

  lemma RecvIsStep(k: Kernel, ptr: U32, frame: Context)
    requires Inv(k) && k.Shape() && Enabled(k, Recv(ptr, frame)) && CoreInv(k) && CoreInv(Apply(k, Recv(ptr, frame)).0)
    ensures var (r, out) := Apply(k, Recv(ptr, frame)); AStep(Abs(k), Recv(ptr, frame), out, Abs(r))
  {
    assert k.InUser() && Apply(k, Recv(ptr, frame)) == SysRecv(k, ptr, frame) by {
      hide SysRecv, CoreInv, Inv;
    }
    hide *;
    RecvRefines(k, ptr, frame);
    AStepIs(Abs(k), Recv(ptr, frame), SysRecv(k, ptr, frame).1, Abs(SysRecv(k, ptr, frame).0));
  }

  lemma YieldIsStep(k: Kernel, frame: Context)
    requires Inv(k) && k.Shape() && Enabled(k, Yield(frame)) && CoreInv(k) && CoreInv(Apply(k, Yield(frame)).0)
    ensures var (r, out) := Apply(k, Yield(frame)); AStep(Abs(k), Yield(frame), out, Abs(r))
  {
    assert k.InUser() && Apply(k, Yield(frame)) == Stop(k, Ready, frame) by {
      hide Stop, CoreInv, Inv;
    }
    hide *;
    YieldStep(k, frame);
  }

  lemma ExitIsStep(k: Kernel, code: int)
    requires Inv(k) && k.Shape() && Enabled(k, Exit(code)) && CoreInv(k) && CoreInv(Apply(k, Exit(code)).0)
    ensures var (r, out) := Apply(k, Exit(code)); AStep(Abs(k), Exit(code), out, Abs(r))
  {
    assert k.InUser() && Apply(k, Exit(code)) == ExitRun(k, code) by {
      hide ExitRun, CoreInv, Inv;
    }
    hide *;
    ExitStep(k, code);
  }

  lemma TickIsStep(k: Kernel)
    requires Inv(k) && k.Shape() && Enabled(k, Step.Tick) && CoreInv(k) && CoreInv(Apply(k, Step.Tick).0)
    ensures var (r, out) := Apply(k, Step.Tick); AStep(Abs(k), Step.Tick, out, Abs(r))
  {
    assert Apply(k, Step.Tick) == (k.(b := Tasks.Tick(k.b)), Done) by {
      hide Tasks.Tick, CoreInv, Inv;
    }
    hide *;
    TickRefines(k);
    AStepIs(Abs(k), Step.Tick, Done, Abs(k));
  }

  /** Every step of the kernel is a step of the machine with private memories. */
  lemma StepRefines(k: Kernel, s: Step)
    requires Inv(k) && Enabled(k, s)
    ensures var (r, out) := Apply(k, s); Inv(r) && AStep(Abs(k), s, out, Abs(r))
  {
    StepKeeps(k, s);
    InvParts(k);
    InvParts(Apply(k, s).0);
    hide *;
    match s
    case Exec(prog, args) => ExecIsStep(k, prog, args);
    case ResumeNext => ResumeNextIsStep(k);
    case ResumePid(pid) => ResumePidIsStep(k, pid);
    case Compute(w, st) => ComputeIsStep(k, w, st);
    case Send(ptr) => SendIsStep(k, ptr);
    case Recv(ptr, frame) => RecvIsStep(k, ptr, frame);
    case Yield(frame) => YieldIsStep(k, frame);
    case Exit(code) => ExitIsStep(k, code);
    case Tick => TickIsStep(k);
  }

  lemma Stays(k: Kernel)
    requires CoreInv(k)
    ensures AResume(Abs(k), Failed, Abs(k))
  {
  }

  lemma AYieldIs(a: AState, frame: Context, a': AState)
    requires a.running in a.procs
    requires a' == a.(running := 0, procs := a.procs[a.running := a.procs[a.running].(saved := Some(frame.(eax := 0)))])
    ensures AStep(a, Yield(frame), Done, a')
  {
    hide AExec, AResume, ASend, ARecv;
  }

  lemma YieldStep(k: Kernel, frame: Context)
    requires Inv(k) && k.InUser()
    ensures var (r, out) := Stop(k, Ready, frame); CoreInv(r) && AStep(Abs(k), Yield(frame), out, Abs(r))
  {
    InvParts(k);
    RunningIn(k);
    hide *;
    YieldRefines(k, frame);
    AYieldIs(Abs(k), frame, Abs(Stop(k, Ready, frame).0));
  }

  lemma AExitIs(a: AState, code: int, a': AState)
    requires a' == a.(running := 0, live := a.live - iset{a.running},
                      procs := imap p | p in a.procs && p != a.running :: a.procs[p])
    ensures AStep(a, Exit(code), Done, a')
  {
    hide AExec, AResume, ASend, ARecv;
  }

  lemma ExitStep(k: Kernel, code: int)
    requires Inv(k) && k.InUser()
    ensures var (r, out) := ExitRun(k, code); CoreInv(r) && AStep(Abs(k), Exit(code), out, Abs(r))
  {
    InvParts(k);
    RunningIn(k);
    hide *;
    ExitRefines(k, code);
    AExitIs(Abs(k), code, Abs(ExitRun(k, code).0));
  }

  /** The states and outputs of a run of the private-memory machine. */
  ghost predicate ARun(trace: seq<AState>, steps: seq<Step>, outs: seq<Output>) {
    && |trace| == |steps| + 1 && |outs| == |steps|
    && forall n :: 0 <= n < |steps| ==> AStep(trace[n], steps[n], outs[n], trace[n + 1])
  }

  ghost function Trace(k: Kernel, steps: seq<Step>): (t: seq<Kernel>)
    requires k.Shape() && CanRun(k, steps)
    ensures |t| == |steps| + 1 && t[0] == k && t[|steps|] == Run(k, steps)
    decreases |steps|
  {
    if steps == [] then [k] else [k] + Trace(Apply(k, steps[0]).0, steps[1..])
  }

  ghost function Outputs(k: Kernel, steps: seq<Step>): (o: seq<Output>)
    requires k.Shape() && CanRun(k, steps)
    ensures |o| == |steps|
    decreases |steps|
  {
    if steps == [] then [] else [Apply(k, steps[0]).1] + Outputs(Apply(k, steps[0]).0, steps[1..])
  }

  /** One state and one step of a trace. */
  lemma {:induction false} TraceStep(k: Kernel, steps: seq<Step>, n: nat)
    requires Inv(k) && k.Shape() && CanRun(k, steps) && n < |steps|
    ensures var t := Trace(k, steps);
            Inv(t[n]) && Enabled(t[n], steps[n]) && Apply(t[n], steps[n]) == (t[n + 1], Outputs(k, steps)[n])
    decreases n
  {
    TraceStarts(k, steps);
    if n > 0 {
      StepKeeps(k, steps[0]);
      InvParts(Apply(k, steps[0]).0);
      TraceShifts(k, steps, n);
      hide *;
      TraceStep(Apply(k, steps[0]).0, steps[1..], n - 1);
    }
    hide Inv, Enabled, Apply, Trace, Outputs, CanRun;
  }

  lemma TraceStarts(k: Kernel, steps: seq<Step>)
    requires k.Shape() && CanRun(k, steps) && steps != []
    ensures Enabled(k, steps[0]) && CanRun(Apply(k, steps[0]).0, steps[1..])
    ensures Trace(k, steps)[0] == k && Apply(k, steps[0]) == (Trace(k, steps)[1], Outputs(k, steps)[0])
  {
    hide Apply, Enabled, Run;
  }

  lemma TraceShifts(k: Kernel, steps: seq<Step>, n: nat)
    requires k.Shape() && CanRun(k, steps) && 0 < n < |steps|
    requires Enabled(k, steps[0]) && CanRun(Apply(k, steps[0]).0, steps[1..])
    ensures var r, rest := Apply(k, steps[0]).0, steps[1..];
            && steps[n] == rest[n - 1] && Outputs(k, steps)[n] == Outputs(r, rest)[n - 1]
            && Trace(k, steps)[n] == Trace(r, rest)[n - 1] && Trace(k, steps)[n + 1] == Trace(r, rest)[n]
  {
    hide Apply, Enabled, Run;
  }

  lemma TraceEnd(k: Kernel, steps: seq<Step>)
    requires k.Shape() && CanRun(k, steps)
    ensures Trace(k, steps)[|steps|] == Run(k, steps)
  {
  }

  lemma TraceInv(k: Kernel, steps: seq<Step>, n: nat)
    requires Inv(k) && CanRun(k, steps) && n <= |steps|
    ensures Inv(Trace(k, steps)[n])
  {
    InvParts(k);
    TraceEnd(k, steps);
    hide *;
    if n < |steps| {
      TraceStep(k, steps, n);
    } else {
      RunKeeps(k, steps);
    }
  }

  ghost function AbsTrace(k: Kernel, steps: seq<Step>): (t: seq<AState>)
    requires Inv(k) && CanRun(k, steps)
    ensures |t| == |steps| + 1
  {
    seq(|steps| + 1, n requires 0 <= n <= |steps| => TraceInv(k, steps, n); InvParts(Trace(k, steps)[n]); Abs(Trace(k, steps)[n]))
  }

  lemma AbsTraceAt(k: Kernel, steps: seq<Step>, n: nat)
    requires Inv(k) && k.Shape() && CanRun(k, steps) && n <= |steps|
    ensures CoreInv(Trace(k, steps)[n]) && AbsTrace(k, steps)[n] == Abs(Trace(k, steps)[n])
  {
    TraceInv(k, steps, n);
    InvParts(Trace(k, steps)[n]);
    hide Abs, Inv, CoreInv, MessageInv, Trace;
  }

  lemma RunStep(k: Kernel, steps: seq<Step>, n: nat)
    requires Inv(k) && k.Shape() && CanRun(k, steps) && n < |steps|
    ensures AStep(AbsTrace(k, steps)[n], steps[n], Outputs(k, steps)[n], AbsTrace(k, steps)[n + 1])
  {
    hide *;
    TraceStep(k, steps, n);
    AbsTraceAt(k, steps, n);
    AbsTraceAt(k, steps, n + 1);
    StepRefines(Trace(k, steps)[n], steps[n]);
  }

  /**
   * Over every run, the one image region with its snapshots behaves as one private memory per process:
   * the abstractions of the states passed through are a run of the private-memory machine.
   */
  lemma RunRefines(k: Kernel, steps: seq<Step>)
    requires Inv(k) && CanRun(k, steps)
    ensures ARun(AbsTrace(k, steps), steps, Outputs(k, steps))
  {
    InvParts(k);
    var t, outs := AbsTrace(k, steps), Outputs(k, steps);
    forall n | 0 <= n < |steps| ensures AStep(t[n], steps[n], outs[n], t[n + 1]) {
      hide *;
      RunStep(k, steps, n);
    }
    hide AStep, Inv, AbsTrace, Outputs;
  }
}
