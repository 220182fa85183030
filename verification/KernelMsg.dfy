// Message steps: what sending, receiving and blocking do, and that every step keeps the invariant.

module KernelMsg {
  import opened Bytes
  import opened Procs
  import opened Tasks
  import opened TableInv
  import opened TablePids
  import opened Elf
  import opened Images
  import opened Ipc
  import opened Kernel
  import opened KernelInv

  // ---- tables of waiters and mailboxes -------------------------------------

  ghost predicate DistinctWaiters(i: Boxes) {
    forall w :: 0 <= w < |i.waiter| && i.waiter[w].active ==> FindWaiter(i, i.waiter[w].pid) == w
  }

  ghost predicate DistinctBoxes(i: Boxes) {
    forall x :: 0 <= x < |i.box| && i.box[x].used ==> FindBox(i, i.box[x].pid) == x
  }

  lemma WaiterCleared(i: Boxes, w: int, q: int)
    requires DistinctWaiters(i) && 0 <= w < |i.waiter| && i.waiter[w].active
    ensures FindWaiter(ClearWaiter(i, w), q) == if q == i.waiter[w].pid then -1 else FindWaiter(i, q)
  {
    var r, v := ClearWaiter(i, w), FindWaiter(i, q);
    var v' := FindWaiter(r, q);
    if v' >= 0 {
      assert r.waiter[v'] == i.waiter[v'];
      assert FindWaiter(i, i.waiter[v'].pid) == v';
    }
    if v >= 0 && q != i.waiter[w].pid {
      assert r.waiter[v] == i.waiter[v];
    }
  }

  lemma WaiterSet(i: Boxes, w: int, pid: int, ptr: U32, q: int)
    requires DistinctWaiters(i) && 0 <= w < |i.waiter| && !i.waiter[w].active && FindWaiter(i, pid) < 0
    ensures FindWaiter(i.(waiter := i.waiter[w := Waiter(true, pid, ptr)]), q) == if q == pid then w else FindWaiter(i, q)
  {
    var r := i.(waiter := i.waiter[w := Waiter(true, pid, ptr)]);
    var v, v' := FindWaiter(i, q), FindWaiter(r, q);
    if q == pid {
      assert r.waiter[w].active;
      assert forall u :: 0 <= u < |i.waiter| && u != w ==> r.waiter[u] == i.waiter[u] && !(i.waiter[u].active && i.waiter[u].pid == pid);
    } else {
      if v' >= 0 {
        assert r.waiter[v'] == i.waiter[v'];
        assert FindWaiter(i, i.waiter[v'].pid) == v';
      }
      if v >= 0 {
        assert r.waiter[v] == i.waiter[v];
      }
    }
  }

  lemma BoxSet(i: Boxes, x: int, e: Mailbox, q: int)
    requires DistinctBoxes(i) && 0 <= x < |i.box| && e.used
    requires if i.box[x].used then e.pid == i.box[x].pid else FindBox(i, e.pid) < 0
    ensures FindBox(i.(box := i.box[x := e]), q) == if q == e.pid then x else FindBox(i, q)
  {
    var r := i.(box := i.box[x := e]);
    var v, v' := FindBox(i, q), FindBox(r, q);
    if q == e.pid {
      assert r.box[x].used;
      forall u | 0 <= u < |i.box| && u != x ensures !(r.box[u].used && r.box[u].pid == q) {
        assert r.box[u] == i.box[u];
        assert i.box[u].used ==> FindBox(i, i.box[u].pid) == u;
        assert i.box[x].used ==> FindBox(i, i.box[x].pid) == x;
        assert !(i.box[u].used && i.box[u].pid == q) || FindBox(i, q) == u;
      }
    } else {
      if v' >= 0 {
        assert r.box[v'] == i.box[v'];
        assert FindBox(i, i.box[v'].pid) == v';
      }
      if v >= 0 {
        assert r.box[v] == i.box[v];
      }
    }
  }

  /** Distinct members of a finite set are no more than the set has. */
  lemma {:induction false} DistinctFit(s: seq<int>, t: set<int>)
    requires forall i, j :: 0 <= i < j < |s| ==> s[i] != s[j]
    requires forall i :: 0 <= i < |s| ==> s[i] in t
    ensures |s| <= |t|
  {
    if s != [] {
      DistinctFit(s[1..], t - {s[0]});
    }
  }

  function Below(n: nat): (r: set<int>)
    ensures |r| == n && forall j :: j in r <==> 0 <= j < n
  {
    if n == 0 then {} else Below(n - 1) + {n - 1}
  }

  /** Distinct numbers below `n` that all miss one of them are fewer than `n`. */
  lemma DistinctShort(s: seq<int>, n: nat, hole: nat)
    requires hole < n && forall i, j :: 0 <= i < j < |s| ==> s[i] != s[j]
    requires forall i :: 0 <= i < |s| ==> 0 <= s[i] < n && s[i] != hole
    ensures |s| < n
  {
    DistinctFit(s, Below(n) - {hole});
  }

  /** Only blocked processes have waiters. */
  lemma WaiterBlocked(k: Kernel, pid: int)
    requires k.Shape() && WaitersOk(k) && FindWaiter(k.i, pid) >= 0
    ensures StateOf(k.b.p, pid) == Blocked
  {
  }

  /** The table slot of the process behind an active waiter. */
  lemma WaiterSlot(k: Kernel, w: int)
    requires Inv(k) && k.InUser() && 0 <= w < BOXES && k.i.waiter[w].active
    ensures var j := Find(k.b.p, k.i.waiter[w].pid);
            && 0 <= j < MAX_PROCS && j != Find(k.b.p, k.ring3)
            && k.b.t.slot[j].pid == k.i.waiter[w].pid && FindWaiter(k.i, k.b.t.slot[j].pid) == w
  {
    assert StateOf(k.b.p, k.i.waiter[w].pid) == Blocked;
    FoundIsLive(k.b, k.i.waiter[w].pid);
  }

  /** A receiver that is not blocked yet always finds a free waiter: 32 waiters, at most 31 blocked processes. */
  lemma WaiterAvailable(k: Kernel)
    requires Inv(k) && k.InUser()
    ensures FindWaiter(k.i, k.ring3) < 0 && FreeWaiter(k.i) >= 0
  {
    if FreeWaiter(k.i) < 0 {
      SomeWaiterFree(k);
    }
  }

  lemma SomeWaiterFree(k: Kernel)
    requires Inv(k) && k.InUser()
    ensures exists w :: 0 <= w < BOXES && !k.i.waiter[w].active
  {
    if forall w :: 0 <= w < BOXES ==> k.i.waiter[w].active {
      var slots := seq(BOXES, w requires 0 <= w < BOXES => Find(k.b.p, k.i.waiter[w].pid));
      forall w | 0 <= w < BOXES ensures 0 <= slots[w] < MAX_PROCS && slots[w] != Find(k.b.p, k.ring3) {
        WaiterSlot(k, w);
      }
      forall v, w | 0 <= v < w < BOXES ensures slots[v] != slots[w] {
        SlotsDiffer(k, v, w);
      }
      hide *;
      DistinctShort(slots, 32, Find(k.b.p, k.ring3));
      assert false;
    }
  }

  lemma SlotsDiffer(k: Kernel, v: int, w: int)
    requires Inv(k) && k.InUser() && 0 <= v < w < BOXES && k.i.waiter[v].active && k.i.waiter[w].active
    ensures Find(k.b.p, k.i.waiter[v].pid) != Find(k.b.p, k.i.waiter[w].pid)
  {
    WaiterSlot(k, v);
    WaiterSlot(k, w);
  }

  // ---- delivery ------------------------------------------------------------

  /** The message of a successful direct delivery is in the receiver's memory and the receiver is READY. */
  ghost predicate Woken(k: Kernel, r: Kernel, dst: int, msg: Message)
    requires k.Shape() && r.Shape() && k.Resident(dst) && FindWaiter(k.i, dst) >= 0
  {
    var all :=
      var im, w := k.ImageOf(dst), FindWaiter(k.i, dst);
      && r.ring3 == k.ring3 && r.i == ClearWaiter(k.i, w) && r.b.p.nextPid == k.b.p.nextPid
      && WriteToTask(k.m, k.b.p, dst, im, k.i.waiter[w].ptr, Encode(msg)) == (r.m, true)
      && r.m.owner == k.m.owner
      && StateOf(r.b.p, dst) == Ready && Find(r.b.p, dst) == Find(k.b.p, dst)
      && r.Resident(dst) && r.ImageOf(dst) == im.(context := im.context.(eax := 0))
      && forall q :: q != dst ==> SamePid(k.b, r.b, q);
    all
  }

  lemma WriteSucceeds(m: Mem, p: Table, pid: int, im: Image, ptr: U32, d: seq<Byte>)
    requires m.Shape() && Fits(m, im) && |d| == MSG_SIZE && OwnerSlot(m, pid) >= 0 && Validate(im, ptr, MSG_SIZE)
    ensures WriteToTask(m, p, pid, im, ptr, d).1 && WriteToTask(m, p, pid, im, ptr, d).0.owner == m.owner
  {
    RangesAgree(im.base, im.size, ptr, MSG_SIZE);
    RangesAgree(im.stackBase, im.stackSize, ptr, MSG_SIZE);
  }

  /** A process blocked in receive can always be delivered to. */
  lemma DeliverWakes(k: Kernel, dst: int, msg: Message)
    requires Inv(k) && StateOf(k.b.p, dst) == Blocked
    ensures BlockedOk(k, dst) && ResidentOk(k, dst)
    ensures var (r, ok) := Deliver(k, dst, msg); ok && Woken(k, r, dst, msg) && Settled(r.b)
  {
    assert BlockedOk(k, dst) && ResidentOk(k, dst);
    var im, w := k.ImageOf(dst), FindWaiter(k.i, dst);
    assert k.i.waiter[w].active && k.i.waiter[w].pid == dst;
    WriteSucceeds(k.m, k.b.p, dst, im, k.i.waiter[w].ptr, Encode(msg));
    WakeByPid(k.b, dst, im.(context := im.context.(eax := 0)));
    hide SetBoth, Find, FindWaiter, Settled, WriteToTask, OwnerSlot, Encode, Validate, CoreInv, MessageInv, Bind;
    assert Deliver(k, dst, msg).1;
  }

  lemma DeliverFails(k: Kernel, dst: int, msg: Message)
    requires Inv(k) && StateOf(k.b.p, dst) != Blocked && StateOf(k.b.p, dst) != Unused
    ensures Deliver(k, dst, msg) == (k, false)
  {
    if FindWaiter(k.i, dst) >= 0 {
      WaiterBlocked(k, dst);
    }
  }

  /** What keeps a blocked process deliverable across a step that is not about it. */
  lemma BlockedKept(k: Kernel, r: Kernel, q: int)
    requires k.Shape() && r.Shape() && BlockedOk(k, q) && SamePid(k.b, r.b, q) && q != r.ring3
    requires FindWaiter(r.i, q) == FindWaiter(k.i, q) && r.i.waiter[FindWaiter(k.i, q)] == k.i.waiter[FindWaiter(k.i, q)]
    requires NoPending(r.i, q)
    ensures BlockedOk(r, q)
  {
  }

  lemma SameBoxes(i: Boxes, j: Boxes, q: int)
    requires i.box == j.box
    ensures FindBox(i, q) == FindBox(j, q) && (NoPending(i, q) <==> NoPending(j, q))
  {
  }

  lemma SameWaiters(i: Boxes, j: Boxes, q: int)
    requires i.waiter == j.waiter
    ensures FindWaiter(i, q) == FindWaiter(j, q)
  {
  }

  /** Steps that touch no mailbox and no waiter, and block or unblock nobody. */
  lemma QuietMessages(k: Kernel, r: Kernel, gone: int)
    requires Inv(k) && CoreInv(r) && r.i == k.i && r.b.p.nextPid >= k.b.p.nextPid
    requires StateOf(k.b.p, gone) != Blocked && StateOf(r.b.p, gone) != Blocked
    requires forall q :: q != gone ==> SamePid(k.b, r.b, q)
    requires r.ring3 > 0 ==> StateOf(r.b.p, r.ring3) != Blocked
    ensures Inv(r)
  {
    assert k.Shape() && r.Shape();
    hide Find, FindWaiter, FindBox, CoreInv, Validate, StateOf, NoPending;
    assert WaitersOk(r) by {
      forall w | 0 <= w < BOXES && r.i.waiter[w].active
        ensures StateOf(r.b.p, r.i.waiter[w].pid) == Blocked && FindWaiter(r.i, r.i.waiter[w].pid) == w
      {
        assert SamePid(k.b, r.b, r.i.waiter[w].pid);
      }
    }
    forall q | StateOf(r.b.p, q) == Blocked ensures BlockedOk(r, q) {
      QuietBlocked(k, r, q, gone);
    }
  }

  lemma QuietBlocked(k: Kernel, r: Kernel, q: int, gone: int)
    requires Inv(k) && CoreInv(r) && r.i == k.i && StateOf(r.b.p, q) == Blocked && q != gone && SamePid(k.b, r.b, q)
    requires r.ring3 > 0 ==> StateOf(r.b.p, r.ring3) != Blocked
    ensures BlockedOk(r, q)
  {
    assert StateOf(k.b.p, q) == Blocked;
    BlockedKept(k, r, q);
  }

  lemma WokenKeeps(k: Kernel, r: Kernel, dst: int, msg: Message)
    requires Inv(k) && StateOf(k.b.p, dst) == Blocked && BlockedOk(k, dst) && ResidentOk(k, dst)
    requires r.Shape() && Settled(r.b) && Woken(k, r, dst, msg)
    ensures Inv(r)
  {
    var w := FindWaiter(k.i, dst);
    WokenCore(k, r, dst, msg);
    assert k.i.waiter[w].active && k.i.waiter[w].pid == dst;
    forall q ensures q != dst ==> FindWaiter(r.i, q) == FindWaiter(k.i, q) {
      WaiterCleared(k.i, w, q);
    }
    hide Find, FindWaiter, FindBox, CoreInv, Validate, WriteToTask, Encode, Settled, StateOf, NoPending;
    assert WaitersOk(r) by {
      forall v | 0 <= v < BOXES && r.i.waiter[v].active
        ensures StateOf(r.b.p, r.i.waiter[v].pid) == Blocked && FindWaiter(r.i, r.i.waiter[v].pid) == v
      {
        assert v != w && r.i.waiter[v] == k.i.waiter[v];
        assert SamePid(k.b, r.b, r.i.waiter[v].pid);
      }
    }
    assert BoxesOk(r) by {
      SameBoxesOk(k, r);
    }
    forall q | StateOf(r.b.p, q) == Blocked ensures BlockedOk(r, q) {
      WokenBlocked(k, r, q, dst);
    }
    if r.ring3 > 0 {
      assert r.ring3 == dst || SamePid(k.b, r.b, r.ring3);
    }
  }

  lemma SameBoxesOk(k: Kernel, r: Kernel)
    requires k.Shape() && r.Shape() && BoxesOk(k) && r.i.box == k.i.box && r.b.p.nextPid >= k.b.p.nextPid
    ensures BoxesOk(r)
  {
    forall x | 0 <= x < BOXES && r.i.box[x].used ensures FindBox(r.i, r.i.box[x].pid) == x {
      SameBoxes(k.i, r.i, r.i.box[x].pid);
    }
  }

  lemma WokenBlocked(k: Kernel, r: Kernel, q: int, dst: int)
    requires Inv(k) && r.Shape() && StateOf(r.b.p, q) == Blocked && q != dst && SamePid(k.b, r.b, q) && r.ring3 == k.ring3
    requires StateOf(k.b.p, dst) == Blocked && BlockedOk(k, dst) && r.i == ClearWaiter(k.i, FindWaiter(k.i, dst))
    ensures BlockedOk(r, q)
  {
    assert StateOf(k.b.p, q) == Blocked;
    var w := FindWaiter(k.i, dst);
    assert k.i.waiter[w].active && k.i.waiter[w].pid == dst;
    WaiterCleared(k.i, w, q);
    SameBoxes(k.i, r.i, q);
    BlockedKept(k, r, q);
  }

  lemma WokenCore(k: Kernel, r: Kernel, dst: int, msg: Message)
    requires Inv(k) && StateOf(k.b.p, dst) == Blocked && BlockedOk(k, dst) && ResidentOk(k, dst)
    requires r.Shape() && Settled(r.b) && Woken(k, r, dst, msg)
    ensures CoreInv(r)
  {
    SlotsKept(k, r);
    hide Find, FindWaiter, OwnerSlot, WriteToTask, Settled, MessageInv, Validate, Encode;
    forall q | r.Resident(q) ensures ResidentOk(r, q) {
      if q != dst {
        ResidentKept(k, r, q);
      } else {
        SameStackBase(k.m, r.m, OwnerSlot(k.m, q));
      }
    }
    if k.ring3 > 0 {
      assert SamePid(k.b, r.b, k.ring3);
    }
  }

  // ---- mailboxes -----------------------------------------------------------

  /** The message waiting in a mailbox: none or one. */
  function Pending(i: Boxes, pid: int): (p: seq<Message>)
    ensures |p| <= 1
  {
    if FindBox(i, pid) >= 0 && i.box[FindBox(i, pid)].full then [i.box[FindBox(i, pid)].msg] else []
  }

  predicate HasBox(i: Boxes, pid: int) {
    FindBox(i, pid) >= 0
  }

  ghost predicate SameBox(i: Boxes, j: Boxes, q: int) {
    Pending(j, q) == Pending(i, q) && (HasBox(j, q) <==> HasBox(i, q))
  }

  lemma BoxDistinct(i: Boxes, x: int, e: Mailbox)
    requires DistinctBoxes(i) && 0 <= x < |i.box| && e.used
    requires if i.box[x].used then e.pid == i.box[x].pid else FindBox(i, e.pid) < 0
    ensures var r := i.(box := i.box[x := e]);
            DistinctBoxes(r) && HasBox(r, e.pid) && Pending(r, e.pid) == (if e.full then [e.msg] else [])
            && forall q :: q != e.pid ==> SameBox(i, r, q)
  {
    var r := i.(box := i.box[x := e]);
    forall q ensures FindBox(r, q) == if q == e.pid then x else FindBox(i, q) {
      BoxSet(i, x, e, q);
    }
    assert i.box[x].used ==> FindBox(i, i.box[x].pid) == x;
    forall y | 0 <= y < |r.box| && r.box[y].used ensures FindBox(r, r.box[y].pid) == y {
      if y != x {
        assert FindBox(i, i.box[y].pid) == y;
      }
    }
    forall q | q != e.pid ensures SameBox(i, r, q) {
      var y := FindBox(i, q);
      if y >= 0 {
        assert y != x;
      }
    }
  }

  /** A message is accepted exactly when its box is empty, or there is a box left to claim. */
  lemma Posted(i: Boxes, pid: int, msg: Message)
    requires i.Shape() && DistinctBoxes(i)
    ensures var (r, ok) := Post(i, pid, msg);
            && (ok <==> Pending(i, pid) == [] && (HasBox(i, pid) || FreeBox(i) >= 0))
            && (ok ==> Pending(r, pid) == [msg] && HasBox(r, pid) && forall q :: q != pid ==> SameBox(i, r, q))
            && (!ok ==> r == i) && r.waiter == i.waiter && DistinctBoxes(r)
  {
    var s := FindBox(i, pid);
    if s >= 0 {
      BoxDistinct(i, s, i.box[s].(msg := msg, full := true));
    } else if FreeBox(i) >= 0 {
      BoxDistinct(i, FreeBox(i), Mailbox(true, pid, true, msg));
    }
  }

  lemma Taken(i: Boxes, pid: int)
    requires i.Shape() && DistinctBoxes(i) && pid >= 0
    ensures var (r, got) := Take(i, pid);
            && got == Pending(i, pid) && Pending(r, pid) == [] && (HasBox(r, pid) <==> HasBox(i, pid))
            && (forall q :: q != pid ==> SameBox(i, r, q)) && r.waiter == i.waiter && DistinctBoxes(r)
            && (got == [] ==> r == i)
  {
    var s := FindBox(i, pid);
    if s >= 0 && i.box[s].full {
      BoxDistinct(i, s, i.box[s].(msg := NO_MESSAGE, full := false));
    }
  }

  /** Mailbox steps of other processes keep the invariant. */
  lemma BoxKeeps(k: Kernel, r: Kernel, pid: int)
    requires Inv(k) && CoreInv(r) && r.b == k.b && r.ring3 == k.ring3 && r.i.waiter == k.i.waiter && BoxesOk(r)
    requires StateOf(k.b.p, pid) != Blocked && forall q :: q != pid ==> SameBox(k.i, r.i, q)
    ensures Inv(r)
  {
    forall q ensures FindWaiter(r.i, q) == FindWaiter(k.i, q) {
      SameWaiters(k.i, r.i, q);
    }
    assert k.Shape() && r.Shape();
    hide Find, FindWaiter, CoreInv, Validate, StateOf, BoxesOk;
    forall q | StateOf(r.b.p, q) == Blocked ensures BlockedOk(r, q) {
      assert BlockedOk(k, q);
      assert SamePid(k.b, r.b, q);
      assert SameBox(k.i, r.i, q);
      BlockedKept(k, r, q);
    }
  }

  lemma PostKeeps(k: Kernel, pid: int, msg: Message)
    requires Inv(k) && StateOf(k.b.p, pid) !in {Blocked, Unused} && pid >= 0 && msg.Ok()
    ensures Inv(k.(i := Post(k.i, pid, msg).0))
  {
    var r := k.(i := Post(k.i, pid, msg).0);
    Posted(k.i, pid, msg);
    FoundIsLive(k.b, pid);
    assert pid < k.b.p.nextPid;
    assert BoxesOk(r);
    MemoryCore(k, r);
    hide Post, CoreInv, MessageInv, FindBox;
    BoxKeeps(k, r, pid);
  }

  lemma TakeKeeps(k: Kernel, m: Mem)
    requires Inv(k) && k.InUser() && m.Shape() && m.owner == k.m.owner && m.stacksBase == k.m.stacksBase
    ensures Inv(k.(i := Take(k.i, k.ring3).0, m := m))
  {
    var r := k.(i := Take(k.i, k.ring3).0, m := m);
    Taken(k.i, k.ring3);
    assert BoxesOk(r);
    MemoryCore(k, r);
    hide Take, CoreInv, MessageInv, FindBox;
    BoxKeeps(k, r, k.ring3);
  }

  // ---- blocking ------------------------------------------------------------

  /** The waiter table with the running process's receive entered. */
  lemma BlockIs(k: Kernel, ptr: U32)
    requires Inv(k) && k.InUser()
    ensures FindWaiter(k.i, k.ring3) < 0
    ensures var w := FreeWaiter(k.i);
            && w >= 0 && !k.i.waiter[w].active
            && BlockRecv(k.i, k.b.p, k.ring3, ptr) == (k.i.(waiter := k.i.waiter[w := Waiter(true, k.ring3, ptr)]), true)
  {
    WaiterAvailable(k);
  }

  lemma BlockedKeeps(k: Kernel, r: Kernel, ptr: U32, frame: Context)
    requires Inv(k) && k.InUser() && ResidentOk(k, k.ring3) && FindWaiter(k.i, k.ring3) < 0
    requires Validate(k.ImageOf(k.ring3), ptr, MSG_SIZE) && NoPending(k.i, k.ring3)
    requires var w := FreeWaiter(k.i);
             && w >= 0 && !k.i.waiter[w].active && CoreInv(r)
             && Stopped(k.(i := k.i.(waiter := k.i.waiter[w := Waiter(true, k.ring3, ptr)])), r, Blocked, frame)
    ensures Inv(r)
  {
    var w, pid := FreeWaiter(k.i), k.ring3;
    forall q ensures FindWaiter(r.i, q) == if q == pid then w else FindWaiter(k.i, q) {
      WaiterSet(k.i, w, pid, ptr, q);
    }
    SelfBlocked(k, r, ptr, frame);
    assert k.Shape() && r.Shape();
    hide Find, FindWaiter, FreeWaiter, FindBox, CoreInv, Validate, StateOf, NoPending, Blit, Window, OwnerSlot,
         BlockedOk, Stopped;
    NewWaitersOk(k, r, w);
    SameBoxesOk(k, r);
    forall q | StateOf(r.b.p, q) == Blocked ensures BlockedOk(r, q) {
      if q != pid {
        assert SamePid(k.b, r.b, q);
        StillBlocked(k, r, q, w);
      }
    }
  }

  /** The receiver itself is now deliverable. */
  lemma SelfBlocked(k: Kernel, r: Kernel, ptr: U32, frame: Context)
    requires Inv(k) && k.InUser() && ResidentOk(k, k.ring3) && FindWaiter(k.i, k.ring3) < 0
    requires Validate(k.ImageOf(k.ring3), ptr, MSG_SIZE) && NoPending(k.i, k.ring3)
    requires var w := FreeWaiter(k.i);
             && w >= 0 && !k.i.waiter[w].active && r.Shape()
             && Stopped(k.(i := k.i.(waiter := k.i.waiter[w := Waiter(true, k.ring3, ptr)])), r, Blocked, frame)
    ensures BlockedOk(r, k.ring3) && r.i == k.i.(waiter := k.i.waiter[FreeWaiter(k.i) := Waiter(true, k.ring3, ptr)])
    ensures r.ring3 == 0 && StateOf(r.b.p, k.ring3) == Blocked && r.b.p.nextPid == k.b.p.nextPid
    ensures forall q :: q != k.ring3 ==> SamePid(k.b, r.b, q)
  {
    WaiterSet(k.i, FreeWaiter(k.i), k.ring3, ptr, k.ring3);
    SameBoxes(k.i, r.i, k.ring3);
    hide Find, FindWaiter, FreeWaiter, FindBox, MessageInv, StateOf, Blit, Window, OwnerSlot;
  }

  lemma NewWaitersOk(k: Kernel, r: Kernel, w: int)
    requires Inv(k) && k.ring3 > 0 && r.Shape() && 0 <= w < BOXES && r.i.waiter[w].active && r.i.waiter[w].pid == k.ring3
    requires forall v :: 0 <= v < BOXES && v != w ==> r.i.waiter[v] == k.i.waiter[v]
    requires forall q :: FindWaiter(r.i, q) == if q == k.ring3 then w else FindWaiter(k.i, q)
    requires StateOf(r.b.p, k.ring3) == Blocked && forall q :: q != k.ring3 ==> SamePid(k.b, r.b, q)
    ensures WaitersOk(r)
  {
    assert k.Shape() && WaitersOk(k) && StateOf(k.b.p, k.ring3) != Blocked;
    hide Find, FindWaiter, CoreInv, StateOf, MessageInv;
    forall v | 0 <= v < BOXES && r.i.waiter[v].active
      ensures StateOf(r.b.p, r.i.waiter[v].pid) == Blocked && FindWaiter(r.i, r.i.waiter[v].pid) == v
    {
      if v != w {
        assert r.i.waiter[v] == k.i.waiter[v];
        assert SamePid(k.b, r.b, r.i.waiter[v].pid);
      }
    }
  }

  lemma StillBlocked(k: Kernel, r: Kernel, q: int, w: int)
    requires Inv(k) && r.Shape() && StateOf(r.b.p, q) == Blocked && SamePid(k.b, r.b, q) && r.ring3 == 0
    requires 0 <= w < BOXES && !k.i.waiter[w].active && r.i.box == k.i.box
    requires forall v :: 0 <= v < BOXES && v != w ==> r.i.waiter[v] == k.i.waiter[v]
    requires FindWaiter(r.i, q) == FindWaiter(k.i, q)
    ensures BlockedOk(r, q)
  {
    assert StateOf(k.b.p, q) == Blocked;
    var v := FindWaiter(k.i, q);
    assert k.i.waiter[v].active;
    SameBoxes(k.i, r.i, q);
    BlockedKept(k, r, q);
  }

  // ---- every step keeps the invariant --------------------------------------

  lemma SendKeeps(k: Kernel, dst: int, msg: Message)
    requires Inv(k) && k.InUser() && msg.Ok()
    ensures Inv(SendMessage(k, k.ring3, dst, msg).0)
  {
    if dst >= 0 && StateOf(k.b.p, dst) != Unused {
      var stamped := msg.(src := k.ring3, dst := dst);
      assert stamped.Ok();
      if StateOf(k.b.p, dst) == Blocked {
        DeliverWakes(k, dst, stamped);
        WokenKeeps(k, Deliver(k, dst, stamped).0, dst, stamped);
      } else {
        DeliverFails(k, dst, stamped);
        PostKeeps(k, dst, stamped);
      }
    }
  }

  lemma RecvKeeps(k: Kernel, ptr: U32, frame: Context)
    requires Inv(k) && k.InUser()
    ensures Inv(SysRecv(k, ptr, frame).0)
  {
    if BufferOk(k, ptr) {
      var (i1, got) := Take(k.i, k.ring3);
      assert ResidentOk(k, k.ring3);
      if got == [] {
        BlockIs(k, ptr);
        var i2 := BlockRecv(k.i, k.b.p, k.ring3, ptr).0;
        assert NoPending(k.i, k.ring3);
        var k2 := k.(i := i2);
        hide Take, BlockRecv, FindWaiter, FreeWaiter, MessageInv;
        MemoryCore(k, k2);
        StopCore(k2, Blocked, frame);
        BlockedKeeps(k, Stop(k2, Blocked, frame).0, ptr, frame);
      } else {
        var m := WriteLive(k.m, k.ImageOf(k.ring3), ptr, Encode(got[0]));
        TakeKeeps(k, m);
      }
    }
  }
}
