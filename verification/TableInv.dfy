// What the task table and the process table keep in step (kernel/task.c with kernel/proc.c).

module TableInv {
  import opened Bytes
  import opened Procs
  import opened Tasks

  predicate Live(b: Both, i: int)
    requires b.Shape()
  {
    0 <= i < MAX_TASKS && b.t.slot[i].state != Unused
  }

  function LiveSet(b: Both): set<int>
    requires b.Shape()
  {
    set i | 0 <= i < MAX_TASKS && Live(b, i)
  }

  /** The two tables describe the same processes, slot by slot. */
  ghost predicate Agree(b: Both)
    requires b.Shape()
  {
    forall i :: 0 <= i < MAX_TASKS ==>
      && b.t.slot[i].state == b.p.slot[i].state
      && (Live(b, i) ==> b.t.slot[i].pid == b.p.slot[i].pid)
  }

  ghost predicate UniquePids(b: Both)
    requires b.Shape()
  {
    forall i, j :: Live(b, i) && Live(b, j) && b.t.slot[i].pid == b.t.slot[j].pid ==> i == j
  }

  /** Slot 0 is kmain; every other live pid was issued and is below the next one. */
  ghost predicate Pids(b: Both)
    requires b.Shape()
  {
    && b.t.slot[0].pid == 0 && b.t.slot[0].state in {Ready, Running} && b.p.nextPid > 0
    && forall i :: Live(b, i) && i != 0 ==> 0 < b.t.slot[i].pid < b.p.nextPid
  }

  ghost predicate Counted(b: Both)
    requires b.Shape()
  {
    b.t.used == b.p.used == |LiveSet(b)|
  }

  /** What holds between any two calls that change both tables. */
  ghost predicate Loose(b: Both) {
    var all :=
      && b.Shape() && Agree(b) && UniquePids(b) && Pids(b) && Counted(b)
      && b.t.current >= 0
      && forall i :: 0 <= i < MAX_TASKS && b.t.slot[i].state == Running ==> i == b.t.current;
    all
  }

  /** What holds at every step boundary: one running task, the current one, and no zombie. */
  ghost predicate Settled(b: Both) {
    var all :=
      && Loose(b)
      && b.t.slot[b.t.current].state == Running
      && forall i :: 0 <= i < MAX_TASKS ==> b.t.slot[i].state != Zombie;
    all
  }

  /** Slots other than `i` keep their pid, their image and everything about their state but READY/RUNNING. */
  ghost predicate Frame(b: Both, b': Both, i: int)
    requires b.Shape() && b'.Shape()
  {
    forall j :: 0 <= j < MAX_TASKS && j != i ==> SameSlot(b, b', j)
  }

  ghost predicate SameSlot(b: Both, b': Both, j: int)
    requires b.Shape() && b'.Shape() && 0 <= j < MAX_TASKS
  {
    && b'.p.image[j] == b.p.image[j]
    && b'.t.slot[j].pid == b.t.slot[j].pid && b'.p.slot[j].pid == b.p.slot[j].pid
    && (b'.t.slot[j].state == b.t.slot[j].state
        || (b.t.slot[j].state in {Ready, Running} && b'.t.slot[j].state in {Ready, Running}))
  }

  lemma SlotOf(b: Both, i: int)
    requires b.Shape() && Agree(b) && UniquePids(b) && Live(b, i)
    ensures FindTask(b.t, b.t.slot[i].pid) == i && Find(b.p, b.t.slot[i].pid) == i
  {
    var pid := b.t.slot[i].pid;
    assert Live(b, FindTask(b.t, pid));
    assert Live(b, Find(b.p, pid));
  }

  lemma FoundIsLive(b: Both, pid: int)
    requires b.Shape() && Agree(b)
    ensures Find(b.p, pid) == FindTask(b.t, pid)
    ensures Find(b.p, pid) >= 0 ==> Live(b, Find(b.p, pid)) && b.t.slot[Find(b.p, pid)].pid == pid
    ensures StateOf(b.p, pid) == if Find(b.p, pid) < 0 then Unused else b.t.slot[Find(b.p, pid)].state
  {
    var i, j := Find(b.p, pid), FindTask(b.t, pid);
    if i >= 0 {
      assert Live(b, i);
    }
    if j >= 0 {
      assert Live(b, j);
    }
  }

  // ---- single state changes ------------------------------------------------

  /** Both tables with slot `i` in state `st`. */
  function At(b: Both, i: int, st: RunState): (r: Both)
    requires b.Shape() && 0 <= i < MAX_TASKS
    ensures r.Shape()
  {
    Both(WithState(b.t, i, st), b.p.(slot := b.p.slot[i := b.p.slot[i].(state := st)]))
  }

  lemma AtKeeps(b: Both, i: int, st: RunState)
    requires b.Shape() && Agree(b) && UniquePids(b) && Pids(b) && Counted(b) && Live(b, i)
    requires st != Unused && (i == 0 ==> st in {Ready, Running})
    ensures var r := At(b, i, st); Agree(r) && UniquePids(r) && Pids(r) && Counted(r) && LiveSet(r) == LiveSet(b)
  {
    var r := At(b, i, st);
    forall j ensures Live(r, j) <==> Live(b, j) {}
    assert LiveSet(r) == LiveSet(b);
  }

  /** Everything of `Loose` but the running task. */
  ghost predicate Paired(b: Both) {
    b.Shape() && Agree(b) && UniquePids(b) && Pids(b) && Counted(b) && b.t.current >= 0
  }

  /** The current task, if it is running and is not slot `i`, back to READY in both tables. */
  function Preempted(b: Both, i: int): (r: Both)
    requires b.Shape() && b.t.current >= 0
    ensures r.Shape()
  {
    if b.t.current != i && b.t.slot[b.t.current].state == Running then At(b, b.t.current, Ready) else b
  }

  lemma PreemptIs(b: Both, i: int)
    requires Loose(b)
    ensures Preempt(b, i) == Preempted(b, i)
    ensures var r := Preempted(b, i);
            && Paired(r) && LiveSet(r) == LiveSet(b) && r.t.current == b.t.current
            && forall j :: 0 <= j < MAX_TASKS && r.t.slot[j].state == Running ==> j == i
  {
    var c := b.t.current;
    if c != i && b.t.slot[c].state == Running {
      SlotOf(b, c);
      AtKeeps(b, c, Ready);
    }
  }

  lemma StateIs(b: Both, i: int, st: RunState)
    requires Paired(b) && Live(b, i)
    ensures SetState(b.p, b.t.slot[i].pid, st) == At(b, i, st).p
  {
    SlotOf(b, i);
  }

  /** The table after slot `i` becomes the running task. */
  function Switched(b: Both, i: int): (r: Both)
    requires b.Shape() && b.t.current >= 0 && 0 <= i < MAX_TASKS
    ensures r.Shape()
  {
    var b1 := At(Preempted(b, i), i, Running);
    b1.(t := b1.t.(current := i, slice := 0))
  }

  lemma SetTaskRunningIs(b: Both, i: int)
    requires Loose(b) && Live(b, i)
    ensures SetTask(b, b.t.slot[i].pid, Running) == Switched(b, i)
    ensures Paired(Switched(b, i)) && LiveSet(Switched(b, i)) == LiveSet(b)
  {
    var pid := b.t.slot[i].pid;
    SlotOf(b, i);
    PreemptIs(b, i);
    var b1 := Preempted(b, i);
    assert Live(b1, i) && b1.t.slot[i].pid == pid;
    StateIs(b1, i, Running);
    AtKeeps(b1, i, Running);
    var r := Switched(b, i);
    assert LiveSet(r) == LiveSet(At(b1, i, Running));
  }

  /** `task_set_state` followed by `proc_set_state`, in slots. */
  lemma SetBothIs(b: Both, i: int, st: RunState)
    requires Loose(b) && Live(b, i) && st != Unused && (i == 0 ==> st in {Ready, Running})
    ensures SetBoth(b, b.t.slot[i].pid, st) == if st == Running then Switched(b, i) else At(b, i, st)
  {
    var pid := b.t.slot[i].pid;
    SlotOf(b, i);
    if st == Running {
      SetTaskRunningIs(b, i);
      var r := Switched(b, i);
      StateIs(r, i, Running);
      assert r.p.slot[i := r.p.slot[i].(state := Running)] == r.p.slot;
    } else {
      StateIs(b, i, st);
    }
  }

  lemma SwitchedKeeps(b: Both, i: int)
    requires Loose(b) && Live(b, i)
    ensures var r := Switched(b, i);
            && Loose(r) && LiveSet(r) == LiveSet(b) && Frame(b, r, i) && r.p.nextPid == b.p.nextPid
            && r.p.image == b.p.image && r.t.slot[i].pid == b.t.slot[i].pid
            && r.t.slot[i].state == Running && r.t.current == i
            && forall j :: 0 <= j < MAX_TASKS && j != i && r.t.slot[j].state == Zombie ==> b.t.slot[j].state == Zombie
  {
    PreemptIs(b, i);
    SetTaskRunningIs(b, i);
  }

  lemma SetBothKeeps(b: Both, i: int, st: RunState)
    requires Loose(b) && Live(b, i) && st != Unused && (i == 0 ==> st in {Ready, Running})
    ensures var r := SetBoth(b, b.t.slot[i].pid, st);
            && Loose(r) && Frame(b, r, i) && LiveSet(r) == LiveSet(b) && r.p.nextPid == b.p.nextPid
            && r.p.image == b.p.image && r.t.slot[i].pid == b.t.slot[i].pid && r.t.slot[i].state == st
            && r.t.current == (if st == Running then i else b.t.current)
            && forall j :: 0 <= j < MAX_TASKS && j != i && r.t.slot[j].state == Zombie ==> b.t.slot[j].state == Zombie
  {
    SetBothIs(b, i, st);
    if st == Running {
      SwitchedKeeps(b, i);
    } else {
      AtKeeps(b, i, st);
    }
  }

  lemma ReturnIs(b: Both)
    requires Loose(b)
    ensures ReturnToKernel(b) == Switched(b, 0)
  {
    SlotOf(b, 0);
    PreemptIs(b, 0);
    var b1 := Preempted(b, 0);
    AtKeeps(b1, 0, Running);
    StateIs(b1, 0, Running);
  }

  lemma ReturnKeeps(b: Both)
    requires Loose(b)
    ensures var r := ReturnToKernel(b);
            && Loose(r) && LiveSet(r) == LiveSet(b) && r.p.nextPid == b.p.nextPid && r.p.image == b.p.image
            && Frame(b, r, 0) && r.t.slot[0].pid == b.t.slot[0].pid
            && r.t.current == 0 && r.t.slot[0].state == Running
            && forall j :: 0 <= j < MAX_TASKS && r.t.slot[j].state == Zombie ==> b.t.slot[j].state == Zombie
  {
    ReturnIs(b);
    SwitchedKeeps(b, 0);
  }

  // ---- a process leaves ----------------------------------------------------

  /** Slot `i` emptied in both tables. */
  function Cleared(b: Both, i: int): (r: Both)
    requires b.Shape() && 0 <= i < MAX_TASKS
    ensures r.Shape()
  {
    Both(b.t.(slot := b.t.slot[i := NO_TASK], used := Dec(b.t.used)),
         Table(b.p.slot[i := NO_PROC], b.p.image[i := NO_IMAGE], Dec(b.p.used), b.p.nextPid))
  }

  lemma ClearedKeeps(b: Both, i: int)
    requires Loose(b) && Live(b, i) && i != 0
    ensures Loose(Cleared(b, i)) && LiveSet(Cleared(b, i)) == LiveSet(b) - {i}
  {
    var r := Cleared(b, i);
    forall j ensures Live(r, j) <==> Live(b, j) && j != i {}
    assert LiveSet(r) == LiveSet(b) - {i};
    assert i in LiveSet(b);
  }

  lemma DiscardIs(b: Both, i: int, code: int)
    requires Loose(b) && Live(b, i) && i != 0
    ensures var r := Cleared(b, i);
            Discard(b, b.t.slot[i].pid, code) == if b.t.current == i then ReturnToKernel(r) else r
  {
    var pid := b.t.slot[i].pid;
    SlotOf(b, i);
    var p1 := Procs.Exit(b.p, pid, code);
    assert Find(p1, pid) == i by {
      assert p1.slot[i].pid == pid && p1.slot[i].state != Unused;
      forall j | 0 <= j < i ensures !(p1.slot[j].state != Unused && p1.slot[j].pid == pid) {
        assert p1.slot[j] == b.p.slot[j];
      }
    }
    assert Procs.Reap(p1, pid) == Cleared(b, i).p;
    assert FindTask(Both(b.t, Procs.Reap(p1, pid)).t, pid) == i;
  }

  lemma DiscardKeeps(b: Both, i: int, code: int)
    requires Loose(b) && Live(b, i) && i != 0
    requires forall j :: 0 <= j < MAX_TASKS && j != i ==> b.t.slot[j].state != Zombie
    requires b.t.current == i || b.t.slot[b.t.current].state == Running
    ensures var r := Discard(b, b.t.slot[i].pid, code);
            && Settled(r) && LiveSet(r) == LiveSet(b) - {i} && r.p.nextPid == b.p.nextPid
            && Frame(b, r, i) && r.p.image[i] == NO_IMAGE
  {
    DiscardIs(b, i, code);
    ClearedKeeps(b, i);
    if b.t.current == i {
      ClearedCurrent(b, i);
    }
  }

  /** When the discarded task is the current one, kmain takes over. */
  lemma ClearedCurrent(b: Both, i: int)
    requires Loose(b) && Live(b, i) && i != 0 && b.t.current == i
    requires forall j :: 0 <= j < MAX_TASKS && j != i ==> b.t.slot[j].state != Zombie
    ensures var r := ReturnToKernel(Cleared(b, i));
            && Settled(r) && LiveSet(r) == LiveSet(b) - {i} && r.p.nextPid == b.p.nextPid
            && Frame(b, r, i) && r.p.image[i] == NO_IMAGE
  {
    ClearedKeeps(b, i);
    var r := Cleared(b, i);
    ReturnKeeps(r);
    var r' := ReturnToKernel(r);
    hide ReturnToKernel, Agree, UniquePids, Counted, LiveSet;
    forall j | 0 <= j < MAX_TASKS && j != i ensures SameSlot(b, r', j) {
      assert SameSlot(b, r, j);
      if j == 0 {
        assert r.t.slot[0] == b.t.slot[0];
      } else {
        assert SameSlot(r, r', j);
      }
    }
  }

  // ---- a process arrives ---------------------------------------------------

  /** A process with pid `nextPid` in free slot `i` of both tables. */
  function Filled(b: Both, i: int, ppid: int): (r: Both)
    requires b.Shape() && 0 <= i < MAX_TASKS
    ensures r.Shape()
  {
    Both(b.t.(slot := b.t.slot[i := Task(b.p.nextPid, ppid, Ready, 0)], used := b.t.used + 1),
         Table(b.p.slot[i := Proc(b.p.nextPid, ppid, Ready, 0)], b.p.image[i := NO_IMAGE], b.p.used + 1, b.p.nextPid + 1))
  }

  lemma FilledPairs(b: Both, i: int, ppid: int)
    requires Settled(b) && 0 <= i < MAX_TASKS && !Live(b, i)
    ensures var r := Filled(b, i, ppid); Agree(r) && UniquePids(r) && Pids(r)
  {
    var r := Filled(b, i, ppid);
    forall j ensures Live(r, j) <==> Live(b, j) || j == i {}
  }

  lemma FilledKeeps(b: Both, i: int, ppid: int)
    requires Settled(b) && 0 <= i < MAX_TASKS && !Live(b, i)
    ensures var r := Filled(b, i, ppid);
            && Settled(r) && LiveSet(r) == LiveSet(b) + {i} && Frame(b, r, i) && r.p.nextPid == b.p.nextPid + 1
            && r.t.slot[i].pid == b.p.nextPid && r.t.slot[i].state == Ready && r.p.image[i] == NO_IMAGE
  {
    var r := Filled(b, i, ppid);
    forall j ensures Live(r, j) <==> Live(b, j) || j == i {}
    assert LiveSet(r) == LiveSet(b) + {i} && i !in LiveSet(b);
    FilledPairs(b, i, ppid);
    hide Agree, UniquePids, Pids, Live, LiveSet;
  }

  /** A spawn takes the same free slot of both tables, or changes nothing. */
  lemma SpawnKeeps(b: Both, ppid: int)
    requires Settled(b)
    ensures var i := AllocTask(b.t);
            && (i < 0 ==> Tasks.Spawn(b, ppid) == (b, -1) && forall j :: 0 <= j < MAX_TASKS ==> Live(b, j))
            && (i >= 0 ==> !Live(b, i) && Tasks.Spawn(b, ppid) == (Filled(b, i, ppid), b.p.nextPid))
  {
    var i, j := AllocTask(b.t), Alloc(b.p);
    assert i == j;
  }

  // ---- the tick ------------------------------------------------------------

  /** The tick, whatever it decides, keeps the tables settled and only moves READY and RUNNING. */
  lemma TickKeeps(b: Both)
    requires Settled(b)
    ensures var r := Tick(b);
            && Settled(r) && LiveSet(r) == LiveSet(b) && Frame(b, r, -1) && r.p.nextPid == b.p.nextPid
            && r.p.image == b.p.image
  {
    var b0 := b.(t := Charge(b.t));
    ChargedKeeps(b);
    if b0.t.used > 1 && b0.t.slice >= TIMESLICE && NextSlot(b0.t) >= 0 {
      hide NextSlot;
      var next := NextSlot(b0.t);
      TickSwitches(b);
      hide Tick, Switched, Settled, Charge;
      SwitchedKeeps(b0, next);
      SettledAfter(b0, next, b0.t.switches + 1);
      var r := Switched(b0, next);
      forall j | 0 <= j < MAX_TASKS ensures SameSlot(b, Tick(b), j) {
        assert SameSlot(b, b0, j);
        if j != next {
          assert SameSlot(b0, r, j);
        }
      }
    }
  }

  lemma TickSwitches(b: Both)
    requires Settled(b)
    requires var t := Charge(b.t); t.used > 1 && t.slice >= TIMESLICE && NextSlot(t) >= 0
    ensures var b0 := b.(t := Charge(b.t));
            && Settled(b0) && Live(b0, NextSlot(b0.t)) && b0.t.slot[NextSlot(b0.t)].state == Ready
            && var r := Switched(b0, NextSlot(b0.t)); Tick(b) == r.(t := r.t.(switches := b0.t.switches + 1))
  {
    hide NextSlot;
    var b0 := b.(t := Charge(b.t));
    ChargedKeeps(b);
    SwitchIs(b0, NextSlot(b0.t));
    hide Charge, Switched, WithState, SetState, Settled, NextReady;
    assert Tick(b).t == Switched(b0, NextSlot(b0.t)).t.(switches := b0.t.switches + 1);
    assert Tick(b).p == Switched(b0, NextSlot(b0.t)).p;
  }

  /** The tick's two state changes are the usual hand-over from the current task. */
  lemma SwitchIs(b: Both, next: int)
    requires Settled(b) && Live(b, next) && b.t.slot[next].state == Ready
    ensures var c := b.t.current;
            && WithState(WithState(b.t, c, Ready), next, Running).(current := next, slice := 0) == Switched(b, next).t
            && SetState(SetState(b.p, b.t.slot[c].pid, Ready), b.t.slot[next].pid, Running) == Switched(b, next).p
  {
    StateIs(b, b.t.current, Ready);
    PreemptIs(b, next);
    StateIs(Preempted(b, next), next, Running);
  }

  lemma SettledAfter(b: Both, i: int, n: nat)
    requires Settled(b) && Live(b, i)
    ensures var r := Switched(b, i);
            var r' := r.(t := r.t.(switches := n)); Settled(r') && LiveSet(r') == LiveSet(b)
  {
    SwitchedKeeps(b, i);
    var r := Switched(b, i);
    var r' := r.(t := r.t.(switches := n));
    assert LiveSet(r') == LiveSet(r);
  }

  lemma ChargedKeeps(b: Both)
    requires Settled(b)
    ensures var r := b.(t := Charge(b.t)); Settled(r) && LiveSet(r) == LiveSet(b) && Frame(b, r, -1)
  {
    var r := b.(t := Charge(b.t));
    forall j ensures Live(r, j) <==> Live(b, j) {}
    assert LiveSet(r) == LiveSet(b);
  }

  // ---- boot ----------------------------------------------------------------

  /** The tables after kmain has started tasking and spawned the two shells (kernel/kmain.c:16-24). */
  function Boot(): (b: Both)
    ensures b.Shape()
  {
    Tasks.Spawn(Tasks.Spawn(Both(InitTasks(), Procs.Init()), 0).0, 0).0
  }

  lemma InitSettled()
    ensures var b := Both(InitTasks(), Procs.Init()); Settled(b) && LiveSet(b) == {0} && b.p.nextPid == 1
    ensures var b := Both(InitTasks(), Procs.Init());
            forall i :: 0 <= i < MAX_TASKS ==> !b.p.image[i].loaded && b.t.slot[i].state != Blocked
  {
    var b := Both(InitTasks(), Procs.Init());
    assert LiveSet(b) == {0};
  }

  lemma SpawnFills(b: Both, n: nat)
    requires Settled(b) && n < MAX_TASKS && (forall i :: 0 <= i < n ==> Live(b, i)) && !Live(b, n)
    ensures Tasks.Spawn(b, 0).0 == Filled(b, n, 0)
  {
    SpawnKeeps(b, 0);
    assert AllocTask(b.t) == n;
  }

  lemma BootSettled()
    ensures Settled(Boot())
    ensures LiveSet(Boot()) == {0, 1, 2} && Boot().p.nextPid == 3
    ensures forall i :: 0 <= i < MAX_TASKS ==> !Boot().p.image[i].loaded && Boot().t.slot[i].state != Blocked
  {
    hide InitTasks, Procs.Init, Tasks.Spawn, Filled, Settled;
    InitSettled();
    var b0 := Both(InitTasks(), Procs.Init());
    assert forall i :: 0 <= i < MAX_TASKS ==> (Live(b0, i) <==> i in LiveSet(b0));
    SpawnFills(b0, 1);
    FilledKeeps(b0, 1, 0);
    var b1 := Filled(b0, 1, 0);
    assert forall i :: 0 <= i < MAX_TASKS ==> (Live(b1, i) <==> i in LiveSet(b1));
    SpawnFills(b1, 2);
    FilledKeeps(b1, 2, 0);
    assert {0} + {1} + {2} == {0, 1, 2};
    var b2 := Filled(b1, 2, 0);
    forall i | 0 <= i < MAX_TASKS ensures !b2.p.image[i].loaded && b2.t.slot[i].state != Blocked {
      assert i != 1 ==> SameSlot(b0, b1, i);
      assert i != 2 ==> SameSlot(b1, b2, i);
    }
  }
}
