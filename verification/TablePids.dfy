// What each table operation does, per pid rather than per slot.

module TablePids {
  import opened Procs
  import opened Tasks
  import opened TableInv

  /** What a table change may do to a process it is not about. */
  ghost predicate SamePid(b: Both, b': Both, pid: int)
    requires b.Shape() && b'.Shape()
  {
    && Find(b'.p, pid) == Find(b.p, pid)
    && (Find(b.p, pid) >= 0 ==> b'.p.image[Find(b.p, pid)] == b.p.image[Find(b.p, pid)])
    && (StateOf(b'.p, pid) == StateOf(b.p, pid)
        || (StateOf(b.p, pid) in {Ready, Running} && StateOf(b'.p, pid) in {Ready, Running}))
  }

  lemma FrameByPid(b: Both, b': Both, i: int, pid: int)
    requires Paired(b) && Paired(b') && Frame(b, b', i)
    requires forall j :: 0 <= j < MAX_TASKS && j != i ==> (Live(b, j) <==> Live(b', j))
    requires Find(b.p, pid) != i || i < 0
    requires 0 <= i && Live(b', i) ==> b'.t.slot[i].pid != pid
    ensures SamePid(b, b', pid)
  {
    FoundIsLive(b, pid);
    FoundIsLive(b', pid);
    var s, s' := Find(b.p, pid), Find(b'.p, pid);
    if s >= 0 {
      assert SameSlot(b, b', s);
      SlotOf(b', s);
    } else if s' >= 0 {
      assert s' != i;
      assert SameSlot(b, b', s');
      SlotOf(b, s');
    }
  }

  lemma SetByPid(b: Both, pid: int, st: RunState)
    requires Loose(b) && Find(b.p, pid) >= 0 && st != Unused && (pid == 0 ==> st in {Ready, Running})
    ensures var r := SetBoth(b, pid, st);
            && Loose(r) && r.p.nextPid == b.p.nextPid && r.t.current == (if st == Running then FindTask(b.t, pid) else b.t.current)
            && Find(r.p, pid) == Find(b.p, pid) && StateOf(r.p, pid) == st
            && (forall q :: q != pid ==> SamePid(b, r, q))
            && (forall j :: 0 <= j < MAX_TASKS && j != Find(b.p, pid) && r.t.slot[j].state == Zombie ==> b.t.slot[j].state == Zombie)
  {
    FoundIsLive(b, pid);
    var i := Find(b.p, pid);
    if i == 0 {
      assert pid == 0;
    }
    SetBothKeeps(b, i, st);
    var r := SetBoth(b, pid, st);
    SlotOf(r, i);
    forall q | q != pid ensures SamePid(b, r, q) {
      hide SetBoth, Switched;
      FoundIsLive(b, q);
      assert forall j :: 0 <= j < MAX_TASKS ==> (Live(b, j) <==> j in LiveSet(b)) && (Live(r, j) <==> j in LiveSet(r));
      FrameByPid(b, r, i, q);
    }
  }

  lemma ReturnByPid(b: Both)
    requires Loose(b)
    ensures var r := ReturnToKernel(b);
            && Loose(r) && r.p.nextPid == b.p.nextPid && r.t.current == 0 && r.t.slot[0].state == Running
            && (forall q :: SamePid(b, r, q))
            && (forall j :: 0 <= j < MAX_TASKS && r.t.slot[j].state == Zombie ==> b.t.slot[j].state == Zombie)
  {
    ReturnKeeps(b);
    var r := ReturnToKernel(b);
    SlotOf(b, 0);
    SlotOf(r, 0);
    forall q ensures SamePid(b, r, q) {
      hide ReturnToKernel;
      if q != 0 {
        FoundIsLive(b, q);
        assert forall j :: 0 <= j < MAX_TASKS ==> (Live(b, j) <==> j in LiveSet(b)) && (Live(r, j) <==> j in LiveSet(r));
        FrameByPid(b, r, 0, q);
      }
    }
  }

  /** Binding an image changes no pid and no state. */
  lemma BindByPid(b: Both, pid: int, im: Image)
    requires Loose(b) && Find(b.p, pid) >= 0
    ensures var r := Both(b.t, Bind(b.p, pid, im));
            && Loose(r) && r.p.nextPid == b.p.nextPid && r.p.slot == b.p.slot && (Settled(b) ==> Settled(r))
            && (forall q :: Find(r.p, q) == Find(b.p, q) && StateOf(r.p, q) == StateOf(b.p, q))
            && r.p.image == b.p.image[Find(b.p, pid) := im]
  {
    var r := Both(b.t, Bind(b.p, pid, im));
    assert LiveSet(r) == LiveSet(b);
    forall q ensures Find(r.p, q) == Find(b.p, q) {
      FoundIsLive(b, q);
      FoundIsLive(r, q);
    }
  }

  lemma DiscardByPid(b: Both, pid: int, code: int)
    requires Loose(b) && Find(b.p, pid) >= 0 && pid > 0
    requires forall j :: 0 <= j < MAX_TASKS && j != Find(b.p, pid) ==> b.t.slot[j].state != Zombie
    requires b.t.current == Find(b.p, pid) || b.t.slot[b.t.current].state == Running
    ensures var r := Discard(b, pid, code);
            && Settled(r) && r.p.nextPid == b.p.nextPid && Find(r.p, pid) < 0
            && r.p.image[Find(b.p, pid)] == NO_IMAGE
            && forall q :: q != pid ==> SamePid(b, r, q)
  {
    FoundIsLive(b, pid);
    var i := Find(b.p, pid);
    DiscardKeeps(b, i, code);
    var r := Discard(b, pid, code);
    hide Discard;
    assert forall j :: 0 <= j < MAX_TASKS ==> (Live(b, j) <==> j in LiveSet(b)) && (Live(r, j) <==> j in LiveSet(r));
    forall j | Live(r, j) ensures r.t.slot[j].pid != pid {
      assert Live(b, j) && SameSlot(b, r, j);
    }
    FoundIsLive(r, pid);
    forall q | q != pid ensures SamePid(b, r, q) {
      FoundIsLive(b, q);
      FrameByPid(b, r, i, q);
    }
  }

  lemma TickByPid(b: Both)
    requires Settled(b)
    ensures var r := Tick(b);
            Settled(r) && r.p.nextPid == b.p.nextPid && r.p.image == b.p.image && forall q :: SamePid(b, r, q)
  {
    TickKeeps(b);
    var r := Tick(b);
    hide Tick;
    assert forall j :: 0 <= j < MAX_TASKS ==> (Live(b, j) <==> j in LiveSet(b)) && (Live(r, j) <==> j in LiveSet(r));
    forall q ensures SamePid(b, r, q) {
      FrameByPid(b, r, -1, q);
    }
  }

  lemma SpawnByPid(b: Both, ppid: int)
    requires Settled(b)
    ensures var (r, pid) := Tasks.Spawn(b, ppid);
            && (pid < 0 ==> r == b)
            && (pid >= 0 ==>
                 && Settled(r) && pid == b.p.nextPid && r.p.nextPid == pid + 1 && Find(b.p, pid) < 0
                 && Find(r.p, pid) >= 0 && StateOf(r.p, pid) == Ready && r.p.image[Find(r.p, pid)] == NO_IMAGE
                 && forall q :: q != pid ==> SamePid(b, r, q))
  {
    SpawnKeeps(b, ppid);
    var (r, pid) := Tasks.Spawn(b, ppid);
    var i := AllocTask(b.t);
    if i >= 0 {
      FilledKeeps(b, i, ppid);
      assert r == Filled(b, i, ppid) && pid == b.p.nextPid;
      hide Tasks.Spawn, Filled;
      FoundIsLive(b, pid);
      SlotOf(r, i);
      assert forall j :: 0 <= j < MAX_TASKS ==> (Live(b, j) <==> j in LiveSet(b)) && (Live(r, j) <==> j in LiveSet(r));
      forall q | q != pid ensures SamePid(b, r, q) {
        FoundIsLive(b, q);
        FrameByPid(b, r, i, q);
      }
    }
  }

  lemma SamePidTrans(b: Both, c: Both, d: Both, pid: int)
    requires b.Shape() && c.Shape() && d.Shape() && SamePid(b, c, pid) && SamePid(c, d, pid)
    ensures SamePid(b, d, pid)
  {
    hide Find;
  }

  /** A process stops: its image bound, its state set, kmain running again. */
  lemma StopByPid(b: Both, pid: int, im: Image, st: RunState)
    requires Settled(b) && Find(b.p, pid) >= 0 && pid > 0 && st in {Ready, Blocked}
    ensures var r := ReturnToKernel(SetBoth(Both(b.t, Bind(b.p, pid, im)), pid, st));
            && Settled(r) && r.p.nextPid == b.p.nextPid && r.p.image == b.p.image[Find(b.p, pid) := im]
            && Find(r.p, pid) == Find(b.p, pid) && StateOf(r.p, pid) == st
            && forall q :: q != pid ==> SamePid(b, r, q)
  {
    BindByPid(b, pid, im);
    var b1 := Both(b.t, Bind(b.p, pid, im));
    forall q | q != pid ensures SamePid(b, b1, q) {
      BoundElsewhere(b, pid, q, im);
    }
    SetAndReturn(b1, pid, st);
    var r := ReturnToKernel(SetBoth(b1, pid, st));
    hide Bind, Settled, Loose, Find, SamePid, SetBoth, ReturnToKernel;
    forall q | q != pid ensures SamePid(b, r, q) {
      SamePidTrans(b, b1, r, q);
    }
  }

  lemma BoundElsewhere(b: Both, pid: int, q: int, im: Image)
    requires Loose(b) && q != pid && Find(b.p, pid) >= 0
    ensures SamePid(b, Both(b.t, Bind(b.p, pid, im)), q)
  {
    BindByPid(b, pid, im);
    FoundIsLive(b, pid);
    FoundIsLive(b, q);
  }

  lemma SetAndReturn(b: Both, pid: int, st: RunState)
    requires Settled(b) && Find(b.p, pid) >= 0 && pid > 0 && st in {Ready, Blocked}
    ensures var r := ReturnToKernel(SetBoth(b, pid, st));
            && Settled(r) && r.p.nextPid == b.p.nextPid
            && Find(r.p, pid) == Find(b.p, pid) && StateOf(r.p, pid) == st
            && forall q :: q != pid ==> SamePid(b, r, q)
  {
    SetByPid(b, pid, st);
    var b2 := SetBoth(b, pid, st);
    ZombieFree(b, b2, pid, st);
    hide SetBoth;
    ReturnByPid(b2);
    var r := ReturnToKernel(b2);
    StoppedState(b2, r, pid, st);
    hide ReturnToKernel, Loose, Find, SamePid;
    forall q | q != pid ensures SamePid(b, r, q) {
      SamePidTrans(b, b2, r, q);
    }
  }

  lemma StoppedState(b: Both, r: Both, pid: int, st: RunState)
    requires Loose(b) && Loose(r) && SamePid(b, r, pid) && StateOf(b.p, pid) == st && st in {Ready, Blocked}
    requires r.t.current == 0 && r.t.slot[0].state == Running && pid > 0
    ensures StateOf(r.p, pid) == st
  {
    FoundIsLive(r, pid);
  }

  lemma ZombieFree(b: Both, r: Both, pid: int, st: RunState)
    requires Settled(b) && Loose(r) && Find(b.p, pid) >= 0 && st != Zombie
    requires Find(r.p, pid) == Find(b.p, pid) && StateOf(r.p, pid) == st
    requires forall j :: 0 <= j < MAX_TASKS && j != Find(b.p, pid) && r.t.slot[j].state == Zombie ==> b.t.slot[j].state == Zombie
    ensures forall j :: 0 <= j < MAX_TASKS ==> r.t.slot[j].state != Zombie
  {
    FoundIsLive(r, pid);
  }

  lemma SetRunning(b: Both, pid: int)
    requires Settled(b) && Find(b.p, pid) >= 0 && StateOf(b.p, pid) in {Ready, Running}
    ensures var r := SetBoth(b, pid, Running);
            && Settled(r) && r.p.nextPid == b.p.nextPid && r.p.image == b.p.image && StateOf(r.p, pid) == Running
            && forall q :: SamePid(b, r, q)
  {
    SetByPid(b, pid, Running);
    var r := SetBoth(b, pid, Running);
    ZombieFree(b, r, pid, Running);
    FoundIsLive(b, pid);
    FoundIsLive(r, pid);
    hide SetBoth;
    assert SamePid(b, r, pid);
  }

  /** The exit stop and the shared clean-up together: the process is gone and nothing else changed. */
  lemma ExitByPid(b: Both, pid: int, code: int)
    requires Settled(b) && Find(b.p, pid) >= 0 && pid > 0
    ensures var r := Discard(ReturnToKernel(SetBoth(b, pid, Zombie)), pid, code);
            && Settled(r) && r.p.nextPid == b.p.nextPid && Find(r.p, pid) < 0 && forall q :: q != pid ==> SamePid(b, r, q)
  {
    SetByPid(b, pid, Zombie);
    var b1 := SetBoth(b, pid, Zombie);
    hide SetBoth;
    ReturnByPid(b1);
    var b2 := ReturnToKernel(b1);
    hide ReturnToKernel;
    assert SamePid(b1, b2, pid);
    FoundIsLive(b2, pid);
    DiscardByPid(b2, pid, code);
    var r := Discard(b2, pid, code);
    hide Discard, Settled, Loose, SamePid, Find;
    forall q | q != pid ensures SamePid(b, r, q) {
      SamePidTrans(b, b1, b2, q);
      SamePidTrans(b, b2, r, q);
    }
  }

  /** A blocked process becomes READY with a new image; nobody else notices. */
  lemma WakeByPid(b: Both, pid: int, im: Image)
    requires Settled(b) && StateOf(b.p, pid) == Blocked
    ensures Find(b.p, pid) >= 0
    ensures var r := SetBoth(Both(b.t, Bind(b.p, pid, im)), pid, Ready);
            && Settled(r) && r.p.nextPid == b.p.nextPid && r.p.image == b.p.image[Find(b.p, pid) := im]
            && Find(r.p, pid) == Find(b.p, pid) && StateOf(r.p, pid) == Ready
            && forall q :: q != pid ==> SamePid(b, r, q)
  {
    FoundIsLive(b, pid);
    BindByPid(b, pid, im);
    var b1 := Both(b.t, Bind(b.p, pid, im));
    forall q | q != pid ensures SamePid(b, b1, q) {
      BoundElsewhere(b, pid, q, im);
    }
    WokenSettled(b1, pid);
    var r := SetBoth(b1, pid, Ready);
    hide Bind, Settled, Loose, Find, SamePid, SetBoth;
    forall q | q != pid ensures SamePid(b, r, q) {
      SamePidTrans(b, b1, r, q);
    }
  }

  lemma WokenSettled(b: Both, pid: int)
    requires Settled(b) && StateOf(b.p, pid) == Blocked
    ensures var r := SetBoth(b, pid, Ready);
            && Settled(r) && r.p.nextPid == b.p.nextPid && Find(r.p, pid) == Find(b.p, pid) && StateOf(r.p, pid) == Ready
            && forall q :: q != pid ==> SamePid(b, r, q)
  {
    FoundIsLive(b, pid);
    SetByPid(b, pid, Ready);
    var r := SetBoth(b, pid, Ready);
    ZombieFree(b, r, pid, Ready);
    hide SetBoth;
    var c := b.t.slot[b.t.current].pid;
    SlotOf(b, b.t.current);
    assert SamePid(b, r, c);
    CurrentStays(b, r, pid);
  }

  lemma CurrentStays(b: Both, r: Both, pid: int)
    requires Settled(b) && StateOf(b.p, pid) == Blocked
    requires r == SetBoth(b, pid, Ready)
    ensures r.t.current == b.t.current && r.t.slot[r.t.current] == b.t.slot[b.t.current]
  {
    FoundIsLive(b, pid);
  }
}
