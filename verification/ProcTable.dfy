// The process table as the kernel keeps it: static arrays scanned and updated in place (kernel/proc.c).

module ProcTable {
  import opened Bytes
  import opened Procs

  class Processes {
    const slot: array<Proc>
    const image: array<Image>
    var used: nat
    var nextPid: int

    ghost const Repr: set<object>

    ghost predicate Valid()
      reads this
    {
      slot.Length == MAX_PROCS && image.Length == MAX_PROCS && Repr == {this, slot, image}
    }

    function State(): (p: Table)
      requires Valid()
      reads this, slot, image
      ensures p.Shape()
    {
      Table(slot[..], image[..], used, nextPid)
    }

    constructor ()
      ensures Valid() && fresh(Repr) && State() == Init()
    {
      slot := new Proc[MAX_PROCS](i => if i == 0 then Proc(0, -1, Running, 0) else NO_PROC);
      image := new Image[MAX_PROCS](i => NO_IMAGE);
      used, nextPid := 1, 1;
      Repr := {this, slot, image};
      new;
      assert slot[..] == Init().slot && image[..] == Init().image;
    }

    method FindSlot(pid: int) returns (i: int)
      requires Valid()
      ensures i == Find(State(), pid)
    {
      i := 0;
      while i < MAX_PROCS
        invariant 0 <= i <= MAX_PROCS
        invariant forall j :: 0 <= j < i ==> slot[j].state == Unused || slot[j].pid != pid
      {
        if slot[i].state != Unused && slot[i].pid == pid {
          return;
        }
        i := i + 1;
      }
      i := -1;
    }

    method AllocSlot() returns (i: int)
      requires Valid()
      ensures i == Alloc(State())
    {
      i := 0;
      while i < MAX_PROCS
        invariant 0 <= i <= MAX_PROCS && forall j :: 0 <= j < i ==> slot[j].state != Unused
      {
        if slot[i].state == Unused {
          return;
        }
        i := i + 1;
      }
      i := -1;
    }

    method Spawn(ppid: int) returns (pid: int)
      requires Valid()
      modifies Repr
      ensures Valid() && (State(), pid) == Procs.Spawn(old(State()), ppid)
    {
      var i := AllocSlot();
      if i < 0 {
        return -1;
      }
      pid := nextPid;
      nextPid := nextPid + 1;
      slot[i] := Proc(pid, ppid, Ready, 0);
      image[i] := NO_IMAGE;
      used := used + 1;
      assert slot[..] == old(slot[..])[i := slot[i]] && image[..] == old(image[..])[i := NO_IMAGE];
    }

    method StateOf(pid: int) returns (st: RunState)
      requires Valid()
      ensures st == Procs.StateOf(State(), pid)
    {
      var i := FindSlot(pid);
      st := if i < 0 then Unused else slot[i].state;
    }

    method SetState(pid: int, st: RunState)
      requires Valid()
      modifies slot
      ensures State() == Procs.SetState(old(State()), pid, st)
    {
      var i := FindSlot(pid);
      if i >= 0 {
        slot[i] := slot[i].(state := st);
        assert slot[..] == old(slot[..])[i := slot[i]];
      }
    }

    method Exit(pid: int, code: int)
      requires Valid()
      modifies slot
      ensures State() == Procs.Exit(old(State()), pid, code)
    {
      var i := FindSlot(pid);
      if i >= 0 {
        slot[i] := slot[i].(state := Zombie, exitCode := code);
        assert slot[..] == old(slot[..])[i := slot[i]];
      }
    }

    method Reap(pid: int)
      requires Valid()
      modifies Repr
      ensures Valid() && State() == Procs.Reap(old(State()), pid)
    {
      var i := FindSlot(pid);
      if i >= 0 && slot[i].state == Zombie {
        slot[i] := NO_PROC;
        image[i] := NO_IMAGE;
        if used > 0 {
          used := used - 1;
        }
        assert slot[..] == old(slot[..])[i := NO_PROC] && image[..] == old(image[..])[i := NO_IMAGE];
      }
    }

    method Bind(pid: int, im: Image)
      requires Valid()
      modifies image
      ensures State() == Procs.Bind(old(State()), pid, im)
    {
      var i := FindSlot(pid);
      if i >= 0 {
        image[i] := im;
        assert image[..] == old(image[..])[i := im];
      }
    }
  }
}
