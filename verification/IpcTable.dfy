// Mailboxes and waiters as the kernel keeps them (kernel/ipc.c).

module IpcTable {
  import opened Bytes
  import opened Procs
  import opened Ipc
  import opened ProcTable

  class Mailboxes {
    const box: array<Mailbox>
    const waiter: array<Waiter>

    ghost predicate Valid()
      reads this
    {
      box.Length == BOXES && waiter.Length == BOXES
    }

    function State(): (i: Boxes)
      requires Valid()
      reads this, box, waiter
      ensures i.Shape()
    {
      Boxes(box[..], waiter[..])
    }

    constructor ()
      ensures Valid() && fresh(box) && fresh(waiter) && State() == Ipc.Init()
    {
      box := new Mailbox[BOXES](k => Mailbox(false, -1, false, NO_MESSAGE));
      waiter := new Waiter[BOXES](k => NO_WAITER);
      new;
      assert box[..] == Ipc.Init().box && waiter[..] == Ipc.Init().waiter;
    }

    method FindSlot(pid: int) returns (i: int)
      requires Valid()
      ensures i == FindBox(State(), pid)
    {
      i := 0;
      while i < BOXES
        invariant 0 <= i <= BOXES && forall j :: 0 <= j < i ==> !box[j].used || box[j].pid != pid
      {
        if box[i].used && box[i].pid == pid {
          return;
        }
        i := i + 1;
      }
      i := -1;
    }

    /** The first free mailbox, claimed for `pid`. */
    method AllocSlot(pid: int) returns (i: int)
      requires Valid()
      modifies box
      ensures i == FreeBox(old(State()))
      ensures box[..] == if i < 0 then old(box[..]) else old(box[..])[i := Mailbox(true, pid, false, NO_MESSAGE)]
    {
      i := 0;
      while i < BOXES
        invariant 0 <= i <= BOXES && box[..] == old(box[..]) && forall j :: 0 <= j < i ==> box[j].used
      {
        if !box[i].used {
          box[i] := Mailbox(true, pid, false, NO_MESSAGE);
          assert box[..] == old(box[..])[i := box[i]];
          return;
        }
        i := i + 1;
      }
      i := -1;
    }

    method FindWaiterSlot(pid: int) returns (i: int)
      requires Valid()
      ensures i == FindWaiter(State(), pid)
    {
      i := 0;
      while i < BOXES
        invariant 0 <= i <= BOXES && forall j :: 0 <= j < i ==> !waiter[j].active || waiter[j].pid != pid
      {
        if waiter[i].active && waiter[i].pid == pid {
          return;
        }
        i := i + 1;
      }
      i := -1;
    }

    method AllocWaiter(pid: int) returns (i: int)
      requires Valid()
      modifies waiter
      ensures i == FreeWaiter(old(State()))
      ensures waiter[..] == if i < 0 then old(waiter[..]) else old(waiter[..])[i := Waiter(true, pid, 0)]
    {
      i := 0;
      while i < BOXES
        invariant 0 <= i <= BOXES && waiter[..] == old(waiter[..]) && forall j :: 0 <= j < i ==> waiter[j].active
      {
        if !waiter[i].active {
          waiter[i] := Waiter(true, pid, 0);
          assert waiter[..] == old(waiter[..])[i := waiter[i]];
          return;
        }
        i := i + 1;
      }
      i := -1;
    }

    method BlockRecv(procs: Processes, pid: int, ptr: U32) returns (ok: bool)
      requires Valid() && procs.Valid()
      modifies waiter
      ensures (State(), ok) == Ipc.BlockRecv(old(State()), old(procs.State()), pid, ptr)
    {
      var st := procs.StateOf(pid);
      if pid < 0 || st == Unused {
        return false;
      }
      var i := FindWaiterSlot(pid);
      if i < 0 {
        i := AllocWaiter(pid);
        if i < 0 {
          return false;
        }
      }
      waiter[i] := waiter[i].(ptr := ptr);
      assert waiter[..] == old(waiter[..])[i := Waiter(true, pid, ptr)];
      ok := true;
    }

    method ClearWaiter(i: int)
      requires Valid() && 0 <= i < BOXES
      modifies waiter
      ensures State() == Ipc.ClearWaiter(old(State()), i)
    {
      waiter[i] := NO_WAITER;
      assert waiter[..] == old(waiter[..])[i := NO_WAITER];
    }

    /** The mailbox half of `ipc_send`. */
    method Post(pid: int, msg: Message) returns (ok: bool)
      requires Valid()
      modifies box
      ensures (State(), ok) == Ipc.Post(old(State()), pid, msg)
    {
      var i := FindSlot(pid);
      if i < 0 {
        i := AllocSlot(pid);
        if i < 0 {
          return false;
        }
      }
      if box[i].full {
        return false;
      }
      box[i] := box[i].(msg := msg, full := true);
      assert box[..] == old(box[..])[i := box[i]];
      ok := true;
    }

    /** `ipc_recv`: at most one message. */
    method Take(pid: int) returns (got: seq<Message>)
      requires Valid()
      modifies box
      ensures (State(), got) == Ipc.Take(old(State()), pid)
    {
      var i := FindSlot(pid);
      if pid < 0 || i < 0 || !box[i].full {
        return [];
      }
      got := [box[i].msg];
      box[i] := box[i].(full := false, msg := NO_MESSAGE);
      assert box[..] == old(box[..])[i := box[i]];
    }
  }
}
