// The process table (kernel/proc.c).

module Procs {
  import opened Bytes

  const MAX_PROCS := 32

  /** The states of a process; the scheduler's task table uses the same five. */
  datatype RunState = Unused | Ready | Running | Blocked | Zombie

  datatype Proc = Proc(pid: int, ppid: int, state: RunState, exitCode: int)

  /** The user registers a syscall stub pushes and `resume_user_mode` reloads. */
  datatype Context = Context(edi: U32, esi: U32, ebp: U32, ebx: U32, edx: U32, ecx: U32, eax: U32,
                             eip: U32, cs: U32, eflags: U32, esp: U32, ss: U32)

  const NO_CONTEXT := Context(0, 0, 0, 0, 0, 0, 0, 0, 0, 0, 0, 0)

  datatype Image = Image(loaded: bool, entry: U32, base: U32, size: U32, stackBase: U32, stackSize: U32,
                         contextValid: bool, context: Context)

  const NO_IMAGE := Image(false, 0, 0, 0, 0, 0, false, NO_CONTEXT)
  const NO_PROC := Proc(-1, -1, Unused, 0)

  datatype Table = Table(slot: seq<Proc>, image: seq<Image>, used: nat, nextPid: int) {
    predicate Shape() {
      |slot| == MAX_PROCS && |image| == MAX_PROCS
    }
  }

  function Find(p: Table, pid: int): (r: int)
    ensures r < |p.slot|
  {
    FirstIndex(p.slot, (x: Proc) => x.state != Unused && x.pid == pid)
  }

  function Alloc(p: Table): (r: int)
    ensures r < |p.slot|
  {
    FirstIndex(p.slot, (x: Proc) => x.state == Unused)
  }

  function StateOf(p: Table, pid: int): RunState {
    var i := Find(p, pid);
    if i < 0 then Unused else p.slot[i].state
  }

  function Init(): (p: Table)
    ensures p.Shape()
  {
    Table([Proc(0, -1, Running, 0)] + seq(MAX_PROCS - 1, i => NO_PROC), seq(MAX_PROCS, i => NO_IMAGE), 1, 1)
  }

  /** The table after a spawn, and the new pid or -1. */
  function Spawn(p: Table, ppid: int): (r: (Table, int))
    requires p.Shape()
    ensures r.0.Shape() && (r.1 == -1 || r.1 == p.nextPid)
    ensures Alloc(p) < 0 ==> r == (p, -1)
    ensures var i := Alloc(p);
            i >= 0 ==> r.0.image == p.image[i := NO_IMAGE] && Find(r.0, p.nextPid) >= 0
                       && forall j :: 0 <= j < MAX_PROCS && j != i ==> r.0.slot[j] == p.slot[j]
  {
    var i := Alloc(p);
    if i < 0 then (p, -1)
    else
      var r := Table(p.slot[i := Proc(p.nextPid, ppid, Ready, 0)], p.image[i := NO_IMAGE], p.used + 1, p.nextPid + 1);
      assert r.slot[i].pid == p.nextPid;
      (r, p.nextPid)
  }

  function SetState(p: Table, pid: int, st: RunState): (r: Table)
    ensures p.Shape() ==> r.Shape()
    ensures r.image == p.image
  {
    var i := Find(p, pid);
    if i < 0 then p else p.(slot := p.slot[i := p.slot[i].(state := st)])
  }

  function Exit(p: Table, pid: int, code: int): (r: Table)
    ensures p.Shape() ==> r.Shape()
    ensures r.image == p.image
  {
    var i := Find(p, pid);
    if i < 0 then p else p.(slot := p.slot[i := p.slot[i].(state := Zombie, exitCode := code)])
  }

  function Dec(n: nat): nat { if n > 0 then n - 1 else n }

  function Reap(p: Table, pid: int): (r: Table)
    requires p.Shape()
    ensures r.Shape() && forall j :: 0 <= j < MAX_PROCS ==> r.image[j] == p.image[j] || r.image[j] == NO_IMAGE
  {
    var i := Find(p, pid);
    if i < 0 || p.slot[i].state != Zombie then p
    else Table(p.slot[i := NO_PROC], p.image[i := NO_IMAGE], Dec(p.used), p.nextPid)
  }

  function Bind(p: Table, pid: int, im: Image): (r: Table)
    requires p.Shape()
    ensures r.Shape() && forall j :: 0 <= j < MAX_PROCS ==> r.image[j] == p.image[j] || r.image[j] == im
  {
    var i := Find(p, pid);
    if i < 0 then p else p.(image := p.image[i := im])
  }
}
