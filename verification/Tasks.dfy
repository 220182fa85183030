// The task table and the round-robin tick (kernel/task.c).

module Tasks {
  import opened Bytes
  import opened Procs

  const MAX_TASKS := 32
  const TIMESLICE := 4

  datatype Task = Task(pid: int, ppid: int, state: RunState, ticks: nat)

  const NO_TASK := Task(0, -1, Unused, 0)

  datatype Sched = Sched(slot: seq<Task>, used: nat, current: int, switches: nat, slice: nat) {
    predicate Shape() {
      |slot| == MAX_TASKS && -1 <= current < MAX_TASKS
    }
  }

  /** The two tables that every state change of a process goes through together. */
  datatype Both = Both(t: Sched, p: Table) {
    predicate Shape() {
      t.Shape() && p.Shape()
    }
  }

  function FindTask(t: Sched, pid: int): (r: int)
    ensures r < |t.slot|
  {
    FirstIndex(t.slot, (x: Task) => x.state != Unused && x.pid == pid)
  }

  function AllocTask(t: Sched): (r: int)
    ensures r < |t.slot|
  {
    FirstIndex(t.slot, (x: Task) => x.state == Unused || x.state == Zombie)
  }

  function InitTasks(): (t: Sched)
    ensures t.Shape()
  {
    Sched([Task(0, -1, Running, 0)] + seq(MAX_TASKS - 1, i => NO_TASK), 1, 0, 0, 0)
  }

  function WithState(t: Sched, i: int, st: RunState): (r: Sched)
    requires 0 <= i < |t.slot|
    ensures t.Shape() ==> r.Shape()
  {
    t.(slot := t.slot[i := t.slot[i].(state := st)])
  }

  /** The current task loses the processor if it is running and is not slot `i`. */
  function Preempt(b: Both, i: int): (r: Both)
    requires b.Shape()
    ensures r.Shape() && r.p.image == b.p.image
  {
    var c := b.t.current;
    if c >= 0 && c != i && b.t.slot[c].state == Running
    then Both(WithState(b.t, c, Ready), SetState(b.p, b.t.slot[c].pid, Ready))
    else b
  }

  /** `task_return_to_kernel_main`: pid 0 becomes the running task. */
  function ReturnToKernel(b: Both): (r: Both)
    requires b.Shape()
    ensures r.Shape() && r.p.image == b.p.image
  {
    var i := FindTask(b.t, 0);
    if i < 0 then b.(t := b.t.(current := -1))
    else
      var b1 := Preempt(b, i);
      Both(WithState(b1.t, i, Running).(current := i, slice := 0), SetState(b1.p, b1.t.slot[i].pid, Running))
  }

  function Spawn(b: Both, ppid: int): (r: (Both, int))
    requires b.Shape()
    ensures r.0.Shape() && forall j :: 0 <= j < MAX_PROCS ==> r.0.p.image[j] == b.p.image[j] || r.0.p.image[j] == NO_IMAGE
  {
    var i := AllocTask(b.t);
    if i < 0 then (b, -1)
    else
      var (p1, pid) := Procs.Spawn(b.p, ppid);
      if pid < 0 then (Both(b.t, p1), -1)
      else (Both(b.t.(slot := b.t.slot[i := Task(pid, ppid, Ready, 0)], used := b.t.used + 1), p1), pid)
  }

  function SetTask(b: Both, pid: int, st: RunState): (r: Both)
    requires b.Shape()
    ensures r.Shape() && r.p.image == b.p.image
  {
    var i := FindTask(b.t, pid);
    if i < 0 then b
    else
      var b1 := if st == Running then Preempt(b, i) else b;
      var t1 := WithState(b1.t, i, st);
      if st == Running then Both(t1.(current := i, slice := 0), SetState(b1.p, pid, Running))
      else Both(t1, b1.p)
  }

  /** Task state and process state are always set one after the other. */
  function SetBoth(b: Both, pid: int, st: RunState): (r: Both)
    requires b.Shape()
    ensures r.Shape() && r.p.image == b.p.image
  {
    var b1 := SetTask(b, pid, st);
    Both(b1.t, SetState(b1.p, pid, st))
  }

  function ReapTask(b: Both, pid: int): (r: Both)
    requires b.Shape()
    ensures r.Shape() && r.p.image == b.p.image
  {
    var i := FindTask(b.t, pid);
    if i < 0 then b
    else
      var b1 := b.(t := b.t.(slot := b.t.slot[i := NO_TASK], used := Dec(b.t.used)));
      if b1.t.current == i then ReturnToKernel(b1) else b1
  }

  /** The clean-up after an exit or a failed start: exit, reap, reap. */
  function Discard(b: Both, pid: int, code: int): (r: Both)
    requires b.Shape()
    ensures r.Shape() && forall j :: 0 <= j < MAX_PROCS ==> r.p.image[j] == b.p.image[j] || r.p.image[j] == NO_IMAGE
  {
    ReapTask(Both(b.t, Procs.Reap(Procs.Exit(b.p, pid, code), pid)), pid)
  }

  // ---- the timer tick ------------------------------------------------------

  predicate ReadyAt(t: Sched, d: nat)
    requires t.Shape() && t.current >= 0
  {
    t.slot[(t.current + d) % MAX_TASKS].state == Ready
  }

  /** Distance in slots, from 1 to 31, to the next READY task; 0 if there is none. */
  function NextReady(t: Sched, n: nat): (r: nat)
    requires t.Shape() && t.current >= 0 && 1 <= n <= MAX_TASKS
    ensures r == 0 || n <= r < MAX_TASKS
    ensures r > 0 ==> ReadyAt(t, r)
    ensures forall d :: n <= d < (if r == 0 then MAX_TASKS else r) ==> !ReadyAt(t, d)
    decreases MAX_TASKS - n
  {
    if n == MAX_TASKS then 0
    else if ReadyAt(t, n) then n
    else NextReady(t, n + 1)
  }

  /** The slot the scheduler's loop stops at, or -1. */
  function NextSlot(t: Sched): (r: int)
    requires t.Shape() && t.current >= 0
    ensures -1 <= r < MAX_TASKS
    ensures r >= 0 ==> t.slot[r].state == Ready
  {
    var d := NextReady(t, 1);
    if d == 0 then -1 else assert ReadyAt(t, d); (t.current + d) % MAX_TASKS
  }

  /** The tick up to the decision: runtime and slice of a running current task. */
  function Charge(t: Sched): (r: Sched)
    requires t.Shape() && t.current >= 0
    ensures r.Shape() && r.current == t.current
  {
    var c := t.current;
    if t.slot[c].state == Running
    then t.(slot := t.slot[c := t.slot[c].(ticks := t.slot[c].ticks + 1)], slice := t.slice + 1)
    else t
  }

  function Tick(b: Both): (r: Both)
    requires b.Shape()
    ensures r.Shape() && r.p.image == b.p.image
  {
    if b.t.current < 0 then b
    else
      var t := Charge(b.t);
      if t.used <= 1 || t.slice < TIMESLICE then b.(t := t)
      else
        var next := NextSlot(t);
        if next < 0 then b.(t := t)
        else
          var c := t.current;
          var t1 := WithState(WithState(t, c, Ready), next, Running);
          Both(t1.(current := next, slice := 0, switches := t.switches + 1),
               SetState(SetState(b.p, t.slot[c].pid, Ready), t.slot[next].pid, Running))
  }
}
