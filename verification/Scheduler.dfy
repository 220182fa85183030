// Fairness of the timer tick: round robin over the runnable tasks (kernel/task.c).

module Scheduler {
  import opened Bytes
  import opened Procs
  import opened Tasks
  import opened TableInv

  predicate Runnable(t: Sched, i: int)
    requires t.Shape() && 0 <= i < MAX_TASKS
  {
    t.slot[i].state == Ready || t.slot[i].state == Running
  }

  /** The slot `d` places after `c` in cyclic order, and how far after `c` slot `i` lies. */
  function Around(c: int, d: int): (r: int)
    requires 0 <= c < MAX_TASKS && 0 <= d <= MAX_TASKS
    ensures 0 <= r < MAX_TASKS
  {
    if c + d < MAX_TASKS then c + d else c + d - MAX_TASKS
  }

  lemma AroundIs(c: int, d: int)
    requires 0 <= c < MAX_TASKS && 0 <= d <= MAX_TASKS
    ensures Around(c, d) == (c + d) % MAX_TASKS
  {
  }

  function Turn(c: int, i: int): (r: int)
    requires 0 <= c < MAX_TASKS && 0 <= i < MAX_TASKS
    ensures 0 <= r < MAX_TASKS && Around(c, r) == i
    ensures forall d :: 0 <= d < MAX_TASKS && Around(c, d) == i ==> d == r
  {
    if i >= c then i - c else i - c + MAX_TASKS
  }

  /** The runnable slots from `d` places after the current one on, in cyclic order. */
  function Queue(t: Sched, d: nat): (q: seq<int>)
    requires t.Shape() && t.current >= 0 && d <= MAX_TASKS
    ensures forall k :: 0 <= k < |q| ==> 0 <= q[k] < MAX_TASKS && Runnable(t, q[k])
    decreases MAX_TASKS - d
  {
    if d == MAX_TASKS then []
    else
      var rest := Queue(t, d + 1);
      if Runnable(t, Around(t.current, d)) then [Around(t.current, d)] + rest else rest
  }

  function RunnableSet(t: Sched, d: nat): set<int>
    requires t.Shape() && t.current >= 0
  {
    set i | 0 <= i < MAX_TASKS && Runnable(t, i) && d <= Turn(t.current, i)
  }

  /** The queue names every runnable slot exactly once. */
  lemma {:induction false} QueueIsExact(t: Sched, d: nat)
    requires t.Shape() && t.current >= 0 && d <= MAX_TASKS
    ensures forall i :: i in Queue(t, d) <==> i in RunnableSet(t, d)
    ensures |Queue(t, d)| == |RunnableSet(t, d)|
    decreases MAX_TASKS - d
  {
    if d < MAX_TASKS {
      QueueIsExact(t, d + 1);
      RunnableSplits(t, d);
      hide Around, Turn, RunnableSet;
    } else {
      assert RunnableSet(t, d) == {};
    }
  }

  lemma RunnableSplits(t: Sched, d: nat)
    requires t.Shape() && t.current >= 0 && d < MAX_TASKS
    ensures var i := Around(t.current, d);
            && i !in RunnableSet(t, d + 1)
            && RunnableSet(t, d) == if Runnable(t, i) then RunnableSet(t, d + 1) + {i} else RunnableSet(t, d + 1)
  {
    var i := Around(t.current, d);
    assert Turn(t.current, i) == d;
    assert forall j :: 0 <= j < MAX_TASKS ==> (Turn(t.current, j) == d <==> j == i);
    hide Around, Turn;
  }

  // ---- one slice -----------------------------------------------------------

  /** The tick as it acts on the task table alone. */
  function TickTasks(t: Sched): (r: Sched)
    requires t.Shape()
    ensures r.Shape()
  {
    if t.current < 0 then t
    else
      var u := Charge(t);
      if u.used <= 1 || u.slice < TIMESLICE then u
      else
        var next := NextSlot(u);
        if next < 0 then u
        else WithState(WithState(u, u.current, Ready), next, Running).(current := next, slice := 0,
                                                                       switches := u.switches + 1)
  }

  lemma TickActs(b: Both)
    requires b.Shape()
    ensures Tick(b).t == TickTasks(b.t)
  {
  }

  function Ticks(b: Both, n: nat): (r: Both)
    requires b.Shape()
    ensures r.Shape()
  {
    if n == 0 then b else Tick(Ticks(b, n - 1))
  }

  function After(t: Sched, n: nat): (r: Sched)
    requires t.Shape()
    ensures r.Shape()
  {
    if n == 0 then t else TickTasks(After(t, n - 1))
  }

  lemma {:induction false} TicksTasks(b: Both, n: nat)
    requires b.Shape()
    ensures Ticks(b, n).t == After(b.t, n)
  {
    if n > 0 {
      TicksTasks(b, n - 1);
      TickActs(Ticks(b, n - 1));
      hide Tick, TickTasks;
    }
  }

  lemma {:induction false} AfterAfter(t: Sched, m: nat, n: nat)
    requires t.Shape()
    ensures After(After(t, m), n) == After(t, m + n)
  {
    if n > 0 {
      AfterAfter(t, m, n - 1);
    }
  }

  /** One task is running, the current one, and some other task waits for the processor. */
  ghost predicate Contended(t: Sched) {
    var all :=
      && t.Shape() && t.current >= 0 && t.used >= 2
      && t.slot[t.current].state == Running
      && (forall i :: 0 <= i < MAX_TASKS && t.slot[i].state == Running ==> i == t.current)
      && exists i :: 0 <= i < MAX_TASKS && t.slot[i].state == Ready;
    all
  }

  /** Ticks left before the current task must give way. */
  function Left(t: Sched): (n: nat)
    ensures 1 <= n <= TIMESLICE
  {
    if t.slice + 1 >= TIMESLICE then 1 else TIMESLICE - t.slice
  }

  function ChargeN(t: Sched, n: nat): (r: Sched)
    requires t.Shape() && t.current >= 0
    ensures r.Shape()
  {
    var c := t.current;
    t.(slot := t.slot[c := t.slot[c].(ticks := t.slot[c].ticks + n)], slice := t.slice + n)
  }

  lemma {:induction false} SliceRuns(t: Sched, n: nat)
    requires Contended(t) && n < Left(t)
    ensures After(t, n) == ChargeN(t, n)
  {
    if n > 0 {
      SliceRuns(t, n - 1);
      assert After(t, n).slot == ChargeN(t, n).slot;
    } else {
      assert After(t, 0).slot == ChargeN(t, 0).slot;
    }
  }

  /** The table once the task `d` places on has taken over after `n` more ticks of the current one. */
  function Switched(t: Sched, d: nat, n: nat): (r: Sched)
    requires t.Shape() && t.current >= 0 && d <= MAX_TASKS
    ensures r.Shape()
  {
    var c := t.current;
    var next := Around(c, d);
    t.(slot := t.slot[c := t.slot[c].(ticks := t.slot[c].ticks + n, state := Ready)]
                     [next := t.slot[next].(state := Running)],
       current := next, slice := 0, switches := t.switches + 1)
  }

  /** A whole slice: the current task is charged every tick of it, then the next READY one runs. */
  lemma SliceSwitches(t: Sched, d: nat)
    requires Contended(t) && 1 <= d < MAX_TASKS && ReadyAt(t, d) && forall e :: 1 <= e < d ==> !ReadyAt(t, e)
    ensures After(t, Left(t)) == Switched(t, d, Left(t))
  {
    var n := Left(t);
    SliceRuns(t, n - 1);
    var u := ChargeN(t, n);
    assert Charge(ChargeN(t, n - 1)) == u by {
      assert Charge(ChargeN(t, n - 1)).slot == u.slot;
    }
    ChargedNext(t, d, n);
    assert TickTasks(ChargeN(t, n - 1)).slot == Switched(t, d, n).slot;
  }

  lemma ChargedNext(t: Sched, d: nat, n: nat)
    requires Contended(t) && 1 <= d < MAX_TASKS && ReadyAt(t, d) && forall e :: 1 <= e < d ==> !ReadyAt(t, e)
    ensures NextSlot(ChargeN(t, n)) == Around(t.current, d)
  {
    var u := ChargeN(t, n);
    forall e | 1 <= e < MAX_TASKS ensures ReadyAt(u, e) <==> ReadyAt(t, e) {
      AroundIs(t.current, e);
      assert Around(t.current, e) != t.current;
    }
    AroundIs(t.current, d);
    var r := NextReady(u, 1);
    hide ReadyAt;
    assert ReadyAt(u, d);
    assert r > 0 && ReadyAt(u, r) && ReadyAt(t, r);
    assert r == d;
  }

  // ---- a whole round -------------------------------------------------------

  function Gift(t: Sched, i: int): nat {
    if i == t.current then Left(t) else TIMESLICE
  }

  /** The table when every runnable task less than `x` places on has had its slice and the one at `x` runs. */
  function Served(t: Sched, x: nat, n: nat): (r: Sched)
    requires t.Shape() && t.current >= 0 && x <= MAX_TASKS
    ensures r.Shape()
  {
    var now := Around(t.current, x);
    Sched(seq(MAX_TASKS, i requires 0 <= i < MAX_TASKS =>
                if Runnable(t, i)
                then Task(t.slot[i].pid, t.slot[i].ppid, if i == now then Running else Ready,
                          t.slot[i].ticks + if Turn(t.current, i) < x then Gift(t, i) else 0)
                else t.slot[i]),
          t.used, now, t.switches + n, if x == 0 then t.slice else 0)
  }

  /** The next place at or after `x` whose slot is runnable; 32, the current slot again, if there is none. */
  function Next(t: Sched, x: nat): (y: nat)
    requires t.Shape() && t.current >= 0 && x <= MAX_TASKS
    ensures x <= y <= MAX_TASKS && (y < MAX_TASKS ==> Runnable(t, Around(t.current, y)))
    ensures forall z :: x <= z < y ==> !Runnable(t, Around(t.current, z))
    decreases MAX_TASKS - x
  {
    if x == MAX_TASKS || Runnable(t, Around(t.current, x)) then x else Next(t, x + 1)
  }

  lemma ServedContended(t: Sched, x: nat, n: nat)
    requires Contended(t) && x <= MAX_TASKS && (x < MAX_TASKS ==> Runnable(t, Around(t.current, x)))
    ensures Contended(Served(t, x, n))
    ensures Left(Served(t, x, n)) == if x == 0 then Left(t) else TIMESLICE
  {
    var r, c := Served(t, x, n), t.current;
    assert Runnable(t, c) && Around(c, MAX_TASKS) == c;
    var i :| 0 <= i < MAX_TASKS && t.slot[i].state == Ready;
    if r.current == i {
      assert r.slot[c].state == Ready;
    } else {
      assert r.slot[i].state == Ready;
    }
  }

  /** The places the scheduler's loop looks at, seen from the first task of the round. */
  lemma ServedReady(t: Sched, x: nat, n: nat, e: nat)
    requires Contended(t) && x < MAX_TASKS && 1 <= e < MAX_TASKS && x + e <= MAX_TASKS
    requires Runnable(t, Around(t.current, x))
    ensures ReadyAt(Served(t, x, n), e) <==> Runnable(t, Around(t.current, x + e))
  {
    assert Around(Around(t.current, x), e) == Around(t.current, x + e) != Around(t.current, x);
    AroundIs(Around(t.current, x), e);
  }

  /** Another runnable task lies strictly between two turns of the same one. */
  lemma NextIsNear(t: Sched, x: nat)
    requires Contended(t) && x < MAX_TASKS && Runnable(t, Around(t.current, x))
    ensures Next(t, x + 1) - x < MAX_TASKS
  {
    if Next(t, x + 1) - x == MAX_TASKS {
      var i :| 0 <= i < MAX_TASKS && t.slot[i].state == Ready;
      assert Around(t.current, 0) == t.current;
      var d := Turn(t.current, i);
      assert false;
    }
  }

  lemma NextIsReady(t: Sched, x: nat, n: nat, e: nat)
    requires Contended(t) && x < MAX_TASKS && Runnable(t, Around(t.current, x))
    requires 1 <= e < MAX_TASKS && x + e <= Next(t, x + 1)
    ensures ReadyAt(Served(t, x, n), e) <==> x + e == Next(t, x + 1)
  {
    ServedReady(t, x, n, e);
    assert Around(t.current, MAX_TASKS) == t.current;
    hide Around, Served;
  }

  /** One slice moves the round on by one runnable task. */
  lemma ServeOne(t: Sched, x: nat, n: nat)
    requires Contended(t) && x < MAX_TASKS && Runnable(t, Around(t.current, x))
    ensures var r := Served(t, x, n);
            After(r, Left(r)) == Served(t, Next(t, x + 1), n + 1)
  {
    var r, y := Served(t, x, n), Next(t, x + 1);
    hide *;
    ServedContended(t, x, n);
    NextIsNear(t, x);
    var d := y - x;
    forall e | 1 <= e <= d ensures ReadyAt(r, e) <==> e == d {
      NextIsReady(t, x, n, e);
    }
    SliceSwitches(r, d);
    ServedNext(t, x, y, n);
  }

  lemma ServedNext(t: Sched, x: nat, y: nat, n: nat)
    requires Contended(t) && x < MAX_TASKS && Runnable(t, Around(t.current, x))
    requires y == Next(t, x + 1) && y - x < MAX_TASKS
    ensures var r := Served(t, x, n);
            Switched(r, y - x, if x == 0 then Left(t) else TIMESLICE) == Served(t, y, n + 1)
  {
    var r := Served(t, x, n);
    var left, right := Switched(r, y - x, if x == 0 then Left(t) else TIMESLICE), Served(t, y, n + 1);
    assert Around(Around(t.current, x), y - x) == Around(t.current, y);
    forall i | 0 <= i < MAX_TASKS ensures left.slot[i] == right.slot[i] {
      ServedSlot(t, x, y, n, i);
    }
    assert left.slot == right.slot;
  }

  /** Between two turns, only the task whose slice it was is charged. */
  lemma TurnPassed(t: Sched, x: nat, y: nat, i: int)
    requires t.Shape() && t.current >= 0 && x < MAX_TASKS && y == Next(t, x + 1)
    requires 0 <= i < MAX_TASKS && Runnable(t, i)
    ensures Turn(t.current, i) < y <==> Turn(t.current, i) <= x
    ensures i == Around(t.current, x) <==> Turn(t.current, i) == x
    ensures i == t.current <==> Turn(t.current, i) == 0
  {
    assert Around(t.current, 0) == t.current;
    hide Around, Turn;
  }

  lemma ServedSlot(t: Sched, x: nat, y: nat, n: nat, i: int)
    requires Contended(t) && x < MAX_TASKS && Runnable(t, Around(t.current, x))
    requires y == Next(t, x + 1) && y - x < MAX_TASKS && 0 <= i < MAX_TASKS
    ensures Switched(Served(t, x, n), y - x, if x == 0 then Left(t) else TIMESLICE).slot[i]
            == Served(t, y, n + 1).slot[i]
  {
    var now, next := Around(t.current, x), Around(t.current, y);
    assert Around(now, y - x) == next && Around(t.current, 0) == t.current;
    assert Runnable(t, next);
    if Runnable(t, i) {
      TurnPassed(t, x, y, i);
      RunnableSlot(t, x, y, n, i, now, next);
    } else {
      hide Around, Turn, Next, Left, Contended, Runnable, Gift;
    }
  }

  lemma RunnableSlot(t: Sched, x: nat, y: nat, n: nat, i: int, now: int, next: int)
    requires t.Shape() && t.current >= 0 && x < MAX_TASKS && x < y <= MAX_TASKS && 0 <= i < MAX_TASKS && Runnable(t, i)
    requires now == Around(t.current, x) && next == Around(t.current, y) && next == Around(now, y - x) && now != next
    requires Turn(t.current, i) < y <==> Turn(t.current, i) <= x
    requires i == now <==> Turn(t.current, i) == x
    requires i == t.current <==> Turn(t.current, i) == 0
    ensures Switched(Served(t, x, n), y - x, if x == 0 then Left(t) else TIMESLICE).slot[i]
            == Served(t, y, n + 1).slot[i]
  {
    hide Around, Turn, Next, Left;
  }

  function TicksFor(t: Sched, k: nat): nat {
    if k == 0 then 0 else Left(t) + TIMESLICE * (k - 1)
  }

  lemma {:induction false} QueueSkips(t: Sched, x: nat)
    requires t.Shape() && t.current >= 0 && x <= MAX_TASKS
    ensures Queue(t, x) == Queue(t, Next(t, x))
    decreases MAX_TASKS - x
  {
    if x < MAX_TASKS && !Runnable(t, Around(t.current, x)) {
      QueueSkips(t, x + 1);
    }
  }

  /** After `k` slices of the round, the task at place `x` runs. */
  ghost predicate InTurn(t: Sched, x: nat, k: nat) {
    var all :=
      && Contended(t) && x <= MAX_TASKS && (x < MAX_TASKS ==> Runnable(t, Around(t.current, x)))
      && After(t, TicksFor(t, k)) == Served(t, x, k) && (k == 0 <==> x == 0);
    all
  }

  lemma TurnStep(t: Sched, x: nat, k: nat)
    requires InTurn(t, x, k) && t.Shape() && t.current >= 0 && x < MAX_TASKS
    ensures InTurn(t, Next(t, x + 1), k + 1)
  {
    hide *;
    InTurnAt(t, x, k);
    var r, m, y := Served(t, x, k), TicksFor(t, k), Next(t, x + 1);
    ServeOne(t, x, k);
    ServedContended(t, x, k);
    AfterAfter(t, m, Left(r));
    NextTicks(t, x, k);
    IntoTurn(t, y, k + 1);
  }

  lemma NextTicks(t: Sched, x: nat, k: nat)
    requires k == 0 <==> x == 0
    ensures TicksFor(t, k + 1) == TicksFor(t, k) + if x == 0 then Left(t) else TIMESLICE
  {
  }

  lemma InTurnAt(t: Sched, x: nat, k: nat)
    requires InTurn(t, x, k) && t.Shape() && t.current >= 0
    ensures Contended(t) && x <= MAX_TASKS && (x < MAX_TASKS ==> Runnable(t, Around(t.current, x)))
    ensures After(t, TicksFor(t, k)) == Served(t, x, k) && (k == 0 <==> x == 0)
  {
    hide After, Served, Around, Runnable, Contended, TicksFor;
  }

  lemma IntoTurn(t: Sched, x: nat, k: nat)
    requires t.Shape() && t.current >= 0 && 0 < x <= MAX_TASKS && k > 0 && Contended(t)
    requires x < MAX_TASKS ==> Runnable(t, Around(t.current, x))
    requires After(t, TicksFor(t, k)) == Served(t, x, k)
    ensures InTurn(t, x, k)
  {
    hide After, Served, Around, Runnable, Contended, TicksFor;
  }

  lemma QueueStep(t: Sched, x: nat)
    requires t.Shape() && t.current >= 0 && x <= MAX_TASKS && (x < MAX_TASKS ==> Runnable(t, Around(t.current, x)))
    ensures Queue(t, x) == if x == MAX_TASKS then [] else [Around(t.current, x)] + Queue(t, Next(t, x + 1))
  {
    if x < MAX_TASKS {
      QueueSkips(t, x + 1);
    }
  }

  /** After `k` slices the `j`-th task of the queue `q` runs, or the round is over if there is none. */
  ghost predicate Reached(t: Sched, q: seq<int>, j: nat, y: nat, k: nat) {
    var all :=
      && InTurn(t, y, k) && j <= |q|
      && (j < |q| ==> y < MAX_TASKS && Around(t.current, y) == q[j])
      && (j == |q| ==> y == MAX_TASKS);
    all
  }

  lemma ReachedHere(t: Sched, x: nat, k: nat)
    requires InTurn(t, x, k) && t.Shape() && t.current >= 0 && x <= MAX_TASKS
    ensures Reached(t, Queue(t, x), 0, x, k)
  {
    InTurnAt(t, x, k);
    QueueStep(t, x);
    hide Around, Runnable, InTurn;
  }

  lemma ReachedLater(t: Sched, first: int, q: seq<int>, j: nat, y: nat, k: nat)
    requires Reached(t, q, j, y, k)
    ensures Reached(t, [first] + q, j + 1, y, k)
  {
    hide Around, InTurn;
  }

  /** From the task at place `x`, `j` more turns reach the `j`-th of the queue; after the last, the round is over. */
  lemma {:induction false} Turns(t: Sched, x: nat, k: nat, j: nat) returns (y: nat)
    requires InTurn(t, x, k) && t.Shape() && 0 <= t.current < MAX_TASKS && x <= MAX_TASKS && j <= |Queue(t, x)|
    ensures Reached(t, Queue(t, x), j, y, k + j)
    decreases j
  {
    if j == 0 {
      y := x;
      hide *;
      ReachedHere(t, x, k);
    } else {
      hide *;
      var first := Around(t.current, x);
      InTurnAt(t, x, k);
      QueueStep(t, x);
      TurnStep(t, x, k);
      var z := Next(t, x + 1);
      y := Turns(t, z, k + 1, j - 1);
      ReachedLater(t, first, Queue(t, z), j - 1, y, k + j);
    }
  }

  /**
   * Round robin on the task table: the `j`-th task in cyclic order after the current one takes over within 4 j
   * ticks, whatever is left of the slice; and from a fresh slice, a round of four ticks for each runnable task
   * gives each exactly four and ends where it began.
   */
  lemma RoundRobin(t: Sched)
    requires Contended(t)
    ensures var q := Queue(t, 0);
            && (forall i :: i in q <==> 0 <= i < MAX_TASKS && Runnable(t, i))
            && |q| == |RunnableSet(t, 0)| >= 2 && q[0] == t.current
            && (forall j :: 0 <= j < |q| ==> RunsAt(t, TicksFor(t, j), q[j]) && TicksFor(t, j) <= TIMESLICE * j)
    ensures t.slice == 0 ==> RoundDone(t, After(t, TIMESLICE * |Queue(t, 0)|), |Queue(t, 0)|)
  {
    var q := Queue(t, 0);
    QueueIsExact(t, 0);
    AtLeastTwo(t);
    RoundStarts(t);
    hide *;
    forall j | 0 <= j < |q| ensures RunsAt(t, TicksFor(t, j), q[j]) && TicksFor(t, j) <= TIMESLICE * j {
      TurnRuns(t, j);
    }
    if t.slice == 0 {
      RoundEnds(t);
    }
  }

  lemma RoundStarts(t: Sched)
    requires Contended(t)
    ensures InTurn(t, 0, 0) && Queue(t, 0) != [] && Queue(t, 0)[0] == t.current
  {
    assert Around(t.current, 0) == t.current;
    assert Served(t, 0, 0).slot == t.slot;
  }

  lemma AtLeastTwo(t: Sched)
    requires Contended(t)
    ensures |RunnableSet(t, 0)| >= 2
  {
    var i :| 0 <= i < MAX_TASKS && t.slot[i].state == Ready;
    var two := {t.current, i};
    assert two <= RunnableSet(t, 0);
    Subset(two, RunnableSet(t, 0));
  }

  lemma TurnRuns(t: Sched, j: nat)
    requires Contended(t) && t.Shape() && t.current >= 0 && j < |Queue(t, 0)|
    ensures RunsAt(t, TicksFor(t, j), Queue(t, 0)[j]) && TicksFor(t, j) <= TIMESLICE * j
  {
    hide *;
    RoundStarts(t);
    var y := Turns(t, 0, 0, j);
    ReachedRuns(t, j, y);
  }

  lemma ReachedRuns(t: Sched, j: nat, y: nat)
    requires t.Shape() && t.current >= 0 && Reached(t, Queue(t, 0), j, y, j) && j < |Queue(t, 0)|
    ensures RunsAt(t, TicksFor(t, j), Queue(t, 0)[j]) && TicksFor(t, j) <= TIMESLICE * j
  {
    hide After, Queue;
  }

  lemma RoundEnds(t: Sched)
    requires Contended(t) && t.Shape() && t.current >= 0 && t.slice == 0
    ensures RoundDone(t, After(t, TIMESLICE * |Queue(t, 0)|), |Queue(t, 0)|)
  {
    hide *;
    RoundStarts(t);
    var m := |Queue(t, 0)|;
    var y := Turns(t, 0, 0, m);
    RoundOver(t, m, y);
  }

  lemma RoundOver(t: Sched, m: nat, y: nat)
    requires t.Shape() && t.current >= 0 && Reached(t, Queue(t, 0), m, y, m) && m == |Queue(t, 0)| && t.slice == 0
    ensures RoundDone(t, After(t, TIMESLICE * m), m)
  {
    assert TicksFor(t, m) == TIMESLICE * m && InTurn(t, MAX_TASKS, m);
    hide Queue;
    hide After, TicksFor;
  }

  lemma {:induction false} Subset<T>(a: set<T>, b: set<T>)
    requires a <= b
    ensures |a| <= |b|
  {
    assert b == a + (b - a);
  }

  predicate RunsAt(t: Sched, n: nat, i: int)
    requires t.Shape() && 0 <= i < MAX_TASKS
  {
    After(t, n).current == i && After(t, n).slot[i].state == Running
  }

  /** Each runnable task has had four ticks more, nothing else moved, and `m` switches were counted. */
  predicate RoundDone(t: Sched, r: Sched, m: nat)
    requires t.Shape() && r.Shape()
  {
    && r.current == t.current && r.slice == 0 && r.used == t.used && r.switches == t.switches + m
    && forall i :: 0 <= i < MAX_TASKS ==>
         r.slot[i] == if Runnable(t, i) then t.slot[i].(ticks := t.slot[i].ticks + TIMESLICE) else t.slot[i]
  }

  /** The two tables at a step boundary with somebody waiting are such a table, and stay so. */
  lemma SettledContended(b: Both, i: int)
    requires Settled(b) && 0 <= i < MAX_TASKS && b.t.slot[i].state == Ready
    ensures Contended(b.t)
  {
    assert Live(b, i) && Live(b, b.t.current);
    assert {i, b.t.current} <= LiveSet(b);
    Subset({i, b.t.current}, LiveSet(b));
    assert |{i, b.t.current}| == 2;
  }

  /** The guarantee for the two tables together, whatever else they hold. */
  lemma TicksAreFair(b: Both, i: int)
    requires Settled(b) && 0 <= i < MAX_TASKS && b.t.slot[i].state == Ready
    ensures var q, m := Queue(b.t, 0), |Queue(b.t, 0)|;
            && m >= 2 && i in q
            && (forall j :: 0 <= j < m ==> TicksFor(b.t, j) <= TIMESLICE * j
                                           && Ticks(b, TicksFor(b.t, j)).t.current == q[j])
            && (b.t.slice == 0 ==> RoundDone(b.t, Ticks(b, TIMESLICE * m).t, m))
  {
    SettledContended(b, i);
    RoundRobin(b.t);
    var q, m := Queue(b.t, 0), |Queue(b.t, 0)|;
    forall j | 0 <= j < m ensures Ticks(b, TicksFor(b.t, j)).t.current == q[j] {
      TicksTasks(b, TicksFor(b.t, j));
      assert RunsAt(b.t, TicksFor(b.t, j), q[j]);
    }
    TicksTasks(b, TIMESLICE * m);
  }
}
