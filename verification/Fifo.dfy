// Messages are neither lost, duplicated nor reordered, whichever way they travel.

module Fifo {
  import opened Bytes
  import opened Procs
  import opened Elf
  import opened Images
  import opened Ipc
  import opened Kernel
  import opened KernelInv
  import opened KernelMsg
  import opened Private
  import opened Safety
  import opened Refine

  /** The message step `s` got accepted for `d`: read from the sender's memory, stamped with its pid. */
  ghost function Accepted(a: AState, s: Step, out: Output, d: int): seq<Message> {
    if s.Send? && out == Ret(0) && a.running in a.procs && a.procs[a.running].InRange(s.ptr, MSG_SIZE) then
      var msg := Decode(a.procs[a.running].Read(s.ptr, MSG_SIZE));
      if msg.dst == d then [msg.(src := a.running)] else []
    else []
  }

  /** The message `d` finds in its own memory after a step that ended its wait, or answered its receive. */
  ghost function Received(a: AState, s: Step, out: Output, a': AState, d: int): seq<Message> {
    if d in a.procs && d in a'.procs && a.procs[d].waiting.Some? && a'.procs[d].waiting.None?
       && a'.procs[d].InRange(a.procs[d].waiting.value, MSG_SIZE)
    then [Decode(a'.procs[d].Read(a.procs[d].waiting.value, MSG_SIZE))]
    else if s.Recv? && d == a.running && out == Ret(0) && d in a'.procs && a'.procs[d].InRange(s.ptr, MSG_SIZE)
    then [Decode(a'.procs[d].Read(s.ptr, MSG_SIZE))]
    else []
  }

  ghost function InBox(a: AState, d: int): seq<Message> {
    if d in a.box then a.box[d] else []
  }

  /** A waiting process has an empty mailbox; a mailbox holds at most one message; pids fit in 32 bits. */
  ghost predicate Orderly(a: AState) {
    && (forall d :: d in a.procs && a.procs[d].waiting.Some? ==> InBox(a, d) == [])
    && (forall d :: d in a.box ==> |a.box[d]| <= 1 && (a.box[d] != [] ==> a.box[d][0].Ok()))
    && 0 <= a.running <= MAX_PID
    && (a.running in a.procs ==> a.procs[a.running].waiting.None?)
  }

  lemma AbsOrderly(k: Kernel)
    requires Inv(k)
    ensures CoreInv(k) && Orderly(Abs(k))
  {
    InvParts(k);
    BoxesDistinct(k);
    RunningPid(k);
    var a := Abs(k);
    assert a.box == AbsBox(k.i) && a.running == k.ring3;
    forall d | d in a.procs && a.procs[d].waiting.Some? ensures InBox(a, d) == [] {
      WaitingIs(k, d);
      assert BlockedOk(k, d);
      BoxAt(k.i, d);
    }
    forall d | d in a.box ensures |a.box[d]| <= 1 && (a.box[d] != [] ==> a.box[d][0].Ok()) {
      BoxAt(k.i, d);
      PendingOk(k, d);
    }
    if a.running in a.procs {
      WaitingIs(k, a.running);
      AbsAt(k, a.running);
    }
  }

  lemma RunningPid(k: Kernel)
    requires Inv(k)
    ensures 0 <= k.ring3 <= MAX_PID
    ensures k.ring3 > 0 ==> StateOf(k.b.p, k.ring3) != Blocked
    ensures k.Resident(0) ==> false
  {
    if k.ring3 > 0 {
      TableInv.FoundIsLive(k.b, k.ring3);
    }
    assert k.Resident(0) ==> ResidentOk(k, 0);
  }

  lemma PendingOk(k: Kernel, d: int)
    requires k.Shape() && BoxesOk(k)
    ensures Pending(k.i, d) != [] ==> Pending(k.i, d)[0].Ok()
  {
  }

  /** What was written through a pointer is read back through it. */
  lemma ReadWritten(p: AProc, ptr: U32, d: seq<Byte>)
    requires p.InRange(ptr, |d|)
    ensures p.Write(ptr, d).InRange(ptr, |d|) && p.Write(ptr, d).Read(ptr, |d|) == d
  {
    if p.InImage(ptr, |d|) {
      BlitRead(p.image, ptr - p.base, d);
    } else {
      BlitRead(p.stack, ptr - p.stackBase, d);
    }
  }

  lemma MessageReads(p: AProc, ptr: U32, msg: Message)
    requires p.InRange(ptr, MSG_SIZE) && msg.Ok()
    ensures var q := p.Write(ptr, Encode(msg)); q.InRange(ptr, MSG_SIZE) && Decode(q.Read(ptr, MSG_SIZE)) == msg
  {
    ReadWritten(p, ptr, Encode(msg));
    MessageRoundTrip(msg);
  }

  lemma ReceiveReads(p: AProc, msg: Message)
    requires p.waiting.Some? && p.saved.Some? && p.InRange(p.waiting.value, MSG_SIZE) && msg.Ok()
    ensures var q := p.Receive(msg);
            && q.waiting.None? && q.InRange(p.waiting.value, MSG_SIZE)
            && Decode(q.Read(p.waiting.value, MSG_SIZE)) == msg
  {
    hide Encode, Decode;
    var w := p.Write(p.waiting.value, Encode(msg));
    MessageReads(p, p.waiting.value, msg);
    assert p.Receive(msg).Read(p.waiting.value, MSG_SIZE) == w.Read(p.waiting.value, MSG_SIZE);
  }

  // ---- one step ------------------------------------------------------------

  /** The mailbox before and what is accepted are what is received and the mailbox after, in that order. */
  ghost predicate Conserved(a: AState, s: Step, out: Output, a': AState, d: int) {
    InBox(a, d) + Accepted(a, s, out, d) == Received(a, s, out, a', d) + InBox(a', d)
  }

  lemma SendConserves(a: AState, s: Step, out: Output, a': AState, d: int)
    requires s.Send? && Orderly(a) && a.running in a.procs && ASend(a, s.ptr, out, a')
    ensures Conserved(a, s, out, a', d)
  {
    hide Decode, Encode;
    var me := a.procs[a.running];
    if s.ptr != 0 && me.InRange(s.ptr, MSG_SIZE) {
      var msg := Decode(me.Read(s.ptr, MSG_SIZE));
      var stamped := msg.(src := a.running);
      assert stamped.Ok();
      if msg.dst in a.live && msg.dst in a.procs && a.procs[msg.dst].waiting.Some? {
        ReceiveReads(a.procs[msg.dst], stamped);
      }
    }
  }

  lemma RecvConserves(a: AState, s: Step, out: Output, a': AState, d: int)
    requires s.Recv? && Orderly(a) && a.running in a.procs && ARecv(a, s.ptr, s.frame, out, a')
    ensures Conserved(a, s, out, a', d)
  {
    hide Decode, Encode;
    var me := a.procs[a.running];
    if s.ptr != 0 && me.InRange(s.ptr, MSG_SIZE) && a.running in a.box && |a.box[a.running]| == 1 {
      MessageReads(me, s.ptr, a.box[a.running][0]);
    }
  }

  lemma StepConserves(a: AState, s: Step, out: Output, a': AState, d: int)
    requires Orderly(a) && Orderly(a') && AStep(a, s, out, a')
    ensures Conserved(a, s, out, a', d)
  {
    match s
    case Send(ptr) => SendConserves(a, s, out, a', d);
    case Recv(ptr, frame) => RecvConserves(a, s, out, a', d);
    case _ => hide Decode, Encode, ProgramImage;
  }

  // ---- whole runs ----------------------------------------------------------

  /** Everything accepted for `d` in the first `n` steps, oldest first. */
  ghost function AcceptedLog(t: seq<AState>, steps: seq<Step>, outs: seq<Output>, d: int, n: nat): seq<Message>
    requires n <= |steps| && |t| == |steps| + 1 && |outs| == |steps|
    decreases n
  {
    if n == 0 then [] else AcceptedLog(t, steps, outs, d, n - 1) + Accepted(t[n - 1], steps[n - 1], outs[n - 1], d)
  }

  /** Everything `d` received in the first `n` steps, oldest first. */
  ghost function ReceivedLog(t: seq<AState>, steps: seq<Step>, outs: seq<Output>, d: int, n: nat): seq<Message>
    requires n <= |steps| && |t| == |steps| + 1 && |outs| == |steps|
    decreases n
  {
    if n == 0 then []
    else ReceivedLog(t, steps, outs, d, n - 1) + Received(t[n - 1], steps[n - 1], outs[n - 1], t[n], d)
  }

  lemma {:induction false} LogsConserve(t: seq<AState>, steps: seq<Step>, outs: seq<Output>, d: int, n: nat)
    requires ARun(t, steps, outs) && n <= |steps| && forall m :: 0 <= m <= |steps| ==> Orderly(t[m])
    ensures InBox(t[0], d) + AcceptedLog(t, steps, outs, d, n) == ReceivedLog(t, steps, outs, d, n) + InBox(t[n], d)
    decreases n
  {
    hide AStep, Orderly, InBox, Accepted, Received;
    if n > 0 {
      LogsConserve(t, steps, outs, d, n - 1);
      assert AStep(t[n - 1], steps[n - 1], outs[n - 1], t[n]);
      StepConserves(t[n - 1], steps[n - 1], outs[n - 1], t[n], d);
      Rebracket(InBox(t[0], d), AcceptedLog(t, steps, outs, d, n - 1), ReceivedLog(t, steps, outs, d, n - 1),
                InBox(t[n - 1], d), Accepted(t[n - 1], steps[n - 1], outs[n - 1], d),
                Received(t[n - 1], steps[n - 1], outs[n - 1], t[n], d), InBox(t[n], d));
    }
  }

  lemma Rebracket<T>(i: seq<T>, a: seq<T>, r: seq<T>, b: seq<T>, acc: seq<T>, rec: seq<T>, b': seq<T>)
    requires i + a == r + b && b + acc == rec + b'
    ensures i + (a + acc) == (r + rec) + b'
  {
    assert i + (a + acc) == (i + a) + acc;
    assert (r + b) + acc == r + (b + acc);
    assert r + (rec + b') == (r + rec) + b';
  }

  /**
   * Over every run and for every destination: the message pending at the start, then all messages accepted,
   * are exactly the messages received, then the at most one pending at the end.
   */
  lemma RunIsFifo(k: Kernel, steps: seq<Step>, d: int)
    requires Inv(k) && CanRun(k, steps)
    ensures var t, outs, n := AbsTrace(k, steps), Outputs(k, steps), |steps|;
            && InBox(t[0], d) + AcceptedLog(t, steps, outs, d, n) == ReceivedLog(t, steps, outs, d, n) + InBox(t[n], d)
            && |InBox(t[n], d)| <= 1
  {
    InvParts(k);
    RunRefines(k, steps);
    var t := AbsTrace(k, steps);
    hide AStep, Inv, Abs, CoreInv, MessageInv, ARun, Trace, Outputs, AcceptedLog, ReceivedLog;
    forall m | 0 <= m <= |steps| ensures Orderly(t[m]) {
      TraceInv(k, steps, m);
      AbsOrderly(Trace(k, steps)[m]);
    }
    LogsConserve(t, steps, Outputs(k, steps), d, |steps|);
    assert Orderly(t[|steps|]);
  }

  /** A process blocked in receive can always be woken, by any message from whoever runs. */
  lemma BlockedWakes(k: Kernel, ptr: U32)
    requires Inv(k) && k.InUser() && BufferOk(k, ptr) && StateOf(k.b.p, MessageAt(k, ptr).dst) == Blocked
    ensures var d := MessageAt(k, ptr).dst;
            var (r, out) := SysSend(k, ptr);
            && out == Ret(0) && Inv(r) && k.Resident(d) && r.Resident(d) && ResidentOk(r, d)
            && StateOf(r.b.p, d) == Ready && r.b.t.slot[Tasks.FindTask(r.b.t, d)].state == Ready
            && r.ImageOf(d).context == k.ImageOf(d).context.(eax := 0)
            && Waiting(k.i, d).Some? && Waiting(r.i, d) == None
            && View(r, d).InRange(Waiting(k.i, d).value, MSG_SIZE)
            && Decode(View(r, d).Read(Waiting(k.i, d).value, MSG_SIZE)) == MessageAt(k, ptr).(src := k.ring3)
  {
    var msg := MessageAt(k, ptr);
    var d := msg.dst;
    var stamped := msg.(src := k.ring3, dst := d);
    InvParts(k);
    RunningPid(k);
    TableInv.FoundIsLive(k.b, d);
    DeliverWakes(k, d, stamped);
    var r := Deliver(k, d, stamped).0;
    assert SysSend(k, ptr) == (r, Ret(0));
    assert stamped.Ok() && stamped == msg.(src := k.ring3);
    WokenKeeps(k, r, d, stamped);
    WokenView(k, r, d, stamped);
    TableInv.FoundIsLive(r.b, d);
    hide SysSend, Deliver, Encode, Decode, CoreInv, Inv, MessageInv, Find, FindWaiter, MessageAt, StateOf, Woken, View;
    ReceiveReads(View(k, d), stamped);
  }
}
