// The kernel with one private memory per process: what the shared image region, the snapshots, the
// stack slots, the waiters and the mailboxes add up to, and how each step looks from there.

module Private {
  import opened Bytes
  import opened Procs
  import opened Elf
  import opened Args
  import opened Images
  import opened Ipc
  import opened Kernel

  /** A process as it sees itself: its image, its stack, and when it is not running its saved registers. */
  datatype AProc = AProc(base: U32, image: seq<Byte>, stackBase: U32, stack: seq<Byte>,
                         saved: Option<Context>, waiting: Option<U32>) {
    predicate InImage(ptr: U32, n: nat) {
      base <= ptr && ptr + n <= base + |image|
    }
    predicate InStack(ptr: U32, n: nat) {
      stackBase <= ptr && ptr + n <= stackBase + |stack|
    }
    predicate InRange(ptr: U32, n: nat) {
      InImage(ptr, n) || InStack(ptr, n)
    }
    function Read(ptr: U32, n: nat): (r: seq<Byte>)
      requires InRange(ptr, n)
      ensures |r| == n
    {
      if InImage(ptr, n) then image[ptr - base..ptr - base + n]
      else stack[ptr - stackBase..ptr - stackBase + n]
    }
    function Write(ptr: U32, d: seq<Byte>): AProc
      requires InRange(ptr, |d|)
    {
      if InImage(ptr, |d|) then this.(image := Blit(image, ptr - base, d))
      else this.(stack := Blit(stack, ptr - stackBase, d))
    }
    /** The process with a message in its buffer, no longer waiting, its receive returning 0. */
    function Receive(msg: Message): AProc
      requires waiting.Some? && saved.Some? && InRange(waiting.value, MSG_SIZE)
    {
      Write(waiting.value, Encode(msg)).(waiting := None, saved := Some(saved.value.(eax := 0)))
    }
  }

  /** Process memories, live pids, the pid in user mode, the mailboxes claimed so far, and the last pid issued. */
  datatype AState = AState(procs: imap<int, AProc>, live: iset<int>, running: int, box: map<int, seq<Message>>,
                           last: int)

  /** A step on private memories.  `live` decides who can be sent to; 32 mailboxes are ever claimed. */
  ghost predicate AStep(a: AState, s: Step, out: Output, a': AState) {
    match s
    case Exec(prog, args) => AExec(a, prog, args, out, a')
    case ResumeNext => AResume(a, out, a')
    case ResumePid(pid) => AResume(a, out, a') && (out.Resumed? ==> out.pid == pid)
    case Compute(w, st) =>
      a.running in a.procs && out == Done && a' == a.(procs := a.procs[a.running := a.procs[a.running].(image := w, stack := st)])
    case Send(ptr) => a.running in a.procs && ASend(a, ptr, out, a')
    case Recv(ptr, frame) => a.running in a.procs && ARecv(a, ptr, frame, out, a')
    case Yield(frame) =>
      && a.running in a.procs && out == Done
      && a' == a.(running := 0, procs := a.procs[a.running := a.procs[a.running].(saved := Some(frame.(eax := 0)))])
    case Exit(_) =>
      && out == Done
      && a' == a.(running := 0, procs := imap p | p in a.procs && p != a.running :: a.procs[p], live := a.live - iset{a.running})
    case Tick => out == Done && a' == a
  }

  /**
   * Nothing, but that a pid may be spent; or a process with the next pid, which nobody has had before and nobody has
   * written to, whose image is the program's, whose stack holds the arguments, and which runs from the program's entry.
   */
  ghost predicate AExec(a: AState, prog: Program, args: seq<seq<Byte>>, out: Output, a': AState) {
    || (out == Failed && a.last <= a'.last <= a.last + 1 && a' == a.(last := a'.last))
    || (&& out.Started? && prog.Ok() && out.pid == a.last + 1 && out.pid in a'.procs && out.eip == prog.plan.entry
        && out.pid !in a.live && out.pid !in a.procs && out.pid !in a.box
        && a' == a.(running := out.pid, last := out.pid, live := a.live + iset{out.pid},
                    procs := a.procs[out.pid := a'.procs[out.pid]])
        && var f := a'.procs[out.pid];
           && f.base == prog.plan.base && f.image == ProgramImage(prog) && f.waiting == None && f.saved == None
           && |f.stack| == STACK_SIZE
           && ((forall x <- args :: NulFree(x)) ==>
                Args.Readable(f.stack, f.stackBase, out.sp) && ReadArgs(f.stack, f.stackBase, out.sp) == Clip(args)))
  }

  ghost function ProgramImage(prog: Program): seq<Byte>
    requires prog.Ok()
  {
    LoadSegments(Zeros(IMAGE_MAX), prog.plan.segs, prog.file)
      [prog.plan.base - IMAGE_BASE..prog.plan.base - IMAGE_BASE + prog.plan.size]
  }

  /** Nothing, or a process that does not wait runs again, from its own memory and its own registers. */
  ghost predicate AResume(a: AState, out: Output, a': AState) {
    || (out == Failed && a' == a)
    || (&& out.Resumed? && out.pid in a.procs && a.procs[out.pid].waiting == None
        && a.procs[out.pid].saved == Some(out.context)
        && a' == a.(running := out.pid, procs := a.procs[out.pid := a.procs[out.pid].(saved := None)]))
  }

  ghost predicate ASend(a: AState, ptr: U32, out: Output, a': AState)
    requires a.running in a.procs
  {
    var me := a.procs[a.running];
    if ptr == 0 || !me.InRange(ptr, MSG_SIZE) then out == Ret(ERR_FAULT) && a' == a
    else
      var msg := Decode(me.Read(ptr, MSG_SIZE));
      var stamped := msg.(src := a.running);
      if msg.dst !in a.live then out == Ret(ERR_AGAIN) && a' == a
      else if msg.dst in a.procs && a.procs[msg.dst].waiting.Some? then
        && out == Ret(0) && a.procs[msg.dst].saved.Some? && a.procs[msg.dst].InRange(a.procs[msg.dst].waiting.value, MSG_SIZE)
        && a' == a.(procs := a.procs[msg.dst := a.procs[msg.dst].Receive(stamped)])
      else if msg.dst in a.box && a.box[msg.dst] != [] then out == Ret(ERR_AGAIN) && a' == a
      else if msg.dst in a.box || |a.box| < BOXES then out == Ret(0) && a' == a.(box := a.box[msg.dst := [stamped]])
      else out == Ret(ERR_AGAIN) && a' == a
  }

  ghost predicate ARecv(a: AState, ptr: U32, frame: Context, out: Output, a': AState)
    requires a.running in a.procs
  {
    var me := a.procs[a.running];
    if ptr == 0 || !me.InRange(ptr, MSG_SIZE) then out == Ret(ERR_FAULT) && a' == a
    else if a.running in a.box && |a.box[a.running]| == 1 then
      && out == Ret(0)
      && a' == a.(procs := a.procs[a.running := me.Write(ptr, Encode(a.box[a.running][0]))], box := a.box[a.running := []])
    else
      && out == Done
      && a' == a.(running := 0, procs := a.procs[a.running := me.(waiting := Some(ptr), saved := Some(frame.(eax := 0)))])
  }
}
