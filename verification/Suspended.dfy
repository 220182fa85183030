// What a process finds when it runs again.

module Suspended {
  import opened Bytes
  import opened Procs
  import opened Elf
  import opened Images
  import opened Ipc
  import opened Kernel
  import opened KernelInv
  import opened Private
  import opened Safety
  import opened Refine

  /** `q` is `p` untouched, or `p` with one message received into the buffer it was waiting on. */
  ghost predicate OnlyReceived(p: AProc, q: AProc) {
    || q == p
    || (&& p.waiting.Some? && p.saved.Some? && p.InRange(p.waiting.value, MSG_SIZE)
        && exists msg :: q == p.Receive(msg))
  }

  lemma StepOnlyReceives(a: AState, s: Step, out: Output, a': AState, pid: int)
    requires AStep(a, s, out, a') && pid in a.procs && pid != a.running && pid != a'.running
    ensures pid in a'.procs && OnlyReceived(a.procs[pid], a'.procs[pid])
  {
    hide Encode, Decode, ProgramImage;
    if s.Send? {
      SendOnlyReceives(a, s.ptr, out, a', pid);
    }
    hide ASend;
  }

  lemma SendOnlyReceives(a: AState, ptr: U32, out: Output, a': AState, pid: int)
    requires a.running in a.procs && ASend(a, ptr, out, a') && pid in a.procs && pid != a.running
    ensures pid in a'.procs && OnlyReceived(a.procs[pid], a'.procs[pid])
  {
    hide Encode, Decode;
    if a' != a && a'.box == a.box && ptr != 0 && a.procs[a.running].InRange(ptr, MSG_SIZE) {
      var stamped := Decode(a.procs[a.running].Read(ptr, MSG_SIZE)).(src := a.running);
      assert a'.procs[pid] == a.procs[pid] || a'.procs[pid] == a.procs[pid].Receive(stamped);
    }
  }

  lemma OnlyReceivedTwice(p: AProc, q: AProc, r: AProc)
    requires OnlyReceived(p, q) && OnlyReceived(q, r)
    ensures OnlyReceived(p, r)
  {
    hide Encode;
  }

  lemma {:induction false} RunOnlyReceives(trace: seq<AState>, steps: seq<Step>, outs: seq<Output>, pid: int, n: nat)
    requires ARun(trace, steps, outs) && n <= |steps| && pid in trace[0].procs
    requires forall m :: 0 <= m <= |steps| ==> trace[m].running != pid
    ensures pid in trace[n].procs && OnlyReceived(trace[0].procs[pid], trace[n].procs[pid])
    decreases n
  {
    hide AStep, OnlyReceived;
    if n > 0 {
      RunOnlyReceives(trace, steps, outs, pid, n - 1);
      assert AStep(trace[n - 1], steps[n - 1], outs[n - 1], trace[n]);
      StepOnlyReceives(trace[n - 1], steps[n - 1], outs[n - 1], trace[n], pid);
      OnlyReceivedTwice(trace[0].procs[pid], trace[n - 1].procs[pid], trace[n].procs[pid]);
    } else {
      assert OnlyReceived(trace[0].procs[pid], trace[0].procs[pid]) by {
        Untouched(trace[0].procs[pid]);
      }
    }
  }

  lemma Untouched(p: AProc)
    ensures OnlyReceived(p, p)
  {
  }

  /**
   * However long other processes run in between, a suspended process keeps its image, its stack and its
   * registers, changed at most by one message received into the buffer it blocked on.
   */
  lemma SuspendedKeepsMemory(k: Kernel, steps: seq<Step>, pid: int)
    requires Inv(k) && CanRun(k, steps) && k.Resident(pid)
    requires forall n :: 0 <= n <= |steps| ==> Trace(k, steps)[n].ring3 != pid
    ensures var r := Run(k, steps);
            && ResidentOk(k, pid) && r.Resident(pid) && ResidentOk(r, pid)
            && OnlyReceived(View(k, pid), View(r, pid))
  {
    RunKeeps(k, steps);
    InvParts(k);
    InvParts(Run(k, steps));
    AbsAt(k, pid);
    AbsAt(Run(k, steps), pid);
    TraceEnds(k, steps, pid);
    hide *;
    RunRefines(k, steps);
    RunOnlyReceives(AbsTrace(k, steps), steps, Outputs(k, steps), pid, |steps|);
  }

  lemma TraceEnds(k: Kernel, steps: seq<Step>, pid: int)
    requires Inv(k) && k.Shape() && CanRun(k, steps) && CoreInv(k) && CoreInv(Run(k, steps))
    ensures AbsTrace(k, steps)[0] == Abs(k) && AbsTrace(k, steps)[|steps|] == Abs(Run(k, steps))
    ensures (forall n :: 0 <= n <= |steps| ==> Trace(k, steps)[n].ring3 != pid) ==>
              forall m :: 0 <= m <= |steps| ==> AbsTrace(k, steps)[m].running != pid
  {
    hide View, Inv, CoreInv, MessageInv, Run, Trace, AbsBox;
  }

  /** Resumed, it runs from exactly that image, that stack and those registers. */
  lemma ResumeRestores(k: Kernel, pid: int)
    requires Inv(k) && k.ring3 == 0 && pid > 0 && Resumable(k.b.p, pid) && StateOf(k.b.p, pid) != Blocked
    ensures k.Resident(pid) && ResidentOk(k, pid)
    ensures var (r, out) := ResumeNamed(k, pid);
            && CoreInv(r) && r.ring3 == pid && r.Resident(pid)
            && out == Resumed(pid, k.ImageOf(pid).context)
            && Window(r.m, r.ImageOf(pid)) == View(k, pid).image && Stack(r.m, r.ImageOf(pid)) == View(k, pid).stack
  {
    InvParts(k);
    assert k.Resident(pid);
    ResumeStep(k, pid);
    var (r, out) := ResumeNamed(k, pid);
    AbsAt(k, pid);
    AbsAt(r, pid);
    assert ResidentOk(k, pid);
    hide Find, CoreInv, Inv, MessageInv, ResumeNamed;
  }

  // ---- pids ----------------------------------------------------------------

  lemma StepIssues(a: AState, s: Step, out: Output, a': AState)
    requires AStep(a, s, out, a')
    ensures a.last <= a'.last && (out.Started? ==> a.last < out.pid == a'.last)
  {
    hide Encode, Decode, ProgramImage;
  }

  lemma {:induction false} LastGrows(trace: seq<AState>, steps: seq<Step>, outs: seq<Output>, i: nat, j: nat)
    requires ARun(trace, steps, outs) && i <= j < |trace|
    ensures trace[i].last <= trace[j].last
    decreases j
  {
    if i < j {
      hide AStep;
      StepIssues(trace[j - 1], steps[j - 1], outs[j - 1], trace[j]);
      LastGrows(trace, steps, outs, i, j - 1);
    }
  }

  lemma LaterIsGreater(trace: seq<AState>, steps: seq<Step>, outs: seq<Output>, i: nat, j: nat)
    requires ARun(trace, steps, outs) && i < j < |steps| && outs[i].Started? && outs[j].Started?
    ensures outs[i].pid < outs[j].pid
  {
    StepIssues(trace[i], steps[i], outs[i], trace[i + 1]);
    StepIssues(trace[j], steps[j], outs[j], trace[j + 1]);
    hide *;
    LastGrows(trace, steps, outs, i + 1, j);
  }

  /** No pid is issued twice in a run: whoever starts later has the greater one. */
  lemma NeverReissued(k: Kernel, steps: seq<Step>, i: nat, j: nat)
    requires Inv(k) && k.Shape() && CanRun(k, steps) && i < j < |steps|
    requires Outputs(k, steps)[i].Started? && Outputs(k, steps)[j].Started?
    ensures Outputs(k, steps)[i].pid < Outputs(k, steps)[j].pid
  {
    hide *;
    RunRefines(k, steps);
    LaterIsGreater(AbsTrace(k, steps), steps, Outputs(k, steps), i, j);
  }
}
