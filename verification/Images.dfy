// The one user image region and the per-slot snapshots and stacks (kernel/elf.c).

module Images {
  import opened Bytes
  import opened Procs
  import opened Elf

  const SLOTS := 8
  const STACK_SIZE := 4096

  /** `stacksBase` is the address of `user_stacks`, a static array below the image region. */
  datatype Mem = Mem(owner: seq<int>, snapshot: seq<seq<Byte>>, stacks: seq<Byte>, region: seq<Byte>, stacksBase: U32) {
    ghost predicate Shape() {
      && |owner| == SLOTS && |snapshot| == SLOTS && (forall i :: 0 <= i < SLOTS ==> |snapshot[i]| == IMAGE_MAX)
      && |stacks| == SLOTS * STACK_SIZE && |region| == IMAGE_MAX
      && 0 < stacksBase && stacksBase + SLOTS * STACK_SIZE <= IMAGE_BASE
    }
  }

  function OwnerSlot(m: Mem, pid: int): (r: int)
    ensures r < |m.owner|
  {
    FirstIndex(m.owner, (o: int) => o == pid)
  }

  /** A slot nobody owns, or whose owner has been reaped. */
  function FreeSlot(m: Mem, p: Table): (r: int)
    ensures r < |m.owner|
  {
    FirstIndex(m.owner, (o: int) => o < 0 || StateOf(p, o) == Unused)
  }

  /** `elf_slot_for_pid`: the slot of `pid`, claimed if it has none, or -1. */
  function SlotForPid(m: Mem, p: Table, pid: int): (r: (Mem, int))
    requires m.Shape()
    ensures r.0.Shape() && r.1 < SLOTS && r.0.stacksBase == m.stacksBase
  {
    if OwnerSlot(m, pid) >= 0 then (m, OwnerSlot(m, pid))
    else
      var j := FreeSlot(m, p);
      if j < 0 then (m, -1) else (m.(owner := m.owner[j := pid]), j)
  }

  /** An image whose window lies in the region and whose stack is one of the stack slots. */
  ghost predicate Fits(m: Mem, im: Image)
    requires m.Shape()
  {
    && im.loaded && 0 < im.size
    && IMAGE_BASE <= im.base && im.base + im.size <= IMAGE_END
    && m.stacksBase <= im.stackBase && im.stackSize == STACK_SIZE
    && im.stackBase + STACK_SIZE <= m.stacksBase + SLOTS * STACK_SIZE
  }

  function StackBase(m: Mem, slot: int): (r: U32)
    requires m.Shape() && 0 <= slot < SLOTS
    ensures m.stacksBase <= r && r + STACK_SIZE <= m.stacksBase + SLOTS * STACK_SIZE
  {
    m.stacksBase + slot * STACK_SIZE
  }

  /** The bytes of the region that belong to an image. */
  function Window(m: Mem, im: Image): (w: seq<Byte>)
    requires m.Shape() && Fits(m, im)
    ensures |w| == im.size
  {
    m.region[im.base - IMAGE_BASE..im.base - IMAGE_BASE + im.size]
  }

  function Stack(m: Mem, im: Image): (w: seq<Byte>)
    requires m.Shape() && Fits(m, im)
    ensures |w| == STACK_SIZE
  {
    m.stacks[im.stackBase - m.stacksBase..im.stackBase - m.stacksBase + STACK_SIZE]
  }

  function WithStack(m: Mem, im: Image, s: seq<Byte>): (r: Mem)
    requires m.Shape() && Fits(m, im) && |s| == STACK_SIZE
    ensures r.Shape() && r.stacksBase == m.stacksBase
  {
    m.(stacks := Blit(m.stacks, im.stackBase - m.stacksBase, s))
  }

  function WithWindow(m: Mem, im: Image, w: seq<Byte>): (r: Mem)
    requires m.Shape() && Fits(m, im) && |w| == im.size
    ensures r.Shape() && r.stacksBase == m.stacksBase
  {
    m.(region := Blit(m.region, im.base - IMAGE_BASE, w))
  }

  // ---- load, snapshot, resume ----------------------------------------------

  /** A planned program: what `exec` has read and checked before it creates a process. */
  datatype Program = Program(plan: Plan, file: seq<Byte>) {
    ghost predicate Ok() {
      && Loadable(plan.segs, file) && 0 < plan.size
      && IMAGE_BASE <= plan.base && plan.base + plan.size <= IMAGE_END
      && forall k :: 0 <= k < |plan.segs| ==>
           plan.base <= plan.segs[k].vaddr && plan.segs[k].vaddr + plan.segs[k].memsz <= plan.base + plan.size
    }
  }

  /** A planned file is a program the loader may copy, exactly when none of its segments' sums wraps. */
  lemma PlannedProgram(s: Source)
    requires |s.file| < WORD && Prepare(s).Some?
    ensures Program(Prepare(s).value, s.file).Ok() <==> forall g <- Prepare(s).value.segs :: g.NoWrap()
  {
    var hs, entry := Headers(s), s.Word(24);
    PlanOk(hs, entry, |s.file|);
    PlannedIsLoadable(hs, entry, s.file);
    AcceptedInsideRegion(hs, entry, |s.file|);
  }

  function NewImage(m: Mem, plan: Plan, slot: int): Image
    requires m.Shape() && 0 <= slot < SLOTS
  {
    Image(true, plan.entry, plan.base, plan.size, StackBase(m, slot), STACK_SIZE, false, NO_CONTEXT)
  }

  /** `elf_load_from_plan`: a slot for `pid`, and the program's bytes in the zeroed region. */
  ghost function Load(m: Mem, p: Table, pid: int, prog: Program): (r: (Mem, Option<Image>))
    requires m.Shape() && prog.Ok()
    ensures r.0.Shape() && r.0.stacksBase == m.stacksBase && (r.1.Some? ==> Fits(r.0, r.1.value))
  {
    var (m1, slot) := SlotForPid(m, p, pid);
    if slot < 0 then (m1, None)
    else
      var m2 := m1.(region := LoadSegments(Zeros(IMAGE_MAX), prog.plan.segs, prog.file));
      (m2, Some(NewImage(m2, prog.plan, slot)))
  }

  /** `elf_snapshot_image`: the window copied to the slot of `pid`. */
  ghost function Snapshot(m: Mem, p: Table, pid: int, im: Image): (r: (Mem, bool))
    requires m.Shape() && Fits(m, im)
    ensures r.0.Shape() && r.0.stacksBase == m.stacksBase
  {
    var (m1, slot) := SlotForPid(m, p, pid);
    if slot < 0 then (m1, false)
    else (m1.(snapshot := m1.snapshot[slot := Blit(m1.snapshot[slot], 0, Window(m, im))]), true)
  }

  /** `elf_resume_image`: the region zeroed and the snapshot copied back. */
  ghost function Restore(m: Mem, p: Table, pid: int, im: Image): (r: (Mem, bool))
    requires m.Shape() && Fits(m, im)
    ensures r.0.Shape() && r.0.stacksBase == m.stacksBase
  {
    var (m1, slot) := SlotForPid(m, p, pid);
    if slot < 0 then (m1, false)
    else (m1.(region := Blit(Zeros(IMAGE_MAX), im.base - IMAGE_BASE, m1.snapshot[slot][..im.size])), true)
  }

  // ---- user pointers -------------------------------------------------------

  /** `range_contains` (kernel/syscall.c), in wrapping 32-bit arithmetic. */
  function RangeContains(base: U32, size: U32, ptr: U32, len: U32): bool {
    if size == 0 || ptr < base then false
    else if len == 0 then ptr < Wrap(base + size)
    else if Wrap(ptr + len) < ptr then false
    else Wrap(ptr + len) <= Wrap(base + size)
  }

  /** `elf_write_to_task_memory` makes the same test in its own words. */
  function WriteRange(base: U32, size: U32, dst: U32, len: U32): bool {
    dst >= base && Wrap(dst + len) >= dst && Wrap(dst + len) <= Wrap(base + size)
  }

  lemma RangesAgree(base: U32, size: U32, ptr: U32, len: U32)
    requires base + size < WORD && 0 < len
    ensures RangeContains(base, size, ptr, len) <==> base <= ptr && ptr + len <= base + size
    ensures WriteRange(base, size, ptr, len) <==> base <= ptr && ptr + len <= base + size
  {
  }

  /** `validate_user_ptr` for the process with this image. */
  function Validate(im: Image, ptr: U32, len: U32): bool {
    RangeContains(im.base, im.size, ptr, len) || RangeContains(im.stackBase, im.stackSize, ptr, len)
  }

  /** A user pointer of the running process, dereferenced. */
  ghost function ReadLive(m: Mem, im: Image, ptr: U32, len: U32): (r: seq<Byte>)
    requires m.Shape() && Fits(m, im) && 0 < len && Validate(im, ptr, len)
    ensures |r| == len
  {
    RangesAgree(im.base, im.size, ptr, len);
    RangesAgree(im.stackBase, im.stackSize, ptr, len);
    if RangeContains(im.base, im.size, ptr, len) then m.region[ptr - IMAGE_BASE..ptr - IMAGE_BASE + len]
    else m.stacks[ptr - m.stacksBase..ptr - m.stacksBase + len]
  }

  ghost function WriteLive(m: Mem, im: Image, ptr: U32, d: seq<Byte>): (r: Mem)
    requires m.Shape() && Fits(m, im) && 0 < |d| < WORD && Validate(im, ptr, |d|)
    ensures r.Shape() && r.stacksBase == m.stacksBase
  {
    RangesAgree(im.base, im.size, ptr, |d|);
    RangesAgree(im.stackBase, im.stackSize, ptr, |d|);
    if RangeContains(im.base, im.size, ptr, |d|) then m.(region := Blit(m.region, ptr - IMAGE_BASE, d))
    else m.(stacks := Blit(m.stacks, ptr - m.stacksBase, d))
  }

  /** `elf_write_to_task_memory`: bytes into the snapshot or the stack of a process that is not running. */
  ghost function WriteToTask(m: Mem, p: Table, pid: int, im: Image, dst: U32, d: seq<Byte>): (r: (Mem, bool))
    requires m.Shape() && Fits(m, im) && 0 < |d| < WORD
    ensures r.0.Shape() && r.0.stacksBase == m.stacksBase
  {
    var (m1, slot) := SlotForPid(m, p, pid);
    RangesAgree(im.base, im.size, dst, |d|);
    RangesAgree(im.stackBase, im.stackSize, dst, |d|);
    if slot < 0 then (m1, false)
    else if WriteRange(im.base, im.size, dst, |d|)
    then (m1.(snapshot := m1.snapshot[slot := Blit(m1.snapshot[slot], dst - im.base, d)]), true)
    else if WriteRange(im.stackBase, im.stackSize, dst, |d|)
    then (m1.(stacks := Blit(m1.stacks, dst - m1.stacksBase, d)), true)
    else (m1, false)
  }
}
