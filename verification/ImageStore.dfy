// The image region, the snapshots and the stacks as the kernel keeps them: byte arrays copied by loops (kernel/elf.c).

module ImageStore {
  import opened Bytes
  import opened Procs
  import opened Elf
  import opened Args
  import opened Images
  import opened ProcTable

  /** The copy loops between two different buffers. */
  method CopyBytes(dst: array<Byte>, at: nat, src: array<Byte>, from: nat, n: nat)
    requires at + n <= dst.Length && from + n <= src.Length && dst != src
    modifies dst
    ensures dst[..] == Blit(old(dst[..]), at, src[from..from + n])
  {
    var i := 0;
    while i < n
      invariant i <= n
      invariant forall j :: 0 <= j < dst.Length ==>
                  dst[j] == if at <= j < at + i then src[from + (j - at)] else old(dst[j])
    {
      dst[at + i] := src[from + i];
      i := i + 1;
    }
  }

  method StoreBytes(dst: array<Byte>, at: nat, d: seq<Byte>)
    requires at + |d| <= dst.Length
    modifies dst
    ensures dst[..] == Blit(old(dst[..]), at, d)
  {
    var i := 0;
    while i < |d|
      invariant i <= |d|
      invariant forall j :: 0 <= j < dst.Length ==> dst[j] == if at <= j < at + i then d[j - at] else old(dst[j])
    {
      dst[at + i] := d[i];
      i := i + 1;
    }
  }

  /** Snapshot `i` of the two-dimensional array that holds them all. */
  function SnapshotAt(images: seq<Byte>, i: nat): (r: seq<Byte>)
    requires |images| == SLOTS * IMAGE_MAX && i < SLOTS
    ensures |r| == IMAGE_MAX
  {
    images[i * IMAGE_MAX..(i + 1) * IMAGE_MAX]
  }

  function Snapshots(images: seq<Byte>): (r: seq<seq<Byte>>)
    requires |images| == SLOTS * IMAGE_MAX
    ensures |r| == SLOTS && forall i :: 0 <= i < SLOTS ==> r[i] == SnapshotAt(images, i)
  {
    seq(SLOTS, i requires 0 <= i < SLOTS => SnapshotAt(images, i))
  }

  /** Bytes written inside one snapshot change that one only. */
  lemma SnapshotWritten(images: seq<Byte>, slot: nat, at: nat, d: seq<Byte>)
    requires |images| == SLOTS * IMAGE_MAX && slot < SLOTS && at + |d| <= IMAGE_MAX
    ensures Snapshots(Blit(images, slot * IMAGE_MAX + at, d))
            == Snapshots(images)[slot := Blit(SnapshotAt(images, slot), at, d)]
  {
    var r := Blit(images, slot * IMAGE_MAX + at, d);
    forall i | 0 <= i < SLOTS
      ensures SnapshotAt(r, i) == if i == slot then Blit(SnapshotAt(images, slot), at, d) else SnapshotAt(images, i)
    {
      if i == slot {
        BlitInside(images, slot * IMAGE_MAX + at, d, slot * IMAGE_MAX, (slot + 1) * IMAGE_MAX);
      } else {
        BlitFrame(images, slot * IMAGE_MAX + at, d, i * IMAGE_MAX, (i + 1) * IMAGE_MAX);
      }
    }
  }

  class Store {
    const owner: array<int>
    const images: array<Byte>
    const stacks: array<Byte>
    const region: array<Byte>
    const stacksBase: U32

    ghost predicate Valid()
      reads this
    {
      && owner.Length == SLOTS && images.Length == SLOTS * IMAGE_MAX
      && stacks.Length == SLOTS * STACK_SIZE && region.Length == IMAGE_MAX
      && 0 < stacksBase && stacksBase + SLOTS * STACK_SIZE <= IMAGE_BASE
      && stacks != region && images != region && images != stacks
    }

    ghost function State(): (m: Mem)
      requires Valid()
      reads this, owner, images, stacks, region
      ensures m.Shape()
    {
      Mem(owner[..], Snapshots(images[..]), stacks[..], region[..], stacksBase)
    }

    constructor (stacksAt: U32)
      requires 0 < stacksAt && stacksAt + SLOTS * STACK_SIZE <= IMAGE_BASE
      ensures Valid() && fresh(owner) && fresh(images) && fresh(stacks) && fresh(region)
      ensures stacksBase == stacksAt && State().owner == seq(SLOTS, i => -1)
    {
      owner := new int[SLOTS](i => -1);
      images := new Byte[SLOTS * IMAGE_MAX](i => 0);
      stacks := new Byte[SLOTS * STACK_SIZE](i => 0);
      region := new Byte[IMAGE_MAX](i => 0);
      stacksBase := stacksAt;
      new;
      assert owner[..] == seq(SLOTS, i => -1);
    }

    /** `elf_slot_for_pid`: the slot a pid owns, or else the first one nobody lives in. */
    method SlotForPid(procs: Processes, pid: int) returns (slot: int)
      requires Valid() && procs.Valid()
      modifies owner
      ensures (State(), slot) == Images.SlotForPid(old(State()), old(procs.State()), pid)
    {
      slot := OwnedSlot(pid);
      if slot >= 0 {
        return;
      }
      slot := 0;
      while slot < SLOTS
        invariant 0 <= slot <= SLOTS && owner[..] == old(owner[..])
        invariant forall j :: 0 <= j < slot ==> !(owner[j] < 0 || Procs.StateOf(procs.State(), owner[j]) == Unused)
      {
        var st := procs.StateOf(owner[slot]);
        if owner[slot] < 0 || st == Unused {
          assert slot == FreeSlot(State(), procs.State());
          owner[slot] := pid;
          assert owner[..] == old(owner[..])[slot := pid];
          return;
        }
        slot := slot + 1;
      }
      slot := -1;
    }

    method OwnedSlot(pid: int) returns (slot: int)
      requires Valid()
      ensures slot == OwnerSlot(State(), pid)
    {
      slot := 0;
      while slot < SLOTS
        invariant 0 <= slot <= SLOTS && forall j :: 0 <= j < slot ==> owner[j] != pid
      {
        if owner[slot] == pid {
          return;
        }
        slot := slot + 1;
      }
      slot := -1;
    }

    /** `elf_snapshot_image`. */
    method SnapshotImage(procs: Processes, pid: int, im: Image) returns (ok: bool)
      requires Valid() && procs.Valid() && Fits(State(), im)
      modifies owner, images
      ensures (State(), ok) == Snapshot(old(State()), old(procs.State()), pid, im)
    {
      var slot := SlotForPid(procs, pid);
      if slot < 0 {
        return false;
      }
      ghost var before := images[..];
      CopyBytes(images, slot * IMAGE_MAX, region, im.base - IMAGE_BASE, im.size);
      SnapshotWritten(before, slot, 0, region[im.base - IMAGE_BASE..im.base - IMAGE_BASE + im.size]);
      ok := true;
    }

    /** `elf_resume_image`: the region zeroed, then the snapshot copied back. */
    method ResumeImage(procs: Processes, pid: int, im: Image) returns (ok: bool)
      requires Valid() && procs.Valid() && Fits(State(), im)
      modifies owner, region
      ensures (State(), ok) == Restore(old(State()), old(procs.State()), pid, im)
    {
      var slot := SlotForPid(procs, pid);
      if slot < 0 {
        return false;
      }
      ZeroRegion();
      CopyBytes(region, im.base - IMAGE_BASE, images, slot * IMAGE_MAX, im.size);
      SubSlice(images[..], slot * IMAGE_MAX, (slot + 1) * IMAGE_MAX, 0, im.size);
      assert SnapshotAt(images[..], slot)[..im.size] == images[slot * IMAGE_MAX..slot * IMAGE_MAX + im.size];
      ok := true;
    }

    method ZeroRegion()
      requires Valid()
      modifies region
      ensures region[..] == Zeros(IMAGE_MAX)
    {
      var i := 0;
      while i < IMAGE_MAX
        invariant 0 <= i <= IMAGE_MAX && forall j :: 0 <= j < i ==> region[j] == 0
      {
        region[i] := 0;
        i := i + 1;
      }
    }

    /** `elf_write_to_task_memory`: into the snapshot if the range lies in the image, into the stack if in the stack. */
    method WriteToTaskMemory(procs: Processes, pid: int, im: Image, dst: U32, d: seq<Byte>) returns (ok: bool)
      requires Valid() && procs.Valid() && Fits(State(), im) && 0 < |d| < WORD
      modifies owner, images, stacks
      ensures (State(), ok) == WriteToTask(old(State()), old(procs.State()), pid, im, dst, d)
    {
      RangesAgree(im.base, im.size, dst, |d|);
      RangesAgree(im.stackBase, im.stackSize, dst, |d|);
      var slot := SlotForPid(procs, pid);
      if slot < 0 {
        return false;
      }
      if WriteRange(im.base, im.size, dst, |d|) {
        ghost var before := images[..];
        StoreBytes(images, slot * IMAGE_MAX + (dst - im.base), d);
        SnapshotWritten(before, slot, dst - im.base, d);
        return true;
      }
      if WriteRange(im.stackBase, im.stackSize, dst, |d|) {
        StoreBytes(stacks, dst - stacksBase, d);
        return true;
      }
      ok := false;
    }

    /** `elf_load_from_plan`: a slot, then the program's bytes in the zeroed region. */
    method LoadFromPlan(procs: Processes, pid: int, plan: Plan, file: seq<Byte>) returns (im: Option<Image>)
      requires Valid() && procs.Valid() && Program(plan, file).Ok()
      modifies owner, region
      ensures (State(), im) == Load(old(State()), old(procs.State()), pid, Program(plan, file))
    {
      var slot := SlotForPid(procs, pid);
      if slot < 0 {
        return None;
      }
      LoadInPlace(region, plan.segs, file);
      im := Some(Image(true, plan.entry, plan.base, plan.size, stacksBase + slot * STACK_SIZE, STACK_SIZE, false, NO_CONTEXT));
    }

    /** The arguments on the image's stack; the slot is worked on as a buffer of its own. */
    method LayOutArguments(im: Image, args: seq<seq<Byte>>) returns (ok: bool, sp: int)
      requires Valid() && Fits(State(), im)
      modifies stacks
      ensures var r := LayOut(Stack(old(State()), im), im.stackBase, args);
              State() == WithStack(old(State()), im, r.mem) && ok == r.ok && sp == r.sp
    {
      var at := im.stackBase - stacksBase;
      var s := new Byte[STACK_SIZE](i requires 0 <= i < STACK_SIZE && at + STACK_SIZE <= stacks.Length reads stacks => stacks[at + i]);
      assert s[..] == Stack(State(), im);
      ok, sp := LayOutInPlace(s, im.stackBase, args);
      StoreBytes(stacks, at, s[..]);
    }

    /** A user pointer of the running process, followed. */
    method ReadUser(im: Image, ptr: U32, len: U32) returns (d: seq<Byte>)
      requires Valid() && Fits(State(), im) && 0 < len && Validate(im, ptr, len)
      ensures d == ReadLive(State(), im, ptr, len)
    {
      RangesAgree(im.base, im.size, ptr, len);
      RangesAgree(im.stackBase, im.stackSize, ptr, len);
      if RangeContains(im.base, im.size, ptr, len) {
        d := region[ptr - IMAGE_BASE..ptr - IMAGE_BASE + len];
      } else {
        d := stacks[ptr - stacksBase..ptr - stacksBase + len];
      }
    }

    method WriteUser(im: Image, ptr: U32, d: seq<Byte>)
      requires Valid() && Fits(State(), im) && 0 < |d| < WORD && Validate(im, ptr, |d|)
      modifies region, stacks
      ensures State() == WriteLive(old(State()), im, ptr, d)
    {
      RangesAgree(im.base, im.size, ptr, |d|);
      RangesAgree(im.stackBase, im.stackSize, ptr, |d|);
      if RangeContains(im.base, im.size, ptr, |d|) {
        StoreBytes(region, ptr - IMAGE_BASE, d);
      } else {
        StoreBytes(stacks, ptr - stacksBase, d);
      }
    }
  }
}
