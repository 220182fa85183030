// The descriptor table and the kernel's memory, updated in place by the calls' loops (kernel/syscall.c, kernel/vfs.c).

module FileTable {
  import opened Bytes
  import opened Paths
  import opened Heap
  import opened Tree
  import opened Resolve
  import opened Vfs
  import opened Volume
  import opened Files

  /** The doubling loop: it cannot wrap, and it ends. */
  method DoublingLoop(c: U32, needed: U32) returns (r: Option<U32>)
    requires c > 0
    ensures r == Doubled(c, needed)
  {
    var capacity: U32 := c;
    while capacity < needed
      invariant capacity > 0 && Doubled(capacity, needed) == Doubled(c, needed)
      decreases needed - capacity
    {
      if capacity > 0x7FFF_FFFF {
        return None;
      }
      capacity := capacity * 2;
    }
    r := Some(capacity);
  }

  class Descriptors {
    const disk: Store
    const mem: array<Byte>
    const fds: array<Option<Fd>>

    ghost predicate Valid()
      reads this
    {
      mem.Length == USER_BASE && fds.Length == MAX_FDS
    }

    function State(): (s: Sys)
      reads this, disk, disk.heap, mem, fds
    {
      Sys(disk.State(), mem[..], fds[..])
    }

    constructor (d: Store)
      requires FsOk(d.State()) && d.heap.State().ready && forall n <- d.nodes :: n.size == 0
      ensures Valid() && disk == d && fresh(mem) && fresh(fds)
      ensures State() == FirstSys(d.State()) && SysOk(State())
    {
      disk := d;
      mem := new Byte[USER_BASE](i => 0);
      fds := new Option<Fd>[MAX_FDS](i => None);
      new;
      assert mem[..] == Zeros(USER_BASE) && fds[..] == seq(MAX_FDS, i => None);
      FirstSysOk(d.State());
    }

    /** The byte loops that fill kernel memory. */
    method Fill(at: nat, b: seq<Byte>)
      requires Valid() && at + |b| <= USER_BASE
      modifies mem
      ensures mem[..] == Blit(old(mem[..]), at, b)
    {
      var i := 0;
      while i < |b|
        invariant 0 <= i <= |b|
        invariant forall j :: 0 <= j < USER_BASE ==> mem[j] == if at <= j < at + i then b[j - at] else old(mem[j])
      {
        mem[at + i] := b[i];
        i := i + 1;
      }
    }

    /** `fd_ensure_write_capacity` on a descriptor not yet put back in its slot. */
    method EnsureRoom(d: Fd, needed: U32) returns (r: Option<Fd>)
      requires Valid() && BufOk(disk.heap.State(), d) && disk.heap.State().Ok() && disk.heap.State().ready
      modifies disk.heap, mem
      ensures var e := EnsureCapacity(old(disk.heap.State()), old(mem[..]), d, needed);
              match r
              case None => e == None && mem[..] == old(mem[..]) && disk.heap.State() == old(disk.heap.State())
              case Some(d') => e == Some((disk.heap.State(), mem[..], d'))
    {
      if needed <= d.wcap {
        return Some(d);
      }
      var capacity := DoublingLoop(if d.wcap == 0 then FIRST_CAPACITY else d.wcap, needed);
      if capacity == None {
        return None;
      }
      AllocIs(disk.heap.State(), capacity.value);
      var block := disk.heap.Kmalloc(capacity.value);
      if block == None {
        return None;
      }
      var written := if d.buf.Some? then mem[d.buf.value..d.buf.value + d.wsize] else [];
      assert d.buf.Some? ==> written == Load(mem[..], Region(d.buf.value, d.wsize));
      Fill(block.value, written);
      r := Some(d.(buf := block, wcap := capacity.value));
    }

    /** `ksys_read`: byte by byte into the caller's buffer. */
    method Read(pid: int, fd: int, buf: array<Byte>, len: U32) returns (out: Outcome)
      requires Valid() && SysOk(State()) && (len <= USER_MAX ==> len <= buf.Length) && buf != mem
      modifies fds, buf
      ensures Valid() && (State(), out) == ReadFd(old(State()), pid, fd, len)
      ensures out.Done? ==> out.n <= buf.Length && buf[..out.n] == out.bytes
    {
      if len > USER_MAX {
        return Fail(FAULT);
      }
      if fd < FIRST_FD || fd >= MAX_FDS || fds[fd] == None || fds[fd].value.pid != pid {
        return Fail(BADF);
      }
      var d := fds[fd].value;
      assert Open(State(), fd) && FdOk(State().fs.h, d);
      if !d.readable {
        return Fail(BADF);
      }
      assert |State().mem| == USER_BASE && State().fs.h.Ok() && State().fs.h.ready;
      hide SysOk;
      var from, end := if d.buf.Some? then d.buf.value else d.data, if d.buf.Some? then d.wsize else d.size;
      if d.offset >= end {
        return Done(0, []);
      }
      var n := CopyOut(from + d.offset, Least(len, end - d.offset), buf);
      fds[fd] := Some(d.(offset := d.offset + n));
      assert fds[..] == old(fds[..])[fd := fds[fd]];
      out := Done(n, buf[..n]);
    }

    /** The byte loop of a read. */
    method CopyOut(from: nat, len: nat, buf: array<Byte>) returns (n: nat)
      requires Valid() && from + len <= USER_BASE && len <= buf.Length && buf != mem
      modifies buf
      ensures n == len && buf[..n] == mem[from..from + n]
    {
      n := 0;
      while n < len
        invariant n <= len && buf[..n] == mem[from..from + n]
      {
        buf[n] := mem[from + n];
        assert buf[..n + 1] == buf[..n] + [buf[n]];
        n := n + 1;
      }
    }

    /** `ksys_write`: room, the gap, the bytes, the terminator. */
    method Write(pid: int, fd: int, b: seq<Byte>) returns (out: Outcome)
      requires Valid() && SysOk(State())
      modifies fds, mem, disk.heap
      ensures Valid() && (State(), out) == WriteFd(old(State()), pid, fd, b)
    {
      if |b| > USER_MAX {
        return Fail(FAULT);
      }
      if fd < FIRST_FD || fd >= MAX_FDS || fds[fd] == None || fds[fd].value.pid != pid {
        return Fail(BADF);
      }
      var d := fds[fd].value;
      assert Open(State(), fd) && FdOk(State().fs.h, d);
      if !d.writable {
        return Fail(BADF);
      }
      var needed := Wrap(d.offset + |b|);
      if needed < d.offset {
        return Fail(INVAL);
      }
      assert State().fs.h.Ok() && State().fs.h.ready && BufOk(State().fs.h, d) && d.offset + |b| + 1 < WORD;
      hide SysOk, EnsureCapacity, Stored, FdOk, BufOk, FsOk;
      var done := WriteBytes(fd, d, b);
      out := if done then Done(|b|, []) else Fail(INVAL);
    }

    /** The rest of a write, once the descriptor is known to be the caller's. */
    method WriteBytes(fd: int, d: Fd, b: seq<Byte>) returns (done: bool)
      requires Valid() && 0 <= fd < MAX_FDS && fds[fd] == Some(d) && d.offset <= d.wsize && d.offset + |b| + 1 < WORD
      requires disk.heap.State().Ok() && disk.heap.State().ready && BufOk(disk.heap.State(), d)
      modifies fds, mem, disk.heap
      ensures Valid() && disk.nodes == old(disk.nodes)
      ensures var e := EnsureCapacity(old(disk.heap.State()), old(mem[..]), d, d.offset + |b| + 1);
              if e == None then !done && State() == old(State())
              else done && WroteTo(old(State()), fd, e.value.0, e.value.1, e.value.2, b, State())
    {
      EnsureCapacityOk(disk.heap.State(), mem[..], d, d.offset + |b| + 1);
      hide EnsureCapacity, Stored, Load, Doubled, BufOk, Advanced, Inside;
      var room := EnsureRoom(d, d.offset + |b| + 1);
      if room == None {
        return false;
      }
      var d1 := room.value;
      StoreInBuffer(d1, b);
      var end := d1.offset + |b|;
      var size := if end > d1.wsize then end else d1.wsize;
      AdvancedIs(d1, |b|, end, size);
      fds[fd] := Some(d1.(offset := end, wsize := size, data := d1.buf.value, size := size, dirty := true));
      assert fds[..] == old(fds[..])[fd := fds[fd]];
      done := true;
    }

    lemma AdvancedIs(d: Fd, n: nat, end: U32, size: U32)
      requires d.buf.Some? && end == d.offset + n && size == if end > d.wsize then end else d.wsize
      ensures Advanced(d, n) == d.(offset := end, wsize := size, data := d.buf.value, size := size, dirty := true)
    {
    }

    /** The state with `b` stored through the descriptor `d1`, whose buffer has room. */
    ghost predicate WroteTo(s: Sys, fd: int, h: Arena, m: seq<Byte>, d1: Fd, b: seq<Byte>, r: Sys) {
      && 0 <= fd < |s.fds| && |m| == USER_BASE && d1.buf.Some? && d1.buf.value + d1.wcap <= USER_BASE
      && d1.offset + |b| < d1.wcap && d1.wsize < d1.wcap
      && r == Sys(s.fs.(h := h), Stored(m, d1, b), s.fds[fd := Some(Advanced(d1, |b|))])
    }

    method StoreInBuffer(d: Fd, b: seq<Byte>)
      requires Valid() && d.buf.Some? && d.buf.value + d.wcap <= USER_BASE
      requires d.offset + |b| < d.wcap && d.wsize < d.wcap
      modifies mem
      ensures mem[..] == Stored(old(mem[..]), d, b)
    {
      var gap := if d.offset > d.wsize then Zeros(d.offset - d.wsize) else [];
      Fill(d.buf.value + d.wsize, gap);
      Fill(d.buf.value + d.offset, b);
      var end := if d.offset + |b| > d.wsize then d.offset + |b| else d.wsize;
      Fill(d.buf.value + end, [0]);
    }

    /** `vfs_write_file`: the node, then its bytes and a terminator in the fresh block. */
    method PublishFile(cwd: int, path: string, b: seq<Byte>) returns (ok: bool)
      requires Valid() && FsOk(State().fs) && State().fs.h.ready && In(State().fs.t, cwd) && |b| < USER_BASE
      modifies disk, disk.heap, mem
      ensures Valid() && (State(), ok) == Publish(old(State()), cwd, path, b)
    {
      WriteFileBlock(State().fs, cwd, path, |b|);
      hide Vfs.WriteFile, FsOk, Kept;
      var block := disk.WriteFile(cwd, path, |b|);
      if block == None {
        return false;
      }
      Fill(block.value, b + [0]);
      ok := true;
    }

    /** `ksys_close`. */
    method Close(cwd: int, pid: int, fd: int) returns (out: Outcome)
      requires Valid() && SysOk(State()) && In(State().fs.t, cwd)
      modifies disk, disk.heap, mem, fds
      ensures Valid() && (State(), out) == CloseFd(old(State()), cwd, pid, fd)
    {
      if fd < FIRST_FD || fd >= MAX_FDS || fds[fd] == None || fds[fd].value.pid != pid {
        return Fail(BADF);
      }
      var d := fds[fd].value;
      assert Open(State(), fd) && FdOk(State().fs.h, d);
      assert FsOk(State().fs) && State().fs.h.ready && State().fs.h.Ok();
      hide SysOk, Publish;
      if d.writable && d.dirty {
        var b := mem[d.buf.value..d.buf.value + d.wsize];
        assert b == View(State(), fd).bytes;
        var ok := PublishFile(cwd, d.path, b);
        if !ok {
          return Fail(INVAL);
        }
      }
      SetSlot(fd, None);
      out := Done(0, []);
    }

    method SetSlot(fd: int, d: Option<Fd>)
      requires Valid() && 0 <= fd < MAX_FDS
      modifies fds
      ensures fds[..] == old(fds[..])[fd := d]
    {
      fds[fd] := d;
    }

    method FindFree() returns (slot: int)
      requires Valid()
      ensures slot == AllocSlot(fds[..])
    {
      slot := FIRST_FD;
      while slot < MAX_FDS
        invariant FIRST_FD <= slot <= MAX_FDS && forall j :: FIRST_FD <= j < slot ==> fds[j].Some?
      {
        if fds[slot] == None {
          SlotFound(fds[..], slot);
          return;
        }
        slot := slot + 1;
      }
      SlotNone(fds[..]);
      slot := -1;
    }

    lemma SlotFound(t: seq<Option<Fd>>, slot: int)
      requires |t| == MAX_FDS && FIRST_FD <= slot < MAX_FDS && t[slot] == None
      requires forall j :: FIRST_FD <= j < slot ==> t[j].Some?
      ensures AllocSlot(t) == slot
    {
      var u := t[FIRST_FD..];
      assert u[slot - FIRST_FD] == None && forall j :: 0 <= j < slot - FIRST_FD ==> u[j] == t[FIRST_FD + j];
    }

    lemma SlotNone(t: seq<Option<Fd>>)
      requires |t| == MAX_FDS && forall j :: FIRST_FD <= j < MAX_FDS ==> t[j].Some?
      ensures AllocSlot(t) == -1
    {
    }

    /** `ksys_open` once the path has named a file. */
    method OpenFound(n: int, pid: int, full: string, flags: U32) returns (out: Outcome)
      requires Valid() && FsOk(State().fs) && State().fs.h.ready && In(State().fs.t, n)
      requires Inside(State().fs.h, FileRegion(State().fs.t[n]))
      modifies disk.heap, mem, fds
      ensures Valid() && (State(), out) == OpenNode(old(State()), n, pid, full, flags)
    {
      assert State().fs.h.Ok();
      hide FsOk, Bit, Load, WantsWrite, AllocSlot, Inside, Begun;
      var slot := FindFree();
      if slot < 0 {
        return Fail(NFILE);
      }
      var node := disk.nodes[n];
      var d := Fresh(pid, flags, full, node.data, node.size);
      if !WantsWrite(flags) {
        SetSlot(slot, Some(d));
        return Done(slot, []);
      }
      out := OpenToWrite(slot, d, node.data, node.size, flags);
    }

    /** A private buffer for a new descriptor, with the file's bytes or none. */
    method OpenToWrite(slot: int, d: Fd, data: U32, size: U32, flags: U32) returns (out: Outcome)
      requires Valid() && disk.heap.State().Ok() && disk.heap.State().ready && 0 <= slot < MAX_FDS
      requires d.buf == None && d.wsize == 0 && d.wcap == 0 && Inside(disk.heap.State(), Region(data, size))
      modifies disk.heap, mem, fds
      ensures Valid()
      ensures var s, initial := old(State()), if Bit(flags, O_TRUNC) then 0 else size;
              && BufOk(s.fs.h, d)
              && var e := EnsureCapacity(s.fs.h, s.mem, d, initial + 1);
                 if e == None then (State(), out) == (s, Fail(INVAL))
                 else
                   var (h, m, d1) := e.value;
                   && d1.buf.Some?
                   && var bytes := Load(m, Region(data, initial)) + [0];
                      && d1.buf.value + |bytes| <= |m|
                      && (State(), out) == (Sys(s.fs.(h := h), Blit(m, d1.buf.value, bytes),
                                                s.fds[slot := Some(Begun(d1, initial, flags))]), Done(slot, []))
    {
      var initial := if Bit(flags, O_TRUNC) then 0 else size;
      EnsureCapacityOk(disk.heap.State(), mem[..], d, initial + 1);
      hide EnsureCapacity, Bit, Begun;
      var room := EnsureRoom(d, initial + 1);
      if room == None {
        return Fail(INVAL);
      }
      var d1 := room.value;
      var bytes := Load(mem[..], Region(data, initial)) + [0];
      hide Load;
      Fill(d1.buf.value, bytes);
      fds[slot] := Some(Begun(d1, initial, flags));
      assert fds[..] == old(fds[..])[slot := fds[slot]];
      out := Done(slot, []);
    }

    /** The rest of `ksys_open`, on the absolute path. */
    method OpenFullPath(cwd: int, pid: int, full: string, flags: U32) returns (out: Outcome)
      requires Valid() && SysOk(State()) && In(State().fs.t, cwd)
      modifies disk.heap, mem, fds
      ensures Valid() && (State(), out) == OpenPath(old(State()), cwd, pid, full, flags)
    {
      SysLinks(State());
      hide SysOk, Bit, OpenNode, Aliased, Links, ResolveFrom;
      var aliased := Aliased(disk.nodes, cwd, full);
      if aliased {
        return Fail(INVAL);
      }
      var node := ResolveLoop(disk.nodes, cwd, full);
      if node == None || disk.nodes[node.value].dir {
        return Fail(INVAL);
      }
      SysFacts(State(), node.value);
      out := OpenFound(node.value, pid, full, flags);
    }

    /** `ksys_open` with its path copied in. */
    method OpenPathname(cwd: int, pid: int, path: string, flags: U32) returns (out: Outcome)
      requires Valid() && SysOk(State()) && In(State().fs.t, cwd)
      modifies disk, disk.heap, mem, fds
      ensures Valid() && (State(), out) == OpenFile(old(State()), cwd, pid, path, flags)
    {
      SysLinks(State());
      hide SysOk, Bit, OpenPath, Links, Vfs.Touch, FsOk, FullName;
      var full := FullName(disk.nodes, cwd, path);
      if full == None {
        return Fail(INVAL);
      }
      if Bit(flags, O_CREAT) {
        TouchedOk(State(), cwd, full.value);
        var ok := disk.Touch(cwd, full.value);
        if !ok {
          return Fail(INVAL);
        }
      }
      out := OpenFullPath(cwd, pid, full.value, flags);
    }

    lemma SysLinks(s: Sys)
      requires SysOk(s)
      ensures FsOk(s.fs) && Links(s.fs.t)
    {
    }

    lemma SysFacts(s: Sys, n: int)
      requires SysOk(s) && In(s.fs.t, n)
      ensures FsOk(s.fs) && s.fs.h.ready && Inside(s.fs.h, FileRegion(s.fs.t[n]))
    {
      assert NodeOk(s, n);
    }
  }
}
