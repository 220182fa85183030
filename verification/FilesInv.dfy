// Every step keeps the descriptors' buffers apart, and changes what one descriptor or one file shows at most.

module FilesInv {
  import opened Bytes
  import opened Paths
  import opened Heap
  import opened Tree
  import opened Resolve
  import opened Vfs
  import opened Files

  /** The private buffer of slot `f`, if it has one. */
  function Own(s: Sys, f: int): Region {
    if Open(s, f) && s.fds[f].value.writable then FdRegion(s.fds[f].value) else Region(0, 0)
  }

  predicate InRegion(a: Region, i: int) {
    a.at <= i < a.at + a.len
  }

  /** Memory already handed out is as before, but for the buffer `own`. */
  ghost predicate Agrees(s: Sys, r: Sys, own: Region) {
    && |r.mem| == |s.mem| == USER_BASE
    && forall i :: 0 <= i < s.fs.h.current <= USER_BASE && !InRegion(own, i) ==> r.mem[i] == s.mem[i]
  }

  lemma LoadFrame(s: Sys, r: Sys, own: Region, a: Region)
    requires Agrees(s, r, own) && Inside(s.fs.h, a) && Disjoint(own, a) && s.fs.h.Ok() && s.fs.h.ready
    ensures Load(r.mem, a) == Load(s.mem, a)
  {
    if a.len > 0 {
      forall i | a.at <= i < a.at + a.len ensures r.mem[i] == s.mem[i] {
        assert own.len <= 0 || !InRegion(own, i);
      }
      assert r.mem[a.at..a.at + a.len] == s.mem[a.at..a.at + a.len];
    }
  }

  /** `a` meets no private buffer but that of slot `f`. */
  ghost predicate Clear(s: Sys, f: int, a: Region) {
    forall g :: Open(s, g) && g != f ==> Disjoint(Own(s, g), a)
  }

  /** A descriptor slot `f` may hold next: with its old buffer, a new one, or somebody's bytes to read. */
  ghost predicate NewFdOk(s: Sys, h: Arena, f: int, d: Fd) {
    && FdOk(h, d)
    && (d.writable ==> (Own(s, f).len > 0 && FdRegion(d) == Own(s, f)) || FdRegion(d).at >= s.fs.h.current)
    && (!d.writable ==> Clear(s, f, FdRegion(d)) && Own(s, f).len == 0)
  }

  /** What a step may do to slot `f`: rearrange its own buffer, or move to bytes nobody writes, or close. */
  ghost predicate SlotChange(s: Sys, r: Sys, f: int) {
    && FIRST_FD <= f < MAX_FDS && |r.fds| == |s.fds| == MAX_FDS && r.fds == s.fds[f := r.fds[f]]
    && r.fs.t == s.fs.t && r.fs.h.Ok() && r.fs.h == s.fs.h.(current := r.fs.h.current)
    && s.fs.h.current <= r.fs.h.current
    && Agrees(s, r, Own(s, f))
    && (r.fds[f].Some? ==> NewFdOk(s, r.fs.h, f, r.fds[f].value))
  }

  lemma SlotViews(s: Sys, r: Sys, f: int, g: int)
    requires SysOk(s) && SlotChange(s, r, f) && g != f
    ensures SameView(s, r, g) && (Open(s, g) ==> Open(r, g) && FdOk(r.fs.h, r.fds[g].value))
  {
    if Open(s, g) {
      var d := s.fds[g].value;
      assert FdOk(s.fs.h, d) && Open(r, g) && r.fds[g] == s.fds[g];
      var shown := if d.writable then Region(d.buf.value, d.wsize) else Region(d.data, d.size);
      assert Disjoint(Own(s, f), FdRegion(d)) by {
        assert Open(s, f) ==> FdApart(s, f, g);
      }
      LoadFrame(s, r, Own(s, f), shown);
    }
  }

  lemma SlotFiles(s: Sys, r: Sys, f: int, n: int)
    requires SysOk(s) && SlotChange(s, r, f) && In(r.fs.t, n)
    ensures SameFile(s, r, n) && NodeOk(r, n)
  {
    assert NodeOk(s, n) && (Open(s, f) ==> FileApart(s, f, n));
    LoadFrame(s, r, Own(s, f), FileRegion(s.fs.t[n]));
  }

  lemma SlotFileApart(s: Sys, r: Sys, f: int, g: int, n: int)
    requires SysOk(s) && SlotChange(s, r, f) && Open(r, g) && In(r.fs.t, n)
    ensures FileApart(r, g, n)
  {
    assert NodeOk(s, n);
    if Open(s, g) {
      assert FileApart(s, g, n);
    }
  }

  lemma SlotFdApart(s: Sys, r: Sys, f: int, g: int, h: int)
    requires SysOk(s) && SlotChange(s, r, f) && Open(r, g) && Open(r, h)
    ensures FdApart(r, g, h)
  {
    if g != h && r.fds[g].value.writable {
      if g != f {
        assert Open(s, g) && FdOk(s.fs.h, s.fds[g].value) && r.fds[g] == s.fds[g];
      }
      if h != f {
        assert Open(s, h) && FdOk(s.fs.h, s.fds[h].value) && r.fds[h] == s.fds[h];
      }
      if Open(s, g) && Open(s, h) {
        assert FdApart(s, g, h) && FdApart(s, h, g);
      }
    }
  }

  /** A change of one slot keeps the invariant, every other descriptor and every file. */
  lemma SlotStep(s: Sys, r: Sys, f: int)
    requires SysOk(s) && SlotChange(s, r, f)
    ensures SysOk(r) && SameFiles(s, r) && forall g :: g != f ==> SameView(s, r, g)
  {
    forall g | g != f ensures SameView(s, r, g) && (Open(s, g) ==> Open(r, g) && FdOk(r.fs.h, r.fds[g].value)) {
      SlotViews(s, r, f, g);
    }
    forall n | In(r.fs.t, n) ensures SameFile(s, r, n) && NodeOk(r, n) {
      SlotFiles(s, r, f, n);
    }
    forall g, n | Open(r, g) && In(r.fs.t, n) ensures FileApart(r, g, n) {
      SlotFileApart(s, r, f, g, n);
    }
    forall g, h | Open(r, g) && Open(r, h) ensures FdApart(r, g, h) {
      SlotFdApart(s, r, f, g, h);
    }
    forall g | Open(r, g) ensures FIRST_FD <= g && FdOk(r.fs.h, r.fds[g].value) {
      assert g != f ==> SameView(s, r, g);
    }
  }

  // ---- reading and writing -------------------------------------------------

  /** Reading hands out the next bytes of the simple file and moves its position past them, and nothing else. */
  lemma ReadRefines(s: Sys, pid: int, fd: int, len: U32)
    requires SysOk(s)
    ensures var (r, out) := ReadFd(s, pid, fd, len);
            && SysOk(r) && SameFiles(s, r) && (forall g :: g != fd ==> SameView(s, r, g))
            && (out.Done? <==> len <= USER_MAX && Lookup(s, pid, fd).Some? && View(s, fd).readable)
            && (out.Fail? ==> r == s && out.e == if len > USER_MAX then FAULT else BADF)
            && (out.Done? ==> ReadDone(View(s, fd), len, out, r, fd))
  {
    var (r, out) := ReadFd(s, pid, fd, len);
    if out.Done? {
      assert FIRST_FD <= fd && FdOk(s.fs.h, s.fds[fd].value);
      ReadShows(s, pid, fd, len);
    }
    if r != s {
      OtherApart(s, fd);
      ReadChange(s, pid, fd, len);
      hide SysOk, Clear, Disjoint, SlotChange, ReadDone;
      SlotStep(s, r, fd);
    } else {
      assert forall n :: In(r.fs.t, n) ==> SameFile(s, r, n);
      hide SysOk, ReadDone;
    }
  }

  lemma LoadPart(mem: seq<Byte>, a: Region, from: nat, to: nat)
    requires 0 <= a.at && 0 <= a.len && a.at + a.len <= |mem| && from <= to <= a.len
    ensures |Load(mem, a)| == a.len && mem[a.at + from..a.at + to] == Load(mem, a)[from..to]
  {
    SubSlice(mem, a.at, a.at + a.len, from, to);
  }

  /** Where the bytes a descriptor shows are. */
  function Shown(d: Fd): Region {
    if d.buf.Some? then Region(d.buf.value, d.wsize) else Region(d.data, d.size)
  }

  lemma ShownIs(s: Sys, f: int)
    requires SysOk(s) && Open(s, f)
    ensures var d := s.fds[f].value; var a := Shown(d);
            && View(s, f) == Stream(d.pid, d.readable, d.writable, d.path, Load(s.mem, a), d.offset, d.dirty)
            && 0 <= a.len && (a.len > 0 ==> a.at + a.len <= USER_BASE) && d.offset <= a.len && |s.mem| == USER_BASE
  {
    assert FdOk(s.fs.h, s.fds[f].value) && s.fs.h.Ok();
    hide Load;
  }

  lemma ReadIs(s: Sys, pid: int, fd: int, len: U32)
    requires SysOk(s) && Open(s, fd) && FdOk(s.fs.h, s.fds[fd].value) && ReadFd(s, pid, fd, len).1.Done?
    ensures var d := s.fds[fd].value; var a := Shown(d);
            && (d.offset < a.len ==> a.at + a.len <= |s.mem|)
            && ReadFd(s, pid, fd, len)
               == if d.offset >= a.len then (s, Done(0, []))
                  else
                    var n := Least(len, a.len - d.offset);
                    (s.(fds := s.fds[fd := Some(d.(offset := d.offset + n))]),
                     Done(n, s.mem[a.at + d.offset..a.at + (d.offset + n)]))
  {
    ShownIs(s, fd);
    hide SysOk, FdOk, Load, View;
  }

  lemma NextIs(mem: seq<Byte>, a: Region, v: Stream, len: nat)
    requires 0 <= a.len && (a.len > 0 ==> 0 <= a.at && a.at + a.len <= |mem|)
    requires v.bytes == Load(mem, a) && v.pos <= a.len
    ensures |v.bytes| == a.len
    ensures v.pos < a.len ==> NextBytes(v, len) == mem[a.at + v.pos..a.at + (v.pos + Least(len, a.len - v.pos))]
    ensures v.pos == a.len ==> NextBytes(v, len) == []
  {
    if v.pos < a.len {
      LoadPart(mem, a, v.pos, v.pos + Least(len, a.len - v.pos));
    }
  }

  lemma ReadShows(s: Sys, pid: int, fd: int, len: U32)
    requires SysOk(s) && Open(s, fd) && FdOk(s.fs.h, s.fds[fd].value) && ReadFd(s, pid, fd, len).1.Done?
    ensures ReadDone(View(s, fd), len, ReadFd(s, pid, fd, len).1, ReadFd(s, pid, fd, len).0, fd)
  {
    var d := s.fds[fd].value;
    ShownIs(s, fd);
    ReadIs(s, pid, fd, len);
    NextIs(s.mem, Shown(d), View(s, fd), len);
    hide SysOk, FdOk, ReadFd, NextBytes, Load;
  }

  lemma ReadChange(s: Sys, pid: int, fd: int, len: U32)
    requires SysOk(s) && Open(s, fd) && FIRST_FD <= fd && FdOk(s.fs.h, s.fds[fd].value)
    requires Clear(s, fd, FdRegion(s.fds[fd].value)) && ReadFd(s, pid, fd, len).1.Done?
    requires ReadFd(s, pid, fd, len).0 != s
    ensures SlotChange(s, ReadFd(s, pid, fd, len).0, fd)
  {
    assert FsOk(s.fs) && s.fs.h.Ok();
    hide SysOk, FsOk, Clear;
  }

  ghost predicate ReadDone(v: Stream, len: nat, out: Outcome, r: Sys, fd: int) {
    && v.pos <= |v.bytes| && out == Done(|NextBytes(v, len)|, NextBytes(v, len))
    && Open(r, fd) && View(r, fd) == v.(pos := v.pos + |NextBytes(v, len)|)
  }

  lemma OtherApart(s: Sys, f: int)
    requires SysOk(s) && Open(s, f)
    ensures Clear(s, f, FdRegion(s.fds[f].value))
  {
    forall g | Open(s, g) && g != f ensures Disjoint(Own(s, g), FdRegion(s.fds[f].value)) {
      assert FdApart(s, g, f);
    }
  }

  /** The buffer does not grow: the heap has no room for the next doubling that is enough. */
  predicate NoRoom(h: Arena, d: Fd, needed: U32) {
    d.wcap < needed
    && var c := Doubled(if d.wcap == 0 then FIRST_CAPACITY else d.wcap, needed);
       (c == None || h.current + c.value > h.limit)
  }

  lemma StoredShows(mem: seq<Byte>, d: Fd, b: seq<Byte>)
    requires |mem| == USER_BASE && d.buf.Some? && d.buf.value + d.wcap <= USER_BASE
    requires d.offset + |b| < d.wcap && d.offset <= d.wsize < d.wcap
    ensures var size := if d.offset + |b| > d.wsize then d.offset + |b| else d.wsize;
            Load(Stored(mem, d, b), Region(d.buf.value, size))
            == Overwrite(Load(mem, Region(d.buf.value, d.wsize)), d.offset, b)
    ensures forall i :: 0 <= i < USER_BASE && !InRegion(Region(d.buf.value, d.wcap), i)
              ==> Stored(mem, d, b)[i] == mem[i]
  {
  }

  function WriteError(s: Sys, pid: int, fd: int, b: seq<Byte>): Errno {
    if |b| > USER_MAX then FAULT
    else if Lookup(s, pid, fd) == None || !View(s, fd).writable then BADF
    else INVAL
  }

  /** Writing overwrites and extends the simple file at its position, or fails and changes nothing. */
  lemma WriteRefines(s: Sys, pid: int, fd: int, b: seq<Byte>)
    requires SysOk(s)
    ensures var (r, out) := WriteFd(s, pid, fd, b);
            && SysOk(r) && SameFiles(s, r) && (forall g :: g != fd ==> SameView(s, r, g))
            && (out.Fail? ==> r == s && out.e == WriteError(s, pid, fd, b))
            && (out.Done? <==> |b| <= USER_MAX && Lookup(s, pid, fd).Some? && View(s, fd).writable
                               && !NoRoom(s.fs.h, s.fds[fd].value, s.fds[fd].value.offset + |b| + 1))
            && (out.Done? ==> out == Done(|b|, []) && WriteDone(View(s, fd), b, r, fd))
  {
    var (r, out) := WriteFd(s, pid, fd, b);
    assert SameFiles(s, s) by {
      assert forall n :: In(s.fs.t, n) ==> SameFile(s, s, n);
    }
    if |b| <= USER_MAX && Lookup(s, pid, fd).Some? && View(s, fd).writable {
      var d := s.fds[fd].value;
      assert FdOk(s.fs.h, d) && s.fs.h.Ok() && |s.mem| == USER_BASE;
      hide SysOk, EnsureCapacity, SameFiles, Stored, WriteDone, FsOk;
      var needed := d.offset + |b| + 1;
      CapacityFound(s.fs.h, s.mem, d, needed);
      if out.Done? {
        WriteSteps(s, pid, fd, b);
      }
    }
  }

  ghost predicate WriteDone(v: Stream, b: seq<Byte>, r: Sys, fd: int) {
    && v.pos <= |v.bytes|
    && Open(r, fd) && View(r, fd) == v.(bytes := Overwrite(v.bytes, v.pos, b), pos := v.pos + |b|, dirty := true)
  }

  lemma CapacityFound(h: Arena, mem: seq<Byte>, d: Fd, needed: U32)
    requires h.Ok() && h.ready && |mem| == USER_BASE && BufOk(h, d) && needed > 0
    ensures EnsureCapacity(h, mem, d, needed) == None <==> NoRoom(h, d, needed)
  {
    if d.wcap < needed {
      var c := Doubled(if d.wcap == 0 then FIRST_CAPACITY else d.wcap, needed);
      if c.Some? {
        AllocIs(h, c.value);
      }
    }
  }

  /** The state after a write that grew the buffer to `d1` first. */
  function AfterWrite(s: Sys, fd: int, h: Arena, mem: seq<Byte>, d1: Fd, b: seq<Byte>): (r: Sys)
    requires |mem| == USER_BASE && d1.buf.Some? && d1.buf.value + d1.wcap <= USER_BASE && 0 <= fd < |s.fds|
    requires d1.offset <= d1.wsize && d1.offset + |b| < d1.wcap <= USER_BASE && d1.wsize < d1.wcap
  {
    Sys(s.fs.(h := h), Stored(mem, d1, b), s.fds[fd := Some(Advanced(d1, |b|))])
  }

  /** Everything the growth of slot `fd`'s buffer guarantees. */
  ghost predicate Grew(s: Sys, fd: int, h: Arena, mem: seq<Byte>, d1: Fd, b: seq<Byte>) {
    && FIRST_FD <= fd < MAX_FDS && |s.fds| == MAX_FDS && Open(s, fd) && |s.mem| == |mem| == USER_BASE
    && h.Ok() && h.ready && h == s.fs.h.(current := h.current) && s.fs.h.current <= h.current
    && d1.writable && d1.buf.Some? && Inside(h, Region(d1.buf.value, d1.wcap))
    && d1.offset <= d1.wsize && d1.offset + |b| < d1.wcap && d1.wsize < d1.wcap
    && var d := s.fds[fd].value;
    && d.writable && d.buf.Some? && d1 == d.(buf := d1.buf, wcap := d1.wcap) && d.wcap > 0
    && (d1 == d || d1.buf.value >= s.fs.h.current)
    && Load(mem, Region(d1.buf.value, d1.wsize)) == Load(s.mem, Region(d.buf.value, d.wsize))
    && forall i :: 0 <= i < s.fs.h.current <= USER_BASE ==> mem[i] == s.mem[i]
  }

  lemma GrewChange(s: Sys, fd: int, h: Arena, mem: seq<Byte>, d1: Fd, b: seq<Byte>)
    requires Grew(s, fd, h, mem, d1, b) && d1.buf.Some? && d1.buf.value + d1.wcap <= USER_BASE && 0 <= fd < |s.fds|
    requires |mem| == USER_BASE && d1.offset <= d1.wsize && d1.offset + |b| < d1.wcap <= USER_BASE
    requires d1.wsize < d1.wcap
    ensures SlotChange(s, AfterWrite(s, fd, h, mem, d1, b), fd)
  {
    StoredShows(mem, d1, b);
    hide Stored, Load, Overwrite;
  }

  lemma GrewShows(s: Sys, fd: int, h: Arena, mem: seq<Byte>, d1: Fd, b: seq<Byte>)
    requires Grew(s, fd, h, mem, d1, b) && d1.buf.Some? && d1.buf.value + d1.wcap <= USER_BASE && 0 <= fd < |s.fds|
    requires |mem| == USER_BASE && d1.offset <= d1.wsize && d1.offset + |b| < d1.wcap <= USER_BASE
    requires d1.wsize < d1.wcap
    ensures WriteDone(View(s, fd), b, AfterWrite(s, fd, h, mem, d1, b), fd)
  {
    StoredShows(mem, d1, b);
    assert |Load(s.mem, Region(s.fds[fd].value.buf.value, s.fds[fd].value.wsize))| == d1.wsize;
    hide Stored, Load, Overwrite;
  }

  /** What growth finds for the bytes of a write. */
  lemma GrewIs(s: Sys, fd: int, b: seq<Byte>, h: Arena, mem: seq<Byte>, d1: Fd)
    requires SysOk(s) && Open(s, fd) && s.fds[fd].value.writable && |b| <= USER_MAX
    requires s.fs.h.Ok() && s.fs.h.ready && |s.mem| == USER_BASE && BufOk(s.fs.h, s.fds[fd].value)
    requires var d := s.fds[fd].value; EnsureCapacity(s.fs.h, s.mem, d, Wrap(d.offset + |b| + 1)) == Some((h, mem, d1))
    ensures Grew(s, fd, h, mem, d1, b)
    ensures |mem| == USER_BASE && d1.buf.Some? && d1.offset <= d1.wsize && d1.offset + |b| < d1.wcap <= USER_BASE
    ensures d1.wsize < d1.wcap && d1.buf.value + d1.wcap <= USER_BASE && 0 <= fd < |s.fds|
  {
    var d := s.fds[fd].value;
    WriterFacts(s, fd);
    var needed := d.offset + |b| + 1;
    assert Wrap(needed) == needed;
    hide *;
    CapacityGives(s.fs.h, s.mem, d, needed, h, mem, d1);
    GrewFacts(s, fd, b, h, mem, d, d1);
  }

  /** What growth promises, for the result it had. */
  lemma CapacityGives(h: Arena, mem: seq<Byte>, d: Fd, needed: U32, h': Arena, mem': seq<Byte>, d': Fd)
    requires h.Ok() && h.ready && |mem| == USER_BASE && BufOk(h, d) && needed > 0 && d.buf.Some?
    requires EnsureCapacity(h, mem, d, needed) == Some((h', mem', d'))
    ensures h'.Ok() && h' == h.(current := h'.current) && h.current <= h'.current
    ensures d' == d.(buf := d'.buf, wcap := d'.wcap) && d'.buf.Some? && Inside(h', Region(d'.buf.value, d'.wcap))
    ensures d'.wsize < d'.wcap && needed <= d'.wcap && |mem'| == USER_BASE
    ensures Load(mem', Region(d'.buf.value, d'.wsize)) == Load(mem, Region(d.buf.value, d.wsize))
    ensures (d'.buf != d.buf ==> h.current <= d'.buf.value) && (d'.buf == d.buf ==> d' == d)
    ensures forall i :: 0 <= i < h.current ==> mem'[i] == mem[i]
  {
    EnsureCapacityOk(h, mem, d, needed);
    hide EnsureCapacity, Load, BufOk, Inside;
  }

  lemma GrewFacts(s: Sys, fd: int, b: seq<Byte>, h: Arena, mem: seq<Byte>, d: Fd, d1: Fd)
    requires FIRST_FD <= fd < MAX_FDS && |s.fds| == MAX_FDS && s.fds[fd] == Some(d) && |s.mem| == |mem| == USER_BASE
    requires s.fs.h.ready && h.Ok() && h == s.fs.h.(current := h.current) && s.fs.h.current <= h.current
    requires d.writable && d.buf.Some? && d.offset <= d.wsize < d.wcap
    requires d1 == d.(buf := d1.buf, wcap := d1.wcap) && d1.buf.Some? && Inside(h, Region(d1.buf.value, d1.wcap))
    requires d1.wsize < d1.wcap && d.offset + |b| + 1 <= d1.wcap
    requires Load(mem, Region(d1.buf.value, d1.wsize)) == Load(s.mem, Region(d.buf.value, d.wsize))
    requires (d1.buf != d.buf ==> s.fs.h.current <= d1.buf.value) && (d1.buf == d.buf ==> d1 == d)
    requires forall i :: 0 <= i < s.fs.h.current ==> mem[i] == s.mem[i]
    ensures Grew(s, fd, h, mem, d1, b) && d1.wcap <= USER_BASE && d1.buf.value + d1.wcap <= USER_BASE
  {
    hide Load;
  }

  lemma WriterFacts(s: Sys, fd: int)
    requires SysOk(s) && Open(s, fd) && s.fds[fd].value.writable
    ensures var d := s.fds[fd].value;
            && d.buf.Some? && d.offset <= d.wsize < d.wcap && |s.fds| == MAX_FDS && FIRST_FD <= fd < MAX_FDS
  {
    assert FdOk(s.fs.h, s.fds[fd].value);
  }

  lemma WriteIs(s: Sys, pid: int, fd: int, b: seq<Byte>) returns (h: Arena, mem: seq<Byte>, d1: Fd)
    requires SysOk(s) && WriteFd(s, pid, fd, b).1.Done?
    ensures Grew(s, fd, h, mem, d1, b) && Lookup(s, pid, fd).Some? && d1.buf.Some?
    ensures |mem| == USER_BASE && d1.offset <= d1.wsize && d1.offset + |b| < d1.wcap <= USER_BASE
    ensures d1.wsize < d1.wcap && d1.buf.value + d1.wcap <= USER_BASE && 0 <= fd < |s.fds|
    ensures WriteFd(s, pid, fd, b).0 == AfterWrite(s, fd, h, mem, d1, b)
  {
    var d := s.fds[fd].value;
    assert FdOk(s.fs.h, d) && s.fs.h.Ok() && s.fs.h.ready && |s.mem| == USER_BASE && BufOk(s.fs.h, d);
    hide EnsureCapacity, Stored, Load, FsOk, SysOk, FdOk, BufOk, Grew;
    var grown := EnsureCapacity(s.fs.h, s.mem, d, Wrap(d.offset + |b| + 1)).value;
    h, mem, d1 := grown.0, grown.1, grown.2;
    GrewIs(s, fd, b, h, mem, d1);
  }

  lemma WriteSteps(s: Sys, pid: int, fd: int, b: seq<Byte>)
    requires SysOk(s) && WriteFd(s, pid, fd, b).1.Done?
    ensures var r := WriteFd(s, pid, fd, b).0;
            && SysOk(r) && SameFiles(s, r) && (forall g :: g != fd ==> SameView(s, r, g))
            && Lookup(s, pid, fd).Some? && WriteDone(View(s, fd), b, r, fd)
  {
    hide *;
    var h, mem, d1 := WriteIs(s, pid, fd, b);
    GrewChange(s, fd, h, mem, d1, b);
    GrewShows(s, fd, h, mem, d1, b);
    SlotStep(s, WriteFd(s, pid, fd, b).0, fd);
  }
}
