// The descriptor layer over the tree and the heap (kernel/syscall.c with kernel/vfs.c and kernel/heap.c).

module Files {
  import opened Bytes
  import opened Paths
  import opened Heap
  import opened Tree
  import opened Resolve
  import opened Vfs

  const MAX_FDS := 16
  const FIRST_FD := 3
  const USER_MAX := 0x2_0000
  const FIRST_CAPACITY: U32 := 256

  datatype Errno = BADF | FAULT | INVAL | NFILE

  /**
   * An open descriptor. `data` and `size` are what it was opened on; a writable one owns the private buffer at
   * `buf`, `wcap` bytes long, of which `wsize` are the file.
   */
  datatype Fd = Fd(pid: int, readable: bool, writable: bool, data: U32, size: U32, offset: U32, path: string,
                   buf: Option<U32>, wsize: U32, wcap: U32, dirty: bool)

  /** Tree and heap, the kernel's memory below the user image, and the descriptor table. */
  datatype Sys = Sys(fs: Fs, mem: seq<Byte>, fds: seq<Option<Fd>>)

  datatype Region = Region(at: int, len: int)

  predicate Disjoint(a: Region, b: Region) {
    a.len == 0 || b.len == 0 || a.at + a.len <= b.at || b.at + b.len <= a.at
  }

  predicate Inside(h: Arena, a: Region) {
    a.len == 0 || (h.start <= a.at && 0 <= a.len && a.at + a.len <= h.current)
  }

  function FdRegion(d: Fd): Region {
    if d.writable && d.buf.Some? then Region(d.buf.value, d.wcap) else Region(d.data, d.size)
  }

  function FileRegion(n: Node): Region {
    Region(n.data, n.size)
  }

  /** `offset <= write_size < write_capacity` for a writable descriptor; a read-only one stays within its file. */
  predicate FdOk(h: Arena, d: Fd) {
    && Inside(h, FdRegion(d))
    && (d.writable ==> d.buf.Some? && d.data == d.buf.value && d.size == d.wsize && d.offset <= d.wsize < d.wcap)
    && (!d.writable ==> d.buf == None && d.offset <= d.size && !d.dirty)
  }

  predicate Open(s: Sys, f: int) {
    0 <= f < |s.fds| && s.fds[f].Some?
  }

  /** A file's published bytes are never inside a private buffer. */
  predicate FileApart(s: Sys, f: int, n: int) {
    Open(s, f) && s.fds[f].value.writable && In(s.fs.t, n)
    ==> Disjoint(FdRegion(s.fds[f].value), FileRegion(s.fs.t[n]))
  }

  predicate FdApart(s: Sys, f: int, g: int) {
    Open(s, f) && s.fds[f].value.writable && Open(s, g) && f != g
    ==> Disjoint(FdRegion(s.fds[f].value), FdRegion(s.fds[g].value))
  }

  predicate NodeOk(s: Sys, n: int) {
    In(s.fs.t, n) ==> Inside(s.fs.h, FileRegion(s.fs.t[n]))
  }

  ghost predicate SysOk(s: Sys) {
    var all :=
      && FsOk(s.fs) && s.fs.h.ready && |s.mem| == USER_BASE && |s.fds| == MAX_FDS
      && (forall f :: Open(s, f) ==> FIRST_FD <= f && FdOk(s.fs.h, s.fds[f].value))
      && (forall n :: In(s.fs.t, n) ==> NodeOk(s, n))
      && (forall f, g :: Open(s, f) && Open(s, g) ==> FdApart(s, f, g))
      && (forall f, n :: Open(s, f) && In(s.fs.t, n) ==> FileApart(s, f, n));
    all
  }

  /** Before the first call: no descriptor is open, and kernel memory is clear. */
  function FirstSys(fs: Fs): (s: Sys) {
    Sys(fs, Zeros(USER_BASE), seq(MAX_FDS, i => None))
  }

  /** A file system of empty files is a good start. */
  lemma FirstSysOk(fs: Fs)
    requires FsOk(fs) && fs.h.ready && forall n :: In(fs.t, n) ==> FileRegion(fs.t[n]).len == 0
    ensures SysOk(FirstSys(fs))
  {
    assert forall f :: !Open(FirstSys(fs), f);
  }

  // ---- what a user of it sees ----------------------------------------------

  function Load(mem: seq<Byte>, a: Region): (r: seq<Byte>)
  {
    if a.len <= 0 || a.at < 0 || a.at + a.len > |mem| then [] else mem[a.at..a.at + a.len]
  }

  /** The bytes of file `n`. */
  function FileBytes(s: Sys, n: int): seq<Byte>
    requires In(s.fs.t, n)
  {
    Load(s.mem, FileRegion(s.fs.t[n]))
  }

  /** A descriptor as a byte sequence and a position. */
  datatype Stream = Stream(pid: int, readable: bool, writable: bool, path: string, bytes: seq<Byte>, pos: nat,
                           dirty: bool)

  function View(s: Sys, f: int): Stream
    requires Open(s, f)
  {
    var d := s.fds[f].value;
    Stream(d.pid, d.readable, d.writable, d.path,
           Load(s.mem, if d.writable && d.buf.Some? then Region(d.buf.value, d.wsize) else Region(d.data, d.size)),
           d.offset, d.dirty)
  }

  function Least(a: int, b: int): int { if a < b then a else b }

  /** The simple file: reading. */
  function NextBytes(v: Stream, len: nat): (r: seq<Byte>)
    requires v.pos <= |v.bytes|
  {
    v.bytes[v.pos..Least(v.pos + len, |v.bytes|)]
  }

  /** The simple file: writing overwrites and extends at the position. */
  function Overwrite(c: seq<Byte>, pos: nat, b: seq<Byte>): (r: seq<Byte>)
    requires pos <= |c|
  {
    c[..pos] + b + (if pos + |b| < |c| then c[pos + |b|..] else [])
  }

  /** Byte by byte: the bytes written where they were written, all others as they were. */
  lemma OverwriteIs(c: seq<Byte>, pos: nat, b: seq<Byte>)
    requires pos <= |c|
    ensures var r := Overwrite(c, pos, b);
            && |r| == (if pos + |b| > |c| then pos + |b| else |c|)
            && forall i :: 0 <= i < |r| ==> r[i] == if pos <= i < pos + |b| then b[i - pos] else c[i]
  {
  }

  /** As many as asked for, or all that are left. */
  lemma NextBytesIs(v: Stream, len: nat)
    requires v.pos <= |v.bytes|
    ensures var r, left := NextBytes(v, len), |v.bytes| - v.pos;
            |r| == (if len < left then len else left) && forall i :: 0 <= i < |r| ==> r[i] == v.bytes[v.pos + i]
  {
  }

  // ---- operations ----------------------------------------------------------

  function AllocSlot(fds: seq<Option<Fd>>): (r: int)
    requires |fds| == MAX_FDS
    ensures r < MAX_FDS && (r >= 0 ==> FIRST_FD <= r && fds[r] == None)
  {
    var i := FirstIndex(fds[FIRST_FD..], (d: Option<Fd>) => d == None);
    if i < 0 then -1 else assert fds[FIRST_FD..][i] == fds[FIRST_FD + i]; FIRST_FD + i
  }

  /** `fd_lookup`: only the owner sees a descriptor. */
  function Lookup(s: Sys, pid: int, fd: int): (r: Option<int>)
    ensures r.Some? ==> r.value == fd && Open(s, fd) && s.fds[fd].value.pid == pid && FIRST_FD <= fd
  {
    if FIRST_FD <= fd && Open(s, fd) && s.fds[fd].value.pid == pid then Some(fd) else None
  }

  /** The doubling loop from capacity `c`, on 32-bit words: it ends, and never wraps. */
  function Doubled(c: U32, needed: U32): (r: Option<U32>)
    requires c > 0
    ensures r.Some? ==> r.value >= needed && r.value >= c && (r.value == c || r.value < 2 * needed)
    ensures r == None ==> needed > 0x8000_0000
    decreases needed - c
  {
    if c >= needed then Some(c)
    else if c > 0x7FFF_FFFF then None
    else Doubled(2 * c, needed)
  }

  /** A buffer large enough for what it holds, or none yet. */
  predicate BufOk(h: Arena, d: Fd) {
    if d.buf.Some? then Inside(h, Region(d.buf.value, d.wcap)) && d.wsize < d.wcap else d.wsize == 0 && d.wcap == 0
  }

  /** `fd_ensure_write_capacity`: a bigger block, and the bytes written so far copied into it. */
  function EnsureCapacity(h: Arena, mem: seq<Byte>, d: Fd, needed: U32): (r: Option<(Arena, seq<Byte>, Fd)>)
    requires h.Ok() && h.ready && |mem| == USER_BASE && BufOk(h, d)
    ensures r.Some? ==> |r.value.1| == USER_BASE
  {
    if needed <= d.wcap then Some((h, mem, d))
    else
      match Doubled(if d.wcap == 0 then FIRST_CAPACITY else d.wcap, needed)
      case None => None
      case Some(capacity) =>
        AllocIs(h, capacity);
        var (h', block) := Alloc(h, capacity);
        if block == None then None
        else
          var written := if d.buf.Some? then Load(mem, Region(d.buf.value, d.wsize)) else [];
          Some((h', Blit(mem, block.value, written), d.(buf := block, wcap := capacity)))
  }

  datatype Outcome = Done(n: int, bytes: seq<Byte>) | Fail(e: Errno)

  /** `ksys_read` of a descriptor above 2, into a valid buffer. */
  function ReadFd(s: Sys, pid: int, fd: int, len: U32): (r: (Sys, Outcome))
    requires SysOk(s)
  {
    if len > USER_MAX then (s, Fail(FAULT))
    else
      match Lookup(s, pid, fd)
      case None => (s, Fail(BADF))
      case Some(f) =>
        assert FdOk(s.fs.h, s.fds[f].value);
        var d := s.fds[f].value;
        if !d.readable then (s, Fail(BADF))
        else
          var from, end := if d.buf.Some? then d.buf.value else d.data, if d.buf.Some? then d.wsize else d.size;
          if d.offset >= end then (s, Done(0, []))
          else
            var n := Least(len, end - d.offset);
            (s.(fds := s.fds[f := Some(d.(offset := d.offset + n))]),
             Done(n, s.mem[from + d.offset..from + d.offset + n]))
  }

  /** The bytes `ksys_write` leaves in the buffer: the gap zeroed, the new bytes, a terminator. */
  function Stored(mem: seq<Byte>, d: Fd, b: seq<Byte>): (r: seq<Byte>)
    requires |mem| == USER_BASE && d.buf.Some? && d.buf.value + d.wcap <= USER_BASE
    requires d.offset + |b| < d.wcap && d.wsize < d.wcap
    ensures |r| == |mem|
  {
    var gap := if d.offset > d.wsize then Zeros(d.offset - d.wsize) else [];
    var end := if d.offset + |b| > d.wsize then d.offset + |b| else d.wsize;
    Blit(Blit(Blit(mem, d.buf.value + d.wsize, gap), d.buf.value + d.offset, b), d.buf.value + end, [0])
  }

  /** The descriptor after `n` bytes were stored through it. */
  function Advanced(d: Fd, n: nat): Fd
    requires d.buf.Some? && d.offset + n < WORD
  {
    var end := d.offset + n;
    var size := if end > d.wsize then end else d.wsize;
    d.(offset := end, wsize := size, data := d.buf.value, size := size, dirty := true)
  }

  /** `ksys_write` of a descriptor above 2, from a valid buffer holding `b`. */
  function WriteFd(s: Sys, pid: int, fd: int, b: seq<Byte>): (r: (Sys, Outcome))
    requires SysOk(s)
  {
    if |b| > USER_MAX then (s, Fail(FAULT))
    else
      match Lookup(s, pid, fd)
      case None => (s, Fail(BADF))
      case Some(f) =>
        assert FdOk(s.fs.h, s.fds[f].value);
        var d := s.fds[f].value;
        if !d.writable then (s, Fail(BADF))
        else
          var needed := Wrap(d.offset + |b|);
          if needed < d.offset then (s, Fail(INVAL))
          else
            match EnsureCapacity(s.fs.h, s.mem, d, Wrap(needed + 1))
            case None => (s, Fail(INVAL))
            case Some(grown) =>
              EnsureCapacityOk(s.fs.h, s.mem, d, Wrap(needed + 1));
              var (h, mem, d1) := grown;
              (Sys(s.fs.(h := h), Stored(mem, d1, b), s.fds[f := Some(Advanced(d1, |b|))]), Done(|b|, []))
  }

  lemma EnsureCapacityOk(h: Arena, mem: seq<Byte>, d: Fd, needed: U32)
    requires h.Ok() && h.ready && |mem| == USER_BASE && BufOk(h, d) && needed > 0
    ensures var r := EnsureCapacity(h, mem, d, needed);
            r.Some? ==>
              var (h', mem', d') := r.value;
              && h'.Ok() && h' == h.(current := h'.current) && h.current <= h'.current
              && d' == d.(buf := d'.buf, wcap := d'.wcap) && d'.buf.Some?
              && Inside(h', Region(d'.buf.value, d'.wcap)) && d'.wsize < d'.wcap && needed <= d'.wcap
              && |mem'| == USER_BASE
              && Load(mem', Region(d'.buf.value, d'.wsize))
                 == (if d.buf.Some? then Load(mem, Region(d.buf.value, d.wsize)) else [])
              && (d'.buf != d.buf ==> h.current <= d'.buf.value)
              && (d'.buf == d.buf ==> h' == h && mem' == mem && d' == d)
              && forall i :: 0 <= i < h.current ==> mem'[i] == mem[i]
  {
    if needed > d.wcap {
      var c := Doubled(if d.wcap == 0 then FIRST_CAPACITY else d.wcap, needed);
      if c.Some? {
        AllocIs(h, c.value);
        var block := Alloc(h, c.value).1;
        var written := if d.buf.Some? then Load(mem, Region(d.buf.value, d.wsize)) else [];
        assert |written| == d.wsize;
        hide Load, Alloc, Doubled;
        if block.Some? {
          CopyLoads(mem, block.value, written);
        }
      }
    }
  }

  lemma CopyLoads(mem: seq<Byte>, at: nat, b: seq<Byte>)
    requires at + |b| <= |mem|
    ensures Load(Blit(mem, at, b), Region(at, |b|)) == b
    ensures forall i :: 0 <= i < at ==> Blit(mem, at, b)[i] == mem[i]
  {
  }

  // ---- opening and closing -------------------------------------------------

  function Bit(flags: U32, mask: U32): bool
    requires mask > 0
  {
    flags / mask % 2 == 1
  }

  const O_CREAT: U32 := 0x40
  const O_TRUNC: U32 := 0x200
  const O_APPEND: U32 := 0x400

  predicate WantsWrite(flags: U32) { flags % 4 == 1 || flags % 4 == 2 }
  predicate WantsRead(flags: U32) { flags % 4 != 1 }

  /** `make_abs_path` into 128 characters. */
  function FullName(t: Forest, cwd: int, p: string): (r: Option<string>)
    requires Links(t) && In(t, cwd)
  {
    if p != "" && p[0] == '/' then Some(Truncate(p, PATH_MAX - 1)) else Join(CwdPath(t, cwd, PATH_MAX), p, PATH_MAX)
  }

  /** The new descriptor, before it has a buffer. */
  function Fresh(pid: int, flags: U32, path: string, data: U32, size: U32): (d: Fd)
    ensures BufOk(Arena(0, 0, 0, false), d)
  {
    Fd(pid, WantsRead(flags), WantsWrite(flags), data, size, if Bit(flags, O_APPEND) then size else 0, path,
       None, 0, 0, false)
  }

  /** `ksys_open` with the path already copied in; a path served from the disc is refused: no disc is modelled. */
  function OpenFile(s: Sys, cwd: int, pid: int, path: string, flags: U32): (r: (Sys, Outcome))
    requires SysOk(s) && In(s.fs.t, cwd)
  {
    match FullName(s.fs.t, cwd, path)
    case None => (s, Fail(INVAL))
    case Some(full) =>
      if !Bit(flags, O_CREAT) then OpenPath(s, cwd, pid, full, flags)
      else
        var (fs1, ok) := Touch(s.fs, cwd, full);
        TouchedOk(s, cwd, full);
        if !ok then (s.(fs := fs1), Fail(INVAL)) else OpenPath(s.(fs := fs1), cwd, pid, full, flags)
  }

  function OpenPath(s: Sys, cwd: int, pid: int, full: string, flags: U32): (r: (Sys, Outcome))
    requires SysOk(s) && In(s.fs.t, cwd)
  {
    if Aliased(s.fs.t, cwd, full) then (s, Fail(INVAL))
    else
      match ReadFile(s.fs.t, cwd, full)
      case None => (s, Fail(INVAL))
      case Some(n) =>
        assert NodeOk(s, n);
        OpenNode(s, n, pid, full, flags)
  }

  /** A touch adds at most an empty file. */
  lemma TouchFrame(fs: Fs, cwd: int, p: string, n: int)
    requires FsOk(fs) && In(fs.t, cwd) && In(Touch(fs, cwd, p).0.t, n)
    ensures var t := Touch(fs, cwd, p).0.t;
            FileRegion(t[n]) == if In(fs.t, n) then FileRegion(fs.t[n]) else Region(0, 0)
  {
    hide Aliased, Target;
  }

  /** The tree may grow by empty files; nothing else is touched. */
  ghost predicate TreeGrows(s: Sys, fs: Fs) {
    && FsOk(fs) && Kept(s.fs, fs)
    && forall n :: In(fs.t, n) ==> FileRegion(fs.t[n]) == if In(s.fs.t, n) then FileRegion(s.fs.t[n]) else Region(0, 0)
  }

  lemma TreeStep(s: Sys, fs: Fs)
    requires SysOk(s) && TreeGrows(s, fs)
    ensures var r := s.(fs := fs); SysOk(r) && SameViews(s, r) && SameFiles(s, r)
  {
    var r := s.(fs := fs);
    forall n | In(r.fs.t, n) ensures NodeOk(r, n) {
      assert In(s.fs.t, n) ==> NodeOk(s, n);
    }
    forall f, n | Open(r, f) && In(r.fs.t, n) ensures FileApart(r, f, n) {
      assert Open(s, f) && (In(s.fs.t, n) ==> FileApart(s, f, n));
    }
    forall f, g | Open(r, f) && Open(r, g) ensures FdApart(r, f, g) {
      assert FdApart(s, f, g);
    }
    forall f | Open(r, f) ensures FIRST_FD <= f && FdOk(r.fs.h, r.fds[f].value) {
      assert FdOk(s.fs.h, s.fds[f].value);
    }
    hide FsOk, Load;
  }

  lemma TouchedOk(s: Sys, cwd: int, p: string)
    requires SysOk(s) && In(s.fs.t, cwd)
    ensures var r := s.(fs := Touch(s.fs, cwd, p).0); SysOk(r) && Kept(s.fs, r.fs) && SameViews(s, r) && SameFiles(s, r)
  {
    TouchOk(s.fs, cwd, p);
    forall n | In(Touch(s.fs, cwd, p).0.t, n)
      ensures FileRegion(Touch(s.fs, cwd, p).0.t[n]) == if In(s.fs.t, n) then FileRegion(s.fs.t[n]) else Region(0, 0)
    {
      TouchFrame(s.fs, cwd, p, n);
    }
    hide Touch;
    TreeStep(s, Touch(s.fs, cwd, p).0);
  }

  lemma MakeDirFrame(fs: Fs, cwd: int, p: string, n: int)
    requires FsOk(fs) && In(fs.t, cwd) && In(MakeDir(fs, cwd, p).0.t, n)
    ensures var t := MakeDir(fs, cwd, p).0.t;
            FileRegion(t[n]) == if In(fs.t, n) then FileRegion(fs.t[n]) else Region(0, 0)
  {
    hide Aliased, Target;
  }

  lemma MadeDirOk(s: Sys, cwd: int, p: string)
    requires SysOk(s) && In(s.fs.t, cwd)
    ensures var r := s.(fs := MakeDir(s.fs, cwd, p).0);
            SysOk(r) && Kept(s.fs, r.fs) && SameViews(s, r) && SameFiles(s, r)
  {
    MakeDirOk(s.fs, cwd, p);
    forall n | In(MakeDir(s.fs, cwd, p).0.t, n)
      ensures FileRegion(MakeDir(s.fs, cwd, p).0.t[n])
              == if In(s.fs.t, n) then FileRegion(s.fs.t[n]) else Region(0, 0)
    {
      MakeDirFrame(s.fs, cwd, p, n);
    }
    hide MakeDir;
    TreeStep(s, MakeDir(s.fs, cwd, p).0);
  }

  ghost predicate SameView(s: Sys, r: Sys, f: int) {
    (Open(s, f) <==> Open(r, f)) && (Open(s, f) ==> View(r, f) == View(s, f))
  }

  ghost predicate SameViews(s: Sys, r: Sys) {
    forall f :: SameView(s, r, f)
  }

  /** Old files keep their bytes, new ones are empty. */
  ghost predicate SameFile(s: Sys, r: Sys, n: int) {
    In(r.fs.t, n) ==> FileBytes(r, n) == if In(s.fs.t, n) then FileBytes(s, n) else []
  }

  ghost predicate SameFiles(s: Sys, r: Sys) {
    forall n :: In(r.fs.t, n) ==> SameFile(s, r, n)
  }

  /** A writable descriptor whose buffer has been given the first `initial` bytes of the file. */
  function Begun(d: Fd, initial: U32, flags: U32): Fd
    requires d.buf.Some?
  {
    var cut := Bit(flags, O_TRUNC);
    d.(wsize := initial, data := d.buf.value, size := initial, offset := if cut then 0 else d.offset, dirty := cut)
  }

  /** The rest of it, on the node found. */
  function OpenNode(s: Sys, n: int, pid: int, full: string, flags: U32): (r: (Sys, Outcome))
    requires FsOk(s.fs) && s.fs.h.ready && |s.mem| == USER_BASE && |s.fds| == MAX_FDS && In(s.fs.t, n)
    requires Inside(s.fs.h, FileRegion(s.fs.t[n]))
  {
    var slot := AllocSlot(s.fds);
    var node := s.fs.t[n];
    var d := Fresh(pid, flags, full, node.data, node.size);
    if slot < 0 then (s, Fail(NFILE))
    else if !WantsWrite(flags) then (s.(fds := s.fds[slot := Some(d)]), Done(slot, []))
    else
      var initial := if Bit(flags, O_TRUNC) then 0 else node.size;
      match EnsureCapacity(s.fs.h, s.mem, d, initial + 1)
      case None => (s, Fail(INVAL))
      case Some(grown) =>
        EnsureCapacityOk(s.fs.h, s.mem, d, initial + 1);
        var (h, mem, d1) := grown;
        var bytes := Load(mem, Region(node.data, initial)) + [0];
        (Sys(s.fs.(h := h), Blit(mem, d1.buf.value, bytes), s.fds[slot := Some(Begun(d1, initial, flags))]),
         Done(slot, []))
  }

  /** `vfs_write_file` with its copy: the file's bytes and a terminator in a fresh block. */
  function Publish(s: Sys, cwd: int, path: string, b: seq<Byte>): (r: (Sys, bool))
    requires FsOk(s.fs) && |s.mem| == USER_BASE && s.fs.h.ready && In(s.fs.t, cwd) && |b| < USER_BASE
  {
    var (fs, block) := WriteFile(s.fs, cwd, path, |b|);
    if block == None then (s.(fs := fs), false)
    else
      WriteFileBlock(s.fs, cwd, path, |b|);
      (Sys(fs, Blit(s.mem, block.value, b + [0]), s.fds), true)
  }

  /** A successful write: after the touch (`s1`), a fresh block on the resolved node. */
  ghost predicate Written(fs: Fs, s1: Fs, cwd: int, path: string, size: U32, r: Fs, block: U32) {
    && FsOk(s1) && In(s1.t, cwd) && Kept(fs, s1) && FsOk(r) && In(r.t, cwd)
    && s1.h.current <= block && block + size + 1 <= r.h.current <= USER_BASE
    && r.h == s1.h.(current := r.h.current)
    && ResolveFrom(s1.t, cwd, path).Some? && ResolveFrom(r.t, cwd, path) == ResolveFrom(s1.t, cwd, path)
    && r.t == Published(s1.t, ResolveFrom(s1.t, cwd, path).value, block, size)
  }

  /** A successful write, taken apart. */
  lemma WriteFileIs(fs: Fs, cwd: int, path: string, size: U32)
    requires FsOk(fs) && In(fs.t, cwd) && size < USER_BASE && WriteFile(fs, cwd, path, size).1.Some?
    requires FsOk(Touch(fs, cwd, path).0) && In(Touch(fs, cwd, path).0.t, cwd)
    ensures var s1 := Touch(fs, cwd, path).0;
            && Touch(fs, cwd, path).1 && ResolveFrom(s1.t, cwd, path).Some?
            && var (h, block) := Alloc(s1.h, size + 1);
               && block.Some?
               && WriteFile(fs, cwd, path, size)
                  == (Fs(Published(s1.t, ResolveFrom(s1.t, cwd, path).value, block.value, size), h), block)
  {
    hide Touch, Aliased, ResolveFrom, Alloc;
  }

  lemma WriteFileBlock(fs: Fs, cwd: int, path: string, size: U32)
    requires FsOk(fs) && fs.h.ready && In(fs.t, cwd) && size < USER_BASE
    ensures var (r, block) := WriteFile(fs, cwd, path, size);
            && Kept(fs, r)
            && (block.Some? ==>
                  && Written(fs, Touch(fs, cwd, path).0, cwd, path, size, r, block.value) && Touch(fs, cwd, path).1)
  {
    WriteFileOk(fs, cwd, path, size);
    TouchOk(fs, cwd, path);
    var (r, block) := WriteFile(fs, cwd, path, size);
    if block.Some? {
      var s1 := Touch(fs, cwd, path).0;
      WriteFileIs(fs, cwd, path, size);
      hide Touch, ResolveFrom, WriteFile, Alloc, Links;
      var n := ResolveFrom(s1.t, cwd, path).value;
      AllocIs(s1.h, size + 1);
      PublishedOk(s1.t, n, block.value, size);
      ResolveStays(s1.t, r.t, cwd, path);
    }
  }

  /** `ksys_close`. */
  function CloseFd(s: Sys, cwd: int, pid: int, fd: int): (r: (Sys, Outcome))
    requires SysOk(s) && In(s.fs.t, cwd)
  {
    match Lookup(s, pid, fd)
    case None => (s, Fail(BADF))
    case Some(f) =>
      assert FdOk(s.fs.h, s.fds[f].value);
      var d := s.fds[f].value;
      if d.writable && d.dirty then
        var (s1, ok) := Publish(s, cwd, d.path, View(s, f).bytes);
        if !ok then (s1, Fail(INVAL)) else (s1.(fds := s1.fds[f := None]), Done(0, []))
      else (s.(fds := s.fds[f := None]), Done(0, []))
  }
}
