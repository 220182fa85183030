// Whole runs of file calls by any processes: every descriptor is a simple file, and what is written is read back.

module FilesRun {
  import opened Bytes
  import opened Paths
  import opened Heap
  import opened Tree
  import opened Resolve
  import opened Vfs
  import opened Files
  import opened FilesInv
  import opened FilesOpen

  datatype Call =
    | OpenCall(cwd: int, pid: int, path: string, flags: U32)
    | ReadCall(pid: int, fd: int, len: U32)
    | WriteCall(pid: int, fd: int, bytes: seq<Byte>)
    | CloseCall(cwd: int, pid: int, fd: int)
    | PutCall(cwd: int, path: string, bytes: seq<Byte>)
    | TouchCall(cwd: int, path: string)
    | MkdirCall(cwd: int, path: string)

  /** A call from a current directory that does not exist is nobody's, and a file larger than memory has no source. */
  predicate Possible(s: Sys, c: Call) {
    && (c.OpenCall? || c.CloseCall? || c.PutCall? || c.TouchCall? || c.MkdirCall? ==> In(s.fs.t, c.cwd))
    && (c.PutCall? ==> |c.bytes| < USER_BASE)
  }

  function Perform(s: Sys, c: Call): (r: (Sys, Outcome))
    requires SysOk(s)
  {
    if !Possible(s, c) then (s, Fail(INVAL))
    else
      match c
      case OpenCall(cwd, pid, path, flags) => OpenFile(s, cwd, pid, path, flags)
      case ReadCall(pid, fd, len) => ReadFd(s, pid, fd, len)
      case WriteCall(pid, fd, b) => WriteFd(s, pid, fd, b)
      case CloseCall(cwd, pid, fd) => CloseFd(s, cwd, pid, fd)
      case PutCall(cwd, path, b) =>
        var (r, ok) := Publish(s, cwd, path, b); (r, if ok then Done(0, []) else Fail(INVAL))
      case TouchCall(cwd, path) =>
        var (fs, ok) := Touch(s.fs, cwd, path); (s.(fs := fs), if ok then Done(0, []) else Fail(INVAL))
      case MkdirCall(cwd, path) =>
        var (fs, ok) := MakeDir(s.fs, cwd, path); (s.(fs := fs), if ok then Done(0, []) else Fail(INVAL))
  }

  /** The calls, one by one. */
  lemma PerformIs(s: Sys, c: Call)
    requires SysOk(s) && Possible(s, c)
    ensures c.OpenCall? ==> Perform(s, c) == OpenFile(s, c.cwd, c.pid, c.path, c.flags)
    ensures c.ReadCall? ==> Perform(s, c) == ReadFd(s, c.pid, c.fd, c.len)
    ensures c.WriteCall? ==> Perform(s, c) == WriteFd(s, c.pid, c.fd, c.bytes)
    ensures c.CloseCall? ==> Perform(s, c) == CloseFd(s, c.cwd, c.pid, c.fd)
    ensures c.PutCall? ==>
              FsOk(s.fs) && s.fs.h.ready && |s.mem| == USER_BASE
              && var (r, ok) := Publish(s, c.cwd, c.path, c.bytes);
                 Perform(s, c) == (r, if ok then Done(0, []) else Fail(INVAL))
    ensures c.TouchCall? ==>
              Links(s.fs.t)
              && var (fs, ok) := Touch(s.fs, c.cwd, c.path);
                 Perform(s, c) == (s.(fs := fs), if ok then Done(0, []) else Fail(INVAL))
    ensures c.MkdirCall? ==>
              Links(s.fs.t)
              && var (fs, ok) := MakeDir(s.fs, c.cwd, c.path);
                 Perform(s, c) == (s.(fs := fs), if ok then Done(0, []) else Fail(INVAL))
  {
    assert FsOk(s.fs) && Links(s.fs.t) && s.fs.h.ready && |s.mem| == USER_BASE;
    hide SysOk, FsOk, OpenFile, ReadFd, WriteFd, CloseFd, Publish, Touch, MakeDir;
  }

  // ---- one step ------------------------------------------------------------

  /** The call is the owner's, on slot `f`. */
  predicate Aims(v: Stream, f: int, c: Call) {
    (c.ReadCall? || c.WriteCall? || c.CloseCall?) && c.fd == f && c.pid == v.pid
  }

  predicate InBounds(v: Stream) {
    v.pos <= |v.bytes|
  }

  /** The simple file after a call that left it open. */
  function Moved(v: Stream, f: int, c: Call, out: Outcome): (r: Stream)
    requires InBounds(v)
    ensures InBounds(r) && r.pid == v.pid && r.path == v.path && r.readable == v.readable && r.writable == v.writable
  {
    if !Aims(v, f, c) || out.Fail? then v
    else
      match c
      case ReadCall(_, _, len) => v.(pos := v.pos + |NextBytes(v, len)|)
      case WriteCall(_, _, b) => v.(bytes := Overwrite(v.bytes, v.pos, b), pos := v.pos + |b|, dirty := true)
      case _ => v
  }

  /** The answer the simple file gives: the next bytes, or how many were taken. */
  predicate Answers(v: Stream, f: int, c: Call, out: Outcome)
    requires InBounds(v)
  {
    if !Aims(v, f, c) then true
    else
      match c
      case ReadCall(_, _, len) =>
        if len > USER_MAX then out == Fail(FAULT)
        else if !v.readable then out == Fail(BADF)
        else out == Done(|NextBytes(v, len)|, NextBytes(v, len))
      case WriteCall(_, _, b) =>
        if |b| > USER_MAX then out == Fail(FAULT)
        else if !v.writable then out == Fail(BADF)
        else out == Done(|b|, []) || out == Fail(INVAL)
      case _ => true
  }

  lemma ViewInBounds(s: Sys, f: int)
    requires SysOk(s) && Open(s, f)
    ensures InBounds(View(s, f))
  {
    assert FdOk(s.fs.h, s.fds[f].value);
  }

  predicate Closes(s: Sys, f: int, c: Call)
    requires Open(s, f)
  {
    c.CloseCall? && Aims(View(s, f), f, c)
  }

  /** What a step shows of slot `f`: the simple file's own step, unless it is closed. */
  ghost predicate SlotShows(s: Sys, c: Call, f: int, r: Sys, out: Outcome) {
    && SysOk(r) && Open(s, f) && InBounds(View(s, f))
    && (!Closes(s, f, c) || out.Fail? ==>
          Open(r, f) && View(r, f) == Moved(View(s, f), f, c, out) && Answers(View(s, f), f, c, out))
  }

  lemma ReadStep(s: Sys, pid: int, fd: int, len: U32, f: int)
    requires SysOk(s) && Open(s, f)
    ensures var (r, out) := ReadFd(s, pid, fd, len); SlotShows(s, ReadCall(pid, fd, len), f, r, out)
  {
    ViewInBounds(s, f);
    ReadRefines(s, pid, fd, len);
    var (r, out) := ReadFd(s, pid, fd, len);
    assert fd != f ==> SameView(s, r, f);
    assert FIRST_FD <= f;
    hide SysOk, ReadFd, SameFiles, View, SameView, NextBytes;
    assert SameView(s, s, f);
  }

  lemma WriteStep(s: Sys, pid: int, fd: int, b: seq<Byte>, f: int)
    requires SysOk(s) && Open(s, f)
    ensures var (r, out) := WriteFd(s, pid, fd, b); SlotShows(s, WriteCall(pid, fd, b), f, r, out)
  {
    ViewInBounds(s, f);
    WriteRefines(s, pid, fd, b);
    var (r, out) := WriteFd(s, pid, fd, b);
    assert fd != f ==> SameView(s, r, f);
    assert FIRST_FD <= f;
    hide SysOk, WriteFd, SameFiles, View, SameView, Overwrite, NoRoom;
  }

  /** Any other call that leaves the slot's view alone. */
  lemma QuietStep(s: Sys, c: Call, f: int, r: Sys, out: Outcome)
    requires SysOk(s) && Open(s, f) && SysOk(r) && (!c.ReadCall? && !c.WriteCall?)
    requires !Closes(s, f, c) || out.Fail? ==> SameView(s, r, f)
    ensures SlotShows(s, c, f, r, out)
  {
    ViewInBounds(s, f);
    hide SysOk, View;
  }

  /** Whatever the call and whoever makes it, an open descriptor behaves as the simple file. */
  lemma DescriptorStep(s: Sys, c: Call, f: int)
    requires SysOk(s) && Open(s, f)
    ensures var (r, out) := Perform(s, c); SlotShows(s, c, f, r, out)
  {
    if !Possible(s, c) {
      ImpossibleStep(s, c, f);
      return;
    }
    assert c.PutCall? ==> |c.bytes| < USER_BASE;
    assert !c.ReadCall? && !c.WriteCall? ==> In(s.fs.t, c.cwd);
    PerformIs(s, c);
    if c.ReadCall? {
      hide *;
      ReadStep(s, c.pid, c.fd, c.len, f);
    } else if c.WriteCall? {
      hide *;
      WriteStep(s, c.pid, c.fd, c.bytes, f);
    } else {
      OtherStep(s, c, f);
    }
    hide SysOk, Perform, SlotShows;
  }

  /** The calls that neither read nor write leave every descriptor as it was, but one that is closed. */
  lemma OtherStep(s: Sys, c: Call, f: int)
    requires SysOk(s) && Open(s, f) && Possible(s, c) && !c.ReadCall? && !c.WriteCall?
    ensures var (r, out) := Perform(s, c); SlotShows(s, c, f, r, out)
  {
    var (r, out) := Perform(s, c);
    PerformIs(s, c);
    PerformOk(s, c);
    hide SysOk, Kept, OpenFile, CloseFd, Publish, Touch, MakeDir, SameView, SameFiles, OpenedAt, CloseDone, View, Perform;
    match c {
      case OpenCall(cwd, pid, path, flags) => OpenRefines(s, cwd, pid, path, flags);
      case CloseCall(cwd, pid, fd) => CloseRefines(s, cwd, pid, fd);
      case PutCall(cwd, path, b) => PublishRefines(s, cwd, path, b); DoneOk(s, cwd, path, b);
      case TouchCall(cwd, path) => TouchedOk(s, cwd, path);
      case MkdirCall(cwd, path) => MadeDirOk(s, cwd, path);
      case _ =>
    }
    assert !Closes(s, f, c) || out.Fail? ==> SameView(s, r, f);
    QuietStep(s, c, f, r, out);
  }

  lemma ImpossibleStep(s: Sys, c: Call, f: int)
    requires SysOk(s) && Open(s, f) && !Possible(s, c)
    ensures SlotShows(s, c, f, s, Fail(INVAL))
  {
    ViewInBounds(s, f);
  }

  lemma PerformOk(s: Sys, c: Call)
    requires SysOk(s)
    ensures SysOk(Perform(s, c).0) && Kept(s.fs, Perform(s, c).0.fs)
  {
    if !Possible(s, c) {
      assert Kept(s.fs, s.fs);
      return;
    }
    assert c.PutCall? ==> |c.bytes| < USER_BASE;
    assert !c.ReadCall? && !c.WriteCall? ==> In(s.fs.t, c.cwd);
    PerformIs(s, c);
    hide *;
    match c
    case OpenCall(cwd, pid, path, flags) => OpenRefines(s, cwd, pid, path, flags);
    case ReadCall(pid, fd, len) => ReadRefines(s, pid, fd, len); ReadKept(s, pid, fd, len);
    case WriteCall(pid, fd, b) => WriteRefines(s, pid, fd, b); WriteKept(s, pid, fd, b);
    case CloseCall(cwd, pid, fd) => CloseRefines(s, cwd, pid, fd);
    case PutCall(cwd, path, b) => PublishRefines(s, cwd, path, b); DoneOk(s, cwd, path, b);
    case TouchCall(cwd, path) => TouchedOk(s, cwd, path);
    case MkdirCall(cwd, path) => MadeDirOk(s, cwd, path);
  }

  lemma DoneOk(s: Sys, cwd: int, path: string, b: seq<Byte>)
    requires SysOk(s) && In(s.fs.t, cwd) && |b| < USER_BASE
    requires var (r, ok) := Publish(s, cwd, path, b); PublishDone(s, cwd, path, b, r, ok)
    ensures var r := Publish(s, cwd, path, b).0; SysOk(r) && Kept(s.fs, r.fs) && SameViews(s, r)
  {
    hide SysOk, Kept, Publish, SameViews;
  }

  lemma ReadKept(s: Sys, pid: int, fd: int, len: U32)
    requires SysOk(s)
    ensures Kept(s.fs, ReadFd(s, pid, fd, len).0.fs)
  {
    assert Kept(s.fs, s.fs);
    hide Kept, SysOk;
  }

  lemma WriteKept(s: Sys, pid: int, fd: int, b: seq<Byte>)
    requires SysOk(s)
    ensures Kept(s.fs, WriteFd(s, pid, fd, b).0.fs) && WriteFd(s, pid, fd, b).0.fs.t == s.fs.t
  {
    WriteRefines(s, pid, fd, b);
    assert Kept(s.fs, s.fs) && Ok(s.fs.t);
    hide SysOk, WriteFd, SameFiles, SameView, WriteDone, NoRoom, View, Ok, Load, Stored, Advanced;
    if WriteFd(s, pid, fd, b).1.Done? {
      var h, mem, d1 := WriteIs(s, pid, fd, b);
    }
  }

  // ---- runs ----------------------------------------------------------------

  ghost function Finally(s: Sys, calls: seq<Call>): (r: Sys)
    requires SysOk(s)
    ensures SysOk(r)
    decreases calls
  {
    if calls == [] then s else PerformOk(s, calls[0]); Finally(Perform(s, calls[0]).0, calls[1..])
  }

  ghost function Outcomes(s: Sys, calls: seq<Call>): (outs: seq<Outcome>)
    requires SysOk(s)
    ensures |outs| == |calls|
    decreases calls
  {
    if calls == [] then []
    else PerformOk(s, calls[0]); [Perform(s, calls[0]).1] + Outcomes(Perform(s, calls[0]).0, calls[1..])
  }

  /** The owner does not close slot `f` during these calls. */
  predicate StaysOpen(pid: int, f: int, calls: seq<Call>) {
    forall k :: 0 <= k < |calls| ==> !(calls[k].CloseCall? && calls[k].fd == f && calls[k].pid == pid)
  }

  /** The simple file after a run. */
  function Fold(v: Stream, f: int, calls: seq<Call>, outs: seq<Outcome>): (r: Stream)
    requires InBounds(v) && |outs| == |calls|
    ensures InBounds(r)
    decreases calls
  {
    if calls == [] then v else Fold(Moved(v, f, calls[0], outs[0]), f, calls[1..], outs[1..])
  }

  predicate AllAnswered(v: Stream, f: int, calls: seq<Call>, outs: seq<Outcome>)
    requires InBounds(v) && |outs| == |calls|
    decreases calls
  {
    calls != [] ==> Answers(v, f, calls[0], outs[0])
                    && AllAnswered(Moved(v, f, calls[0], outs[0]), f, calls[1..], outs[1..])
  }

  /**
   * Each descriptor refines a simple (bytes, position) file for every interleaving of calls by all processes: every
   * answer its owner gets is the simple file's, and its buffer and offset are the simple file's at the end.
   */
  lemma {:induction false} DescriptorRefines(s: Sys, calls: seq<Call>, f: int)
    requires SysOk(s) && Open(s, f) && StaysOpen(View(s, f).pid, f, calls)
    ensures InBounds(View(s, f)) && Open(Finally(s, calls), f)
    ensures View(Finally(s, calls), f) == Fold(View(s, f), f, calls, Outcomes(s, calls))
    ensures AllAnswered(View(s, f), f, calls, Outcomes(s, calls))
    decreases calls
  {
    ViewInBounds(s, f);
    if calls != [] {
      var (r, out) := Perform(s, calls[0]);
      DescriptorStep(s, calls[0], f);
      PerformOk(s, calls[0]);
      assert !Closes(s, f, calls[0]);
      assert Outcomes(s, calls)[1..] == Outcomes(r, calls[1..]) && Outcomes(s, calls)[0] == out;
      hide Perform, SysOk, View, Kept;
      DescriptorRefines(r, calls[1..], f);
    }
  }
}
