// Opening, closing and publishing files: what each shows of the simple file it stands for.

module FilesOpen {
  import opened Bytes
  import opened Paths
  import opened Heap
  import opened Tree
  import opened Resolve
  import opened Vfs
  import opened Files
  import opened FilesInv

  // ---- publishing ----------------------------------------------------------

  /** File `n` gets a fresh block holding `b`; nothing else happens. */
  ghost predicate FileChange(s: Sys, r: Sys, n: int, b: seq<Byte>) {
    && In(s.fs.t, n) && r.fds == s.fds
    && FsOk(r.fs) && r.fs.h == s.fs.h.(current := r.fs.h.current) && s.fs.h.current <= r.fs.h.current
    && exists block: U32 ::
         && s.fs.h.current <= block && block + |b| <= r.fs.h.current <= USER_BASE && |s.mem| == |r.mem| == USER_BASE
         && r.fs.t == Published(s.fs.t, n, block, |b|)
         && r.mem[block..block + |b|] == b
         && Agrees(s, r, Region(0, 0))
  }

  lemma PublishViews(s: Sys, r: Sys, n: int, b: seq<Byte>, g: int)
    requires SysOk(s) && FileChange(s, r, n, b)
    ensures SameView(s, r, g) && (Open(r, g) ==> FIRST_FD <= g && FdOk(r.fs.h, r.fds[g].value))
  {
    if Open(s, g) {
      var d := s.fds[g].value;
      assert FdOk(s.fs.h, d);
      LoadFrame(s, r, Region(0, 0), if d.writable then Region(d.buf.value, d.wsize) else Region(d.data, d.size));
    }
  }

  lemma PublishFiles(s: Sys, r: Sys, n: int, b: seq<Byte>, m: int)
    requires SysOk(s) && FileChange(s, r, n, b) && In(r.fs.t, m)
    ensures NodeOk(r, m) && FileBytes(r, m) == if m == n then b else FileBytes(s, m)
  {
    if m != n {
      assert NodeOk(s, m);
      LoadFrame(s, r, Region(0, 0), FileRegion(s.fs.t[m]));
    }
  }

  lemma PublishApart(s: Sys, r: Sys, n: int, b: seq<Byte>, g: int, m: int)
    requires SysOk(s) && FileChange(s, r, n, b) && Open(r, g) && In(r.fs.t, m)
    ensures FileApart(r, g, m)
  {
    assert Open(s, g) && FdOk(s.fs.h, s.fds[g].value) && FileApart(s, g, m);
  }

  lemma PublishStep(s: Sys, r: Sys, n: int, b: seq<Byte>)
    requires SysOk(s) && FileChange(s, r, n, b)
    ensures SysOk(r) && SameViews(s, r) && In(r.fs.t, n) && FileBytes(r, n) == b
    ensures forall m :: In(r.fs.t, m) && m != n ==> SameFile(s, r, m)
  {
    forall g ensures SameView(s, r, g) && (Open(r, g) ==> FIRST_FD <= g && FdOk(r.fs.h, r.fds[g].value)) {
      PublishViews(s, r, n, b, g);
    }
    forall m | In(r.fs.t, m) ensures NodeOk(r, m) && FileBytes(r, m) == if m == n then b else FileBytes(s, m) {
      PublishFiles(s, r, n, b, m);
    }
    forall g, m | Open(r, g) && In(r.fs.t, m) ensures FileApart(r, g, m) {
      PublishApart(s, r, n, b, g, m);
    }
    forall g, h | Open(r, g) && Open(r, h) ensures FdApart(r, g, h) {
      assert FdApart(s, g, h);
    }
    forall m | In(r.fs.t, m) && m != n ensures SameFile(s, r, m) {
      assert FileBytes(r, m) == FileBytes(s, m);
    }
  }

  /** What publishing `b` at `path` does, whether or not it succeeds. */
  ghost predicate PublishDone(s: Sys, cwd: int, path: string, b: seq<Byte>, r: Sys, ok: bool) {
    && SysOk(r) && Kept(s.fs, r.fs) && SameViews(s, r)
    && (!ok ==> SameFiles(s, r))
    && (ok ==>
          && In(r.fs.t, cwd) && ResolveFrom(r.fs.t, cwd, path).Some?
          && FileBytes(r, ResolveFrom(r.fs.t, cwd, path).value) == b
          && (Faithful(path) ==> ReadFile(r.fs.t, cwd, path) == ResolveFrom(r.fs.t, cwd, path))
          && forall m :: In(r.fs.t, m) && ResolveFrom(r.fs.t, cwd, path) != Some(m) ==> SameFile(s, r, m))
  }

  /** The file at the path holds exactly the bytes published; every other file and descriptor shows what it did. */
  lemma PublishRefines(s: Sys, cwd: int, path: string, b: seq<Byte>)
    requires SysOk(s) && In(s.fs.t, cwd) && |b| < USER_BASE
    ensures var (r, ok) := Publish(s, cwd, path, b); PublishDone(s, cwd, path, b, r, ok)
  {
    var (r, ok) := Publish(s, cwd, path, b);
    TouchedOk(s, cwd, path);
    WriteFileBlock(s.fs, cwd, path, |b|);
    var s1 := s.(fs := Touch(s.fs, cwd, path).0);
    if ok {
      PublishWorks(s, s1, cwd, path, b);
    } else {
      PublishFails(s, s1, cwd, path, b);
    }
  }

  lemma PublishFails(s: Sys, s1: Sys, cwd: int, path: string, b: seq<Byte>)
    requires SysOk(s) && In(s.fs.t, cwd) && |b| < USER_BASE && !Publish(s, cwd, path, b).1
    requires s1 == s.(fs := Touch(s.fs, cwd, path).0)
    requires SysOk(s1) && Kept(s.fs, s1.fs) && SameViews(s, s1) && SameFiles(s, s1)
    ensures PublishDone(s, cwd, path, b, Publish(s, cwd, path, b).0, false)
  {
    var r := Publish(s, cwd, path, b).0;
    assert r == s || r == s1;
    assert SameViews(s, s) && SameFiles(s, s) && Kept(s.fs, s.fs);
    hide SysOk, Kept, SameViews, SameFiles, Publish;
  }

  lemma PublishWorks(s: Sys, s1: Sys, cwd: int, path: string, b: seq<Byte>)
    requires SysOk(s) && In(s.fs.t, cwd) && |b| < USER_BASE && Publish(s, cwd, path, b).1
    requires s1 == s.(fs := Touch(s.fs, cwd, path).0)
    requires SysOk(s1) && Kept(s.fs, s1.fs) && SameViews(s, s1) && SameFiles(s, s1)
    ensures PublishDone(s, cwd, path, b, Publish(s, cwd, path, b).0, true)
  {
    var r := Publish(s, cwd, path, b).0;
    var n := PublishChanges(s, s1, cwd, path, b);
    PublishStep(s1, r, n, b);
    PublishResolves(s, s1, r, cwd, path, n);
    PublishOthers(s, s1, r, n);
    hide SysOk, Kept, Publish, Touch, FileChange, ReadFile, ResolveFrom;
  }

  lemma PublishIs(s: Sys, cwd: int, path: string, b: seq<Byte>) returns (n: int, block: U32)
    requires FsOk(s.fs) && |s.mem| == USER_BASE && s.fs.h.ready && In(s.fs.t, cwd) && |b| < USER_BASE
    requires Publish(s, cwd, path, b).1
    ensures var r, fs1 := Publish(s, cwd, path, b).0, Touch(s.fs, cwd, path).0;
            && Kept(s.fs, r.fs) && FsOk(r.fs) && Ok(fs1.t) && Links(fs1.t) && In(fs1.t, n) && In(fs1.t, cwd)
            && Touch(s.fs, cwd, path).1 && ResolveFrom(fs1.t, cwd, path) == Some(n)
            && fs1.h.current <= block && block + |b| + 1 <= r.fs.h.current <= USER_BASE
            && r.fs.h == fs1.h.(current := r.fs.h.current)
            && r == Sys(Fs(Published(fs1.t, n, block, |b|), r.fs.h), Blit(s.mem, block, b + [0]), s.fds)
  {
    WriteFileBlock(s.fs, cwd, path, |b|);
    var fs1 := Touch(s.fs, cwd, path).0;
    var r := WriteFile(s.fs, cwd, path, |b|).0;
    block := WriteFile(s.fs, cwd, path, |b|).1.value;
    assert Written(s.fs, fs1, cwd, path, |b|, r, block);
    hide Touch, Aliased, ResolveFrom, WriteFile, Kept;
    n := ResolveFrom(fs1.t, cwd, path).value;
  }

  lemma FreshFile(s: Sys, r: Sys, n: int, b: seq<Byte>, block: U32)
    requires In(s.fs.t, n) && FsOk(r.fs) && r.fs.h == s.fs.h.(current := r.fs.h.current) && |s.mem| == USER_BASE
    requires s.fs.h.current <= block && block + |b| + 1 <= r.fs.h.current <= USER_BASE
    requires r == Sys(Fs(Published(s.fs.t, n, block, |b|), r.fs.h), Blit(s.mem, block, b + [0]), s.fds)
    ensures FileChange(s, r, n, b)
  {
    assert r.mem[block..block + |b|] == b;
    assert Agrees(s, r, Region(0, 0));
    hide FsOk, Agrees;
  }

  lemma PublishChanges(s: Sys, s1: Sys, cwd: int, path: string, b: seq<Byte>) returns (n: int)
    requires SysOk(s) && FsOk(s.fs) && |s.mem| == USER_BASE && s.fs.h.ready && In(s.fs.t, cwd) && |b| < USER_BASE
    requires Publish(s, cwd, path, b).1 && s1 == s.(fs := Touch(s.fs, cwd, path).0)
    ensures var r := Publish(s, cwd, path, b).0;
            && Kept(s.fs, r.fs) && FileChange(s1, r, n, b) && Links(s1.fs.t)
            && Touch(s.fs, cwd, path).1 && In(s1.fs.t, cwd) && ResolveFrom(s1.fs.t, cwd, path) == Some(n)
  {
    hide *;
    var block;
    n, block := PublishIs(s, cwd, path, b);
    FreshFile(s1, Publish(s, cwd, path, b).0, n, b, block);
  }

  lemma PublishResolves(s: Sys, s1: Sys, r: Sys, cwd: int, path: string, n: int)
    requires FsOk(s.fs) && In(s.fs.t, cwd) && s1 == s.(fs := Touch(s.fs, cwd, path).0) && Touch(s.fs, cwd, path).1
    requires FsOk(s1.fs) && In(s1.fs.t, cwd) && ResolveFrom(s1.fs.t, cwd, path) == Some(n) && FsOk(r.fs)
    requires exists block: U32, size: U32 :: r.fs.t == Published(s1.fs.t, n, block, size)
    ensures In(r.fs.t, cwd) && ResolveFrom(r.fs.t, cwd, path) == Some(n)
    ensures Faithful(path) ==> ReadFile(r.fs.t, cwd, path) == Some(n)
  {
    var block: U32, size: U32 :| r.fs.t == Published(s1.fs.t, n, block, size);
    PublishedOk(s1.fs.t, n, block, size);
    ResolveStays(s1.fs.t, r.fs.t, cwd, path);
    TouchResolves(s.fs, cwd, path);
    hide Touch, ResolveFrom, Faithful;
  }

  lemma PublishOthers(s: Sys, s1: Sys, r: Sys, n: int)
    requires SameViews(s, s1) && SameViews(s1, r) && SameFiles(s, s1)
    requires |s.fs.t| <= |s1.fs.t| == |r.fs.t| && forall m :: In(r.fs.t, m) && m != n ==> SameFile(s1, r, m)
    ensures SameViews(s, r) && forall m :: In(r.fs.t, m) && m != n ==> SameFile(s, r, m)
  {
    forall g ensures SameView(s, r, g) {
      assert SameView(s, s1, g) && SameView(s1, r, g);
    }
    forall m | In(r.fs.t, m) && m != n ensures SameFile(s, r, m) {
      assert SameFile(s, s1, m) && SameFile(s1, r, m);
    }
  }

  // ---- closing -------------------------------------------------------------

  lemma Closed(s: Sys, f: int)
    requires SysOk(s) && Open(s, f)
    ensures var r := s.(fds := s.fds[f := None]);
            SysOk(r) && SameFiles(s, r) && !Open(r, f) && forall g :: g != f ==> SameView(s, r, g)
  {
    var r := s.(fds := s.fds[f := None]);
    SlotStep(s, r, f);
  }

  /** Closing a changed descriptor publishes its bytes at its path; closing any other only closes it. */
  lemma CloseRefines(s: Sys, cwd: int, pid: int, fd: int)
    requires SysOk(s) && In(s.fs.t, cwd)
    ensures var (r, out) := CloseFd(s, cwd, pid, fd);
            && SysOk(r) && Kept(s.fs, r.fs) && (forall g :: g != fd ==> SameView(s, r, g))
            && (out == Fail(BADF) <==> Lookup(s, pid, fd) == None) && (out == Fail(BADF) ==> r == s)
            && (out.Fail? ==> SameViews(s, r) && SameFiles(s, r))
            && (out.Done? ==> !Open(r, fd) && Lookup(s, pid, fd).Some? && CloseDone(s, cwd, View(s, fd), r))
  {
    var (r, out) := CloseFd(s, cwd, pid, fd);
    assert SameViews(s, s) && SameFiles(s, s) && Kept(s.fs, s.fs);
    if Lookup(s, pid, fd).Some? {
      var v := View(s, fd);
      assert FdOk(s.fs.h, s.fds[fd].value);
      if v.writable && v.dirty {
        PublishRefines(s, cwd, v.path, v.bytes);
        var (s1, ok) := Publish(s, cwd, v.path, v.bytes);
        if ok {
          assert Open(s1, fd) by { assert SameView(s, s1, fd); }
          Closed(s1, fd);
          CloseTwice(s, s1, r, cwd, fd);
        }
      } else {
        Closed(s, fd);
      }
    }
  }

  /** The files after a close of a descriptor that showed `v`. */
  ghost predicate CloseDone(s: Sys, cwd: int, v: Stream, r: Sys) {
    if v.writable && v.dirty then
      && Ok(r.fs.t) && In(r.fs.t, cwd) && ResolveFrom(r.fs.t, cwd, v.path).Some?
      && FileBytes(r, ResolveFrom(r.fs.t, cwd, v.path).value) == v.bytes
      && (Faithful(v.path) ==> ReadFile(r.fs.t, cwd, v.path) == ResolveFrom(r.fs.t, cwd, v.path))
      && forall m :: In(r.fs.t, m) && ResolveFrom(r.fs.t, cwd, v.path) != Some(m) ==> SameFile(s, r, m)
    else r.fs == s.fs && SameFiles(s, r)
  }

  lemma CloseTwice(s: Sys, s1: Sys, r: Sys, cwd: int, fd: int)
    requires Open(s, fd) && View(s, fd).writable && View(s, fd).dirty
    requires PublishDone(s, cwd, View(s, fd).path, View(s, fd).bytes, s1, true)
    requires 0 <= fd < |s1.fds| && r == s1.(fds := s1.fds[fd := None])
    requires forall g :: g != fd ==> SameView(s1, r, g)
    ensures CloseDone(s, cwd, View(s, fd), r) && Kept(s.fs, r.fs) && forall g :: g != fd ==> SameView(s, r, g)
  {
    var v := View(s, fd);
    forall g | g != fd ensures SameView(s, r, g) {
      assert SameView(s, s1, g) && SameView(s1, r, g);
    }
    forall m | In(r.fs.t, m) && ResolveFrom(r.fs.t, cwd, v.path) != Some(m) ensures SameFile(s, r, m) {
      assert SameFile(s, s1, m) && FileBytes(r, m) == FileBytes(s1, m);
    }
  }

  // ---- opening -------------------------------------------------------------

  /** What a new descriptor shows of a file holding `b`. */
  function Opened(pid: int, flags: U32, path: string, b: seq<Byte>): (v: Stream)
    ensures v.pos <= |v.bytes|
  {
    var cut := WantsWrite(flags) && Bit(flags, O_TRUNC);
    Stream(pid, WantsRead(flags), WantsWrite(flags), path, if cut then [] else b,
           if cut then 0 else if Bit(flags, O_APPEND) then |b| else 0, cut)
  }

  lemma OpenNodeRefines(s: Sys, n: int, pid: int, full: string, flags: U32)
    requires SysOk(s) && In(s.fs.t, n) && Inside(s.fs.h, FileRegion(s.fs.t[n]))
    ensures var (r, out) := OpenNode(s, n, pid, full, flags);
            && SysOk(r) && SameFiles(s, r) && r.fs.t == s.fs.t && (out.Fail? ==> r == s)
            && (out.Done? ==>
                  && !Open(s, out.n) && Open(r, out.n) && FIRST_FD <= out.n && out == Done(out.n, [])
                  && View(r, out.n) == Opened(pid, flags, full, FileBytes(s, n))
                  && forall g :: g != out.n ==> SameView(s, r, g))
  {
    var (r, out) := OpenNode(s, n, pid, full, flags);
    assert SameFiles(s, s);
    if out.Done? {
      var slot := out.n;
      assert NodeOk(s, n);
      if WantsWrite(flags) {
        OpenForWriting(s, n, pid, full, flags, slot);
      } else {
        assert Clear(s, slot, FileRegion(s.fs.t[n])) by {
          forall g | Open(s, g) && g != slot ensures Disjoint(Own(s, g), FileRegion(s.fs.t[n])) {
            assert FileApart(s, g, n);
          }
        }
        hide SysOk, Clear, Bit;
        SlotStep(s, r, slot);
      }
    }
  }

  lemma OpenForWriting(s: Sys, n: int, pid: int, full: string, flags: U32, slot: int)
    requires SysOk(s) && In(s.fs.t, n) && NodeOk(s, n) && Inside(s.fs.h, FileRegion(s.fs.t[n])) && WantsWrite(flags)
    requires OpenNode(s, n, pid, full, flags).1 == Done(slot, [])
    ensures var r := OpenNode(s, n, pid, full, flags).0;
            && SysOk(r) && SameFiles(s, r) && r.fs.t == s.fs.t && !Open(s, slot) && Open(r, slot)
            && View(r, slot) == Opened(pid, flags, full, FileBytes(s, n))
            && forall g :: g != slot ==> SameView(s, r, g)
  {
    var r := OpenNode(s, n, pid, full, flags).0;
    var node := s.fs.t[n];
    var d := Fresh(pid, flags, full, node.data, node.size);
    var initial := if Bit(flags, O_TRUNC) then 0 else node.size;
    EnsureCapacityOk(s.fs.h, s.mem, d, initial + 1);
    var (h, mem, d1) := EnsureCapacity(s.fs.h, s.mem, d, initial + 1).value;
    var file := Load(s.mem, Region(node.data, initial));
    LoadBelow(s.mem, mem, s.fs.h, Region(node.data, initial));
    BlitShows(mem, d1.buf.value, file);
    hide EnsureCapacity, SysOk, Bit, Load, Blit;
    SlotStep(s, r, slot);
  }

  lemma LoadBelow(mem: seq<Byte>, mem': seq<Byte>, h: Arena, a: Region)
    requires |mem| == |mem'| && Inside(h, a) && forall i :: 0 <= i < h.current && i < |mem| ==> mem'[i] == mem[i]
    ensures Load(mem', a) == Load(mem, a)
  {
  }

  lemma BlitShows(mem: seq<Byte>, at: nat, b: seq<Byte>)
    requires at + |b| + 1 <= |mem|
    ensures Load(Blit(mem, at, b + [0]), Region(at, |b|)) == b
    ensures forall i :: 0 <= i < at ==> Blit(mem, at, b + [0])[i] == mem[i]
  {
  }

  /**
   * Opening shows the file as it is now, on a slot of its own. With O_CREAT it may leave a new, empty file, even
   * when it then fails.
   */
  lemma OpenRefines(s: Sys, cwd: int, pid: int, path: string, flags: U32)
    requires SysOk(s) && In(s.fs.t, cwd)
    ensures var (r, out) := OpenFile(s, cwd, pid, path, flags);
            && SysOk(r) && Kept(s.fs, r.fs) && SameFiles(s, r) && (out.Fail? ==> SameViews(s, r))
            && (out.Done? ==>
                  && !Open(s, out.n) && Open(r, out.n) && FIRST_FD <= out.n && out == Done(out.n, [])
                  && (forall g :: g != out.n ==> SameView(s, r, g))
                  && OpenedAt(r, out.n, cwd, pid, FullName(s.fs.t, cwd, path), flags))
  {
    var full := FullName(s.fs.t, cwd, path);
    assert SameViews(s, s) && SameFiles(s, s) && Kept(s.fs, s.fs);
    if full.Some? {
      if Bit(flags, O_CREAT) {
        TouchedOk(s, cwd, full.value);
        var s1 := s.(fs := Touch(s.fs, cwd, full.value).0);
        if Touch(s.fs, cwd, full.value).1 {
          OpenPathRefines(s1, cwd, pid, full.value, flags);
          OpenTwice(s, s1, OpenPath(s1, cwd, pid, full.value, flags).0,
                    OpenPath(s1, cwd, pid, full.value, flags).1);
        }
      } else {
        OpenPathRefines(s, cwd, pid, full.value, flags);
      }
    }
  }

  /** The new descriptor shows the file its path names. */
  ghost predicate OpenedAt(r: Sys, slot: int, cwd: int, pid: int, full: Option<string>, flags: U32) {
    && SysOk(r) && In(r.fs.t, cwd) && Open(r, slot) && full.Some? && ReadFile(r.fs.t, cwd, full.value).Some?
    && !Aliased(r.fs.t, cwd, full.value)
    && View(r, slot) == Opened(pid, flags, full.value, FileBytes(r, ReadFile(r.fs.t, cwd, full.value).value))
  }

  lemma OpenPathRefines(s: Sys, cwd: int, pid: int, full: string, flags: U32)
    requires SysOk(s) && In(s.fs.t, cwd)
    ensures var (r, out) := OpenPath(s, cwd, pid, full, flags);
            && SysOk(r) && Kept(s.fs, r.fs) && SameFiles(s, r) && r.fs.t == s.fs.t && (out.Fail? ==> r == s)
            && (out.Done? ==>
                  && !Open(s, out.n) && Open(r, out.n) && FIRST_FD <= out.n && out == Done(out.n, [])
                  && (forall g :: g != out.n ==> SameView(s, r, g))
                  && OpenedAt(r, out.n, cwd, pid, Some(full), flags))
  {
    assert SameViews(s, s) && SameFiles(s, s) && Kept(s.fs, s.fs);
    var file := ReadFile(s.fs.t, cwd, full);
    if !Aliased(s.fs.t, cwd, full) && file.Some? {
      assert NodeOk(s, file.value);
      OpenNodeRefines(s, file.value, pid, full, flags);
      var r := OpenPath(s, cwd, pid, full, flags).0;
      OpenNodeKept(s, file.value, pid, full, flags);
      assert SameFile(s, r, file.value);
    }
  }

  lemma OpenNodeKept(s: Sys, n: int, pid: int, full: string, flags: U32)
    requires SysOk(s) && In(s.fs.t, n) && Inside(s.fs.h, FileRegion(s.fs.t[n]))
    ensures Kept(s.fs, OpenNode(s, n, pid, full, flags).0.fs)
  {
    var node := s.fs.t[n];
    EnsureCapacityOk(s.fs.h, s.mem, Fresh(pid, flags, full, node.data, node.size),
                     (if Bit(flags, O_TRUNC) then 0 else node.size) + 1);
    hide EnsureCapacity, Bit;
  }

  lemma OpenTwice(s: Sys, s1: Sys, r: Sys, out: Outcome)
    requires SameViews(s, s1) && SameFiles(s, s1) && SameFiles(s1, r) && |s.fs.t| <= |s1.fs.t| == |r.fs.t|
    requires Kept(s.fs, s1.fs) && Kept(s1.fs, r.fs)
    requires out.Done? ==> forall g :: g != out.n ==> SameView(s1, r, g)
    requires out.Fail? ==> SameViews(s1, r)
    ensures SameFiles(s, r) && Kept(s.fs, r.fs) && (out.Fail? ==> SameViews(s, r))
    ensures out.Done? ==> (!Open(s, out.n) <==> !Open(s1, out.n)) && forall g :: g != out.n ==> SameView(s, r, g)
  {
    ExtendsTrans(s.fs.t, s1.fs.t, r.fs.t);
    forall n | In(r.fs.t, n) ensures SameFile(s, r, n) {
      assert SameFile(s, s1, n) && SameFile(s1, r, n);
    }
    forall g | out.Fail? || g != out.n ensures SameView(s, r, g) {
      assert SameView(s, s1, g) && SameView(s1, r, g);
    }
    assert out.Done? ==> SameView(s, s1, out.n);
  }
}
