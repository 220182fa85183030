// When an open or a publication succeeds, with which error it fails, and what it does to the tree.

module FilesExact {
  import opened Bytes
  import opened Paths
  import opened Heap
  import opened Tree
  import opened Resolve
  import opened Vfs
  import opened VfsMade
  import opened Files
  import opened FilesInv
  import opened FilesOpen

  // ---- the flags -----------------------------------------------------------

  /** A word of flags, bit by bit: the access mode, O_CREAT, O_TRUNC, O_APPEND and the others. */
  lemma FlagBits(flags: U32, access: nat, create: bool, cut: bool, append: bool, low: nat, mid: nat, high: nat)
    requires access < 4 && low < 0x10 && mid < 4
    requires flags == access + 4 * low + (if create then 0x40 else 0) + 0x80 * mid + (if cut then 0x200 else 0)
                      + (if append then 0x400 else 0) + 0x800 * high
    ensures Bit(flags, O_CREAT) == create && Bit(flags, O_TRUNC) == cut && Bit(flags, O_APPEND) == append
    ensures WantsRead(flags) == (access != 1) && WantsWrite(flags) == (access == 1 || access == 2)
  {
    hide Bit, WantsRead, WantsWrite;
    var c, t, a := if create then 1 else 0, if cut then 1 else 0, if append then 1 else 0;
    CreateBit(flags, access + 4 * low, c, mid + 4 * t + 8 * a + 16 * high);
    TruncBit(flags, access + 4 * low + 0x40 * c + 0x80 * mid, t, a + 2 * high);
    AppendBit(flags, access + 4 * low + 0x40 * c + 0x80 * mid + 0x200 * t, a, high);
    AccessBits(flags, access, low + 0x10 * c + 0x20 * mid + 0x80 * t + 0x100 * a + 0x200 * high);
  }

  lemma AccessBits(flags: U32, access: nat, above: nat)
    requires access < 4 && flags == access + 4 * above
    ensures WantsRead(flags) == (access != 1) && WantsWrite(flags) == (access == 1 || access == 2)
  {
  }

  lemma CreateBit(flags: U32, below: nat, bit: nat, above: nat)
    requires below < 0x40 && bit < 2 && flags == below + 0x40 * bit + 0x80 * above
    ensures Bit(flags, O_CREAT) == (bit == 1)
  {
    assert flags / 0x40 == bit + 2 * above;
  }

  lemma TruncBit(flags: U32, below: nat, bit: nat, above: nat)
    requires below < 0x200 && bit < 2 && flags == below + 0x200 * bit + 0x400 * above
    ensures Bit(flags, O_TRUNC) == (bit == 1)
  {
    assert flags / 0x200 == bit + 2 * above;
  }

  lemma AppendBit(flags: U32, below: nat, bit: nat, above: nat)
    requires below < 0x400 && bit < 2 && flags == below + 0x400 * bit + 0x800 * above
    ensures Bit(flags, O_APPEND) == (bit == 1)
  {
    assert flags / 0x400 == bit + 2 * above;
  }

  // ---- the new buffer ------------------------------------------------------

  /** `c` is `from`, doubled some number of times. */
  predicate Doubles(c: nat, from: nat)
    decreases c
  {
    c == from || (0 < c && c % 2 == 0 && Doubles(c / 2, from))
  }

  /** The first doubling of 256 that is enough. */
  predicate FirstEnough(c: nat, needed: nat) {
    Doubles(c, FIRST_CAPACITY) && needed <= c && (c == FIRST_CAPACITY || c < 2 * needed)
  }

  lemma {:induction false} DoubledDoubles(c: U32, needed: U32, from: nat)
    requires c > 0 && Doubles(c, from) && Doubled(c, needed).Some?
    ensures Doubles(Doubled(c, needed).value, from)
    decreases needed - c
  {
    if c < needed {
      assert 2 * c / 2 == c;
      DoubledDoubles(2 * c, needed, from);
    }
  }

  lemma {:induction false} DoublesApart(c: nat, d: nat, from: nat)
    requires Doubles(c, from) && Doubles(d, from)
    ensures from <= c && from <= d && (c < d ==> 2 * c <= d)
    decreases c + d
  {
    if c != from || d != from {
      DoublesApart(if c == from then from else c / 2, if d == from then from else d / 2, from);
    }
  }

  lemma OneEnough(c: nat, d: nat, needed: nat)
    requires FirstEnough(c, needed) && FirstEnough(d, needed)
    ensures c == d
  {
    DoublesApart(c, d, FIRST_CAPACITY);
    DoublesApart(d, c, FIRST_CAPACITY);
  }

  /** It fits the `free` bytes of the heap. */
  ghost predicate Fits(free: int, needed: nat) {
    exists c: nat :: FirstEnough(c, needed) && c <= free
  }

  /** A new descriptor gets its buffer exactly if the first doubling that is enough fits the heap. */
  lemma FirstBuffer(h: Arena, mem: seq<Byte>, d: Fd, needed: U32)
    requires h.Ok() && h.ready && |mem| == USER_BASE && BufOk(h, d) && d.wcap == 0 && 0 < needed <= USER_BASE + 1
    ensures EnsureCapacity(h, mem, d, needed).Some? <==> Fits(h.limit - h.current, needed)
  {
    var c := Doubled(FIRST_CAPACITY, needed).value;
    assert Doubles(FIRST_CAPACITY, FIRST_CAPACITY);
    DoubledDoubles(FIRST_CAPACITY, needed, FIRST_CAPACITY);
    AllocIs(h, c);
    assert FirstEnough(c, needed);
    forall e | FirstEnough(e, needed) ensures e == c {
      OneEnough(e, c, needed);
    }
    hide Doubled, FirstEnough, Alloc, Blit, Load;
  }

  // ---- the slot ------------------------------------------------------------

  predicate NoSlot(s: Sys) {
    |s.fds| == MAX_FDS && forall f :: FIRST_FD <= f < MAX_FDS ==> s.fds[f].Some?
  }

  /** The lowest descriptor that is free. */
  predicate FirstFree(s: Sys, f: int) {
    |s.fds| == MAX_FDS && FIRST_FD <= f < MAX_FDS && s.fds[f] == None && forall g :: FIRST_FD <= g < f ==> s.fds[g].Some?
  }

  lemma SlotIs(s: Sys)
    requires |s.fds| == MAX_FDS
    ensures var f := AllocSlot(s.fds); if f < 0 then NoSlot(s) else FirstFree(s, f) && !NoSlot(s)
  {
    var rest := s.fds[FIRST_FD..];
    assert forall g :: FIRST_FD <= g < MAX_FDS ==> s.fds[g] == rest[g - FIRST_FD];
  }

  /** Room for the private buffer a descriptor needs if it is to write. */
  ghost predicate BufferFits(free: int, flags: U32, size: nat) {
    WantsWrite(flags) ==> Fits(free, (if Bit(flags, O_TRUNC) then 0 else size) + 1)
  }

  /** An open that has found its file: what can still go wrong. */
  lemma OpenNodeExactly(s: Sys, n: int, pid: int, full: string, flags: U32)
    requires FsOk(s.fs) && s.fs.h.ready && |s.mem| == USER_BASE && |s.fds| == MAX_FDS && In(s.fs.t, n)
    requires Inside(s.fs.h, FileRegion(s.fs.t[n]))
    ensures var (r, out) := OpenNode(s, n, pid, full, flags);
            && r.fs.t == s.fs.t && (out.Fail? ==> r == s)
            && (out == Fail(NFILE) <==> NoSlot(s))
            && (out.Done? <==> !NoSlot(s) && BufferFits(s.fs.h.limit - s.fs.h.current, flags, s.fs.t[n].size))
            && (out.Done? ==> FirstFree(s, out.n)) && (out.Fail? ==> out == Fail(NFILE) || out == Fail(INVAL))
  {
    SlotIs(s);
    var node := s.fs.t[n];
    var initial := if Bit(flags, O_TRUNC) then 0 else node.size;
    FirstBuffer(s.fs.h, s.mem, Fresh(pid, flags, full, node.data, node.size), initial + 1);
    hide NoSlot, FirstFree, AllocSlot, EnsureCapacity, Fits, Bit, WantsWrite, WantsRead, Load, Blit;
  }

  // ---- opening -------------------------------------------------------------

  /** The path is served by the tree, and names a file. */
  ghost predicate NamesFile(t: Forest, cwd: int, q: string)
    requires Links(t) && In(t, cwd)
  {
    !Aliased(t, cwd, q) && exists n :: ResolveFrom(t, cwd, q) == Some(n) && !t[n].dir
  }

  /** Its size; nothing, if there is no such file yet. */
  function SizeAt(t: Forest, cwd: int, q: string): nat
    requires Links(t) && In(t, cwd)
  {
    var n := ResolveFrom(t, cwd, q);
    if n.Some? then t[n.value].size else 0
  }

  lemma OpenPathExactly(s: Sys, cwd: int, pid: int, q: string, flags: U32)
    requires SysOk(s) && In(s.fs.t, cwd)
    ensures var (r, out) := OpenPath(s, cwd, pid, q, flags);
            var size := SizeAt(s.fs.t, cwd, q);
            && r.fs.t == s.fs.t && (out.Fail? ==> r == s)
            && (out == Fail(NFILE) <==> NamesFile(s.fs.t, cwd, q) && NoSlot(s))
            && (out.Done? <==>
                  NamesFile(s.fs.t, cwd, q) && !NoSlot(s) && BufferFits(s.fs.h.limit - s.fs.h.current, flags, size))
            && (out.Done? ==> FirstFree(s, out.n)) && (out.Fail? ==> out == Fail(NFILE) || out == Fail(INVAL))
  {
    var n := ReadFile(s.fs.t, cwd, q);
    if n.Some? {
      assert NodeOk(s, n.value);
      OpenNodeExactly(s, n.value, pid, q, flags);
    }
    hide SysOk, FsOk, Links, OpenNode, NoSlot, FirstFree, BufferFits, Aliased, ResolveFrom;
  }

  /** The path an open uses begins with a slash. */
  lemma FullIsAbsolute(t: Forest, cwd: int, p: string)
    requires Links(t) && In(t, cwd)
    ensures var q := FullName(t, cwd, p); q.Some? ==> q.value != "" && q.value[0] == '/' && Faithful(q.value)
  {
    var q := FullName(t, cwd, p);
    if q.Some? && (p == "" || p[0] != '/') {
      assert CwdPath(t, cwd, PATH_MAX)[0] == '/';
    }
  }

  /** The path an open uses names what the caller's path names from the current directory, wherever that can be printed. */
  lemma FullNames(t: Forest, cwd: int, p: string, c: int)
    requires Ok(t) && Links(t) && In(t, cwd) && In(t, c) && FullName(t, cwd, p).Some? && |p| < PATH_MAX
    requires |Chain(t, cwd)| <= MAX_PARTS && |FullPath(Chain(t, cwd))| < PATH_MAX && NoDots(Chain(t, cwd))
    ensures ResolveFrom(t, c, FullName(t, cwd, p).value) == ResolveFrom(t, cwd, p)
  {
    hide Ok, Links, Walk, Chain, FullPath, NoDots, Join, CwdPath;
    if p == "" || p[0] != '/' {
      AbsoluteNames(t, cwd, p, FullName(t, cwd, p).value, c);
    }
  }

  lemma SplitFound(s: Fs, cwd: int, q: string) returns (d: int, w: string)
    requires Links(s.t) && In(s.t, cwd) && CanTouch(s, cwd, q)
    ensures Leads(s.t, cwd, q, d, w) && (FileThere(s.t, d, w) || NewName(s.t, d, w))
  {
    hide Links, Leads, FileThere, NewName;
    d, w :| Leads(s.t, cwd, q, d, w) && (FileThere(s.t, d, w) || (NewName(s.t, d, w) && Room(s.h)));
  }

  /** The tree gained the file the path names. */
  ghost predicate Gained(t: Forest, t': Forest, cwd: int, q: string)
    requires Links(t) && In(t, cwd)
  {
    && Ok(t') && In(t', cwd) && ResolveFrom(t', cwd, q) == Some(|t|)
    && exists d, w :: Leads(t, cwd, q, d, w) && NewName(t, d, w) && OneMore(t, t', d, w, false)
  }

  /** What a successful touch does. */
  ghost predicate Touched(s: Fs, cwd: int, q: string, r: Fs)
    requires Links(s.t) && In(s.t, cwd)
  {
    && Ok(r.t) && In(r.t, cwd) && r.h == s.h.(current := r.h.current) && NamesFile(r.t, cwd, q)
    && SizeAt(r.t, cwd, q) == SizeAt(s.t, cwd, q)
    && if NamesFile(s.t, cwd, q) then r == s else r.h.current == s.h.current + NODE_STEP && Gained(s.t, r.t, cwd, q)
  }

  /** As the tree grows, a path stays served by it or by the disc. */
  lemma AliasedStays(t: Forest, t': Forest, cwd: int, q: string)
    requires Links(t) && Links(t') && Extends(t, t') && In(t, cwd)
    ensures Aliased(t', cwd, q) == Aliased(t, cwd, q)
  {
    PrintStays(t, t', cwd, PATH_MAX);
    hide CwdPath, Links, Join;
  }

  lemma NewFileNamed(t: Forest, t': Forest, cwd: int, q: string, d: int, w: string)
    requires Ok(t) && In(t, cwd) && Ok(t') && In(t', cwd) && ResolveFrom(t, cwd, q) == None && NewName(t, d, w)
    requires OneMore(t, t', d, w, false) && Leads(t, cwd, q, d, w) && ResolveFrom(t', cwd, q) == Some(|t|)
    requires !Aliased(t', cwd, q)
    ensures !NamesFile(t, cwd, q) && NamesFile(t', cwd, q) && Gained(t, t', cwd, q)
    ensures SizeAt(t, cwd, q) == SizeAt(t', cwd, q) == 0
  {
    hide ResolveFrom, Leads, NewName, Aliased, Links, Children;
  }

  lemma TouchFinds(s: Fs, cwd: int, q: string)
    requires FsOk(s) && In(s.t, cwd) && Faithful(q) && Touch(s, cwd, q).1
    ensures Touched(s, cwd, q, Touch(s, cwd, q).0)
  {
    TouchExactly(s, cwd, q);
    var r := Touch(s, cwd, q).0;
    var d, w := SplitFound(s, cwd, q);
    assert !Aliased(s.t, cwd, q);
    TouchNames(s, cwd, q, d, w);
    TouchAdds(s, cwd, q, d, w);
    TouchTakes(s, cwd, q, d, w);
    TouchOk(s, cwd, q);
    AliasedStays(s.t, r.t, cwd, q);
    hide Touch, Ok, ResolveFrom, Leads, FileThere, NewName, Aliased, OneMore, CanTouch, Faithful, Links, SizeAt, Gained;
    if !FileThere(s.t, d, w) {
      NewFileNamed(s.t, r.t, cwd, q, d, w);
    }
  }

  /** The file can be had: it is there or, with O_CREAT, there or new where there is room for it. */
  ghost predicate Found(s: Fs, cwd: int, q: string, flags: U32)
    requires Links(s.t) && In(s.t, cwd)
  {
    if Bit(flags, O_CREAT) then CanTouch(s, cwd, q) else NamesFile(s.t, cwd, q)
  }

  /** What the node of a file that must be made takes. */
  ghost function NodeCost(t: Forest, cwd: int, q: string): nat
    requires Links(t) && In(t, cwd)
  {
    if NamesFile(t, cwd, q) then 0 else NODE_STEP
  }

  /** How an open of the absolute path `q` ends, in terms of what was there before. */
  ghost predicate OpenEnds(s: Sys, cwd: int, q: string, flags: U32, r: Sys, out: Outcome)
    requires Links(s.fs.t) && In(s.fs.t, cwd)
  {
    var t, h, found := s.fs.t, s.fs.h, Found(s.fs, cwd, q, flags);
    && (out == Fail(NFILE) <==> found && NoSlot(s))
    && (out.Done? <==>
          && found && !NoSlot(s)
          && BufferFits(h.limit - h.current - NodeCost(t, cwd, q), flags, SizeAt(t, cwd, q)))
    && (out.Done? ==> FirstFree(s, out.n))
    && (out.Fail? ==> out == Fail(NFILE) || out == Fail(INVAL))
    && (!found ==> r == s)
    && (if found && !NamesFile(t, cwd, q) then Gained(t, r.fs.t, cwd, q) else r.fs.t == t)
  }

  lemma OpenWithout(s: Sys, cwd: int, pid: int, q: string, flags: U32)
    requires SysOk(s) && In(s.fs.t, cwd) && !Bit(flags, O_CREAT)
    ensures Links(s.fs.t)
    ensures var (r, out) := OpenPath(s, cwd, pid, q, flags); OpenEnds(s, cwd, q, flags, r, out)
  {
    OpenPathExactly(s, cwd, pid, q, flags);
    hide SysOk, OpenPath, NamesFile, NoSlot, FirstFree, BufferFits, SizeAt, Gained, Bit, Links;
  }

  /** A descriptor table that is the same has the same free slots. */
  lemma SameSlots(s: Sys, s1: Sys)
    requires s.fds == s1.fds
    ensures NoSlot(s) == NoSlot(s1) && forall f :: FirstFree(s1, f) ==> FirstFree(s, f)
  {
  }

  lemma OpenTouched(s: Sys, s1: Sys, cwd: int, pid: int, q: string, flags: U32)
    requires SysOk(s) && In(s.fs.t, cwd) && Bit(flags, O_CREAT) && CanTouch(s.fs, cwd, q)
    requires SysOk(s1) && In(s1.fs.t, cwd) && s1 == s.(fs := s1.fs) && Touched(s.fs, cwd, q, s1.fs)
    ensures Links(s.fs.t)
    ensures var (r, out) := OpenPath(s1, cwd, pid, q, flags); OpenEnds(s, cwd, q, flags, r, out)
  {
    hide *;
    OpenPathExactly(s1, cwd, pid, q, flags);
    SameSlots(s, s1);
    SysLinks(s);
    SysLinks(s1);
    var (r, out) := OpenPath(s1, cwd, pid, q, flags);
    EndsTouched(s, s1, cwd, q, flags, r, out);
  }

  lemma SysLinks(s: Sys)
    requires SysOk(s)
    ensures Links(s.fs.t)
  {
  }

  lemma EndsTouched(s: Sys, s1: Sys, cwd: int, q: string, flags: U32, r: Sys, out: Outcome)
    requires Links(s.fs.t) && In(s.fs.t, cwd) && Bit(flags, O_CREAT) && CanTouch(s.fs, cwd, q)
    requires Links(s1.fs.t) && In(s1.fs.t, cwd) && s1 == s.(fs := s1.fs) && Touched(s.fs, cwd, q, s1.fs)
    requires NoSlot(s) == NoSlot(s1) && forall f :: FirstFree(s1, f) ==> FirstFree(s, f)
    requires r.fs.t == s1.fs.t && (out == Fail(NFILE) <==> NamesFile(s1.fs.t, cwd, q) && NoSlot(s1))
    requires out.Done? <==>
               && NamesFile(s1.fs.t, cwd, q) && !NoSlot(s1)
               && BufferFits(s1.fs.h.limit - s1.fs.h.current, flags, SizeAt(s1.fs.t, cwd, q))
    requires (out.Done? ==> FirstFree(s1, out.n)) && (out.Fail? ==> out == Fail(NFILE) || out == Fail(INVAL))
    ensures OpenEnds(s, cwd, q, flags, r, out)
  {
    hide NamesFile, NoSlot, FirstFree, BufferFits, SizeAt, Gained, Bit, Links, CanTouch, Ok;
  }

  /**
   * An open succeeds exactly if its path can be made absolute, the file is there or may be made, a descriptor is free
   * and the heap has room for what it must take: a node, and the buffer to write in. It gets the lowest free
   * descriptor. Only a file that O_CREAT had to make is new in the tree, and that even when there is no buffer for it.
   */
  lemma OpenExactly(s: Sys, cwd: int, pid: int, path: string, flags: U32)
    requires SysOk(s) && In(s.fs.t, cwd)
    ensures var (r, out) := OpenFile(s, cwd, pid, path, flags);
            var q := FullName(s.fs.t, cwd, path);
            if q == None then out == Fail(INVAL) && r == s else OpenEnds(s, cwd, q.value, flags, r, out)
  {
    var full := FullName(s.fs.t, cwd, path);
    FullIsAbsolute(s.fs.t, cwd, path);
    if full.Some? {
      var q := full.value;
      if Bit(flags, O_CREAT) {
        TouchedOk(s, cwd, q);
        TouchExactly(s.fs, cwd, q);
        if Touch(s.fs, cwd, q).1 {
          TouchFinds(s.fs, cwd, q);
          OpenTouched(s, s.(fs := Touch(s.fs, cwd, q).0), cwd, pid, q, flags);
        } else {
          OpenRefused(s, cwd, q, flags);
        }
      } else {
        OpenWithout(s, cwd, pid, q, flags);
      }
    }
    hide SysOk, OpenPath, FullName, Touch, OpenEnds, Bit, CanTouch;
  }

  lemma OpenRefused(s: Sys, cwd: int, q: string, flags: U32)
    requires Links(s.fs.t) && In(s.fs.t, cwd) && Bit(flags, O_CREAT) && !CanTouch(s.fs, cwd, q)
    ensures OpenEnds(s, cwd, q, flags, s, Fail(INVAL))
  {
    hide NamesFile, NoSlot, FirstFree, BufferFits, SizeAt, Gained, Bit, Links, CanTouch;
  }

  // ---- publishing ----------------------------------------------------------

  /** What a node and a block for `b` and its terminator take. */
  ghost predicate BlockFits(h: Arena, cost: nat, b: seq<Byte>) {
    h.current + cost + |b| + 1 <= h.limit
  }

  lemma PublishIsWrite(s: Sys, cwd: int, path: string, b: seq<Byte>)
    requires FsOk(s.fs) && |s.mem| == USER_BASE && s.fs.h.ready && In(s.fs.t, cwd) && |b| < USER_BASE
    ensures var (fs, block) := WriteFile(s.fs, cwd, path, |b|);
            var (r, ok) := Publish(s, cwd, path, b);
            r.fs == fs && ok == block.Some?
  {
    hide FsOk, WriteFile, Blit, ResolveFrom;
  }

  /** After the touch, writing is one allocation. */
  lemma WriteAllocates(fs: Fs, cwd: int, path: string, size: U32, s1: Fs)
    requires FsOk(fs) && In(fs.t, cwd) && size < USER_BASE && !Aliased(fs.t, cwd, path)
    requires Touch(fs, cwd, path) == (s1, true) && Links(s1.t) && In(s1.t, cwd) && ResolveFrom(s1.t, cwd, path).Some?
    ensures WriteFile(fs, cwd, path, size).1 == Alloc(s1.h, size + 1).1
    ensures WriteFile(fs, cwd, path, size).1.Some? ==> WriteFile(fs, cwd, path, size).0.h == Alloc(s1.h, size + 1).0
  {
    hide Touch, Aliased, ResolveFrom, Alloc, Ok, Links, Published, FsOk;
  }

  lemma WriteRefused(fs: Fs, cwd: int, path: string, size: U32)
    requires FsOk(fs) && In(fs.t, cwd) && !Touch(fs, cwd, path).1
    ensures WriteFile(fs, cwd, path, size).1 == None
  {
    hide Touch, Aliased, ResolveFrom, Alloc, Ok, Links, Published, FsOk;
  }

  /** A file is published exactly if it is there or may be made, and the heap has room for what that takes. */
  lemma PublishExactly(s: Sys, cwd: int, path: string, b: seq<Byte>)
    requires SysOk(s) && In(s.fs.t, cwd) && |b| < USER_BASE && Faithful(path)
    ensures var (r, ok) := Publish(s, cwd, path, b);
            var cost := NodeCost(s.fs.t, cwd, path);
            && (ok <==> CanTouch(s.fs, cwd, path) && BlockFits(s.fs.h, cost, b))
            && (ok ==> r.fs.h == s.fs.h.(current := r.fs.h.current)
                       && r.fs.h.current == s.fs.h.current + cost + RoundUp(|b| + 1))
  {
    hide SysOk, Publish, Touch, WriteFile, CanTouch, Faithful, Links, Ok, NamesFile, Alloc, Gained, SizeAt, RoundUp;
    SysBasics(s);
    TouchExactly(s.fs, cwd, path);
    TouchOk(s.fs, cwd, path);
    var s1 := Touch(s.fs, cwd, path).0;
    if Touch(s.fs, cwd, path).1 {
      TouchFinds(s.fs, cwd, path);
      OkLinks(s1.t);
      NamedResolves(s1.t, cwd, path);
      AllocIs(s1.h, |b| + 1);
      if Alloc(s1.h, |b| + 1).1.Some? {
        AllocMoves(s1.h, |b| + 1);
      }
      MayTouch(s.fs, cwd, path);
      WriteAllocates(s.fs, cwd, path, |b|, s1);
    } else {
      WriteRefused(s.fs, cwd, path, |b|);
    }
    PublishIsWrite(s, cwd, path, b);
  }

  lemma SysBasics(s: Sys)
    requires SysOk(s)
    ensures FsOk(s.fs) && Links(s.fs.t) && s.fs.h.ready && |s.mem| == USER_BASE && |s.fds| == MAX_FDS
  {
  }

  lemma MayTouch(fs: Fs, cwd: int, path: string)
    requires Links(fs.t) && In(fs.t, cwd) && CanTouch(fs, cwd, path)
    ensures !Aliased(fs.t, cwd, path)
  {
  }

  lemma OkLinks(t: Forest)
    requires Ok(t)
    ensures Links(t)
  {
  }

  lemma NamedResolves(t: Forest, cwd: int, q: string)
    requires Links(t) && In(t, cwd) && NamesFile(t, cwd, q)
    ensures ResolveFrom(t, cwd, q).Some?
  {
  }
}
