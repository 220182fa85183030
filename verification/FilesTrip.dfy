// What the files hold over a run, and the round trip through them.

module FilesTrip {
  import opened Bytes
  import opened Paths
  import opened Heap
  import opened Tree
  import opened Resolve
  import opened Vfs
  import opened Files
  import opened FilesInv
  import opened FilesOpen
  import opened FilesRun

  // ---- what a file holds ---------------------------------------------------

  /** The bytes a call makes the contents of file `n`. */
  ghost function Publishes(s: Sys, c: Call, n: int): Option<seq<Byte>>
    requires SysOk(s)
  {
    var (r, out) := Perform(s, c);
    PerformOk(s, c);
    if !Possible(s, c) || out.Fail? then None
    else if c.PutCall? && ResolveFrom(r.fs.t, c.cwd, c.path) == Some(n) then Some(c.bytes)
    else if c.CloseCall? && Lookup(s, c.pid, c.fd).Some? && View(s, c.fd).writable && View(s, c.fd).dirty
            && ResolveFrom(r.fs.t, c.cwd, View(s, c.fd).path) == Some(n)
    then Some(View(s, c.fd).bytes)
    else None
  }

  /** File `n` holds `b` afterwards, if anything was published there, and else what it held. */
  ghost predicate FileHolds(s: Sys, r: Sys, n: int, published: Option<seq<Byte>>)
    requires In(s.fs.t, n)
  {
    In(r.fs.t, n) && FileBytes(r, n) == if published.Some? then published.value else FileBytes(s, n)
  }

  lemma QuietFile(s: Sys, r: Sys, n: int)
    requires In(s.fs.t, n) && Kept(s.fs, r.fs) && SameFiles(s, r)
    ensures FileHolds(s, r, n, None)
  {
    assert In(r.fs.t, n) && SameFile(s, r, n);
  }

  lemma CloseFile(s: Sys, c: Call, n: int)
    requires SysOk(s) && In(s.fs.t, n) && c.CloseCall? && Possible(s, c)
    ensures FileHolds(s, Perform(s, c).0, n, Publishes(s, c, n))
  {
    var (r, out) := Perform(s, c);
    PerformIs(s, c);
    PerformOk(s, c);
    ClosePublishes(s, c, n);
    hide SysOk, CloseFd, View, FileBytes, ReadFile, ResolveFrom, SameFiles, SameViews, SameView, Kept, Perform, Publishes;
    CloseRefines(s, c.cwd, c.pid, c.fd);
    if out.Fail? || !(View(s, c.fd).writable && View(s, c.fd).dirty) {
      QuietFile(s, r, n);
    } else {
      StillIn(s, r, n);
      if ResolveFrom(r.fs.t, c.cwd, View(s, c.fd).path) != Some(n) {
        assert SameFile(s, r, n);
      }
    }
  }

  lemma ClosePublishes(s: Sys, c: Call, n: int)
    requires SysOk(s) && c.CloseCall? && Possible(s, c)
    ensures var (r, out) := Perform(s, c);
            && In(r.fs.t, c.cwd) && Links(r.fs.t) && (out.Done? ==> Lookup(s, c.pid, c.fd).Some?)
            && Publishes(s, c, n)
               == if out.Done? && View(s, c.fd).writable && View(s, c.fd).dirty
                     && ResolveFrom(r.fs.t, c.cwd, View(s, c.fd).path) == Some(n)
                  then Some(View(s, c.fd).bytes) else None
  {
    PerformIs(s, c);
    PerformOk(s, c);
    CloseRefines(s, c.cwd, c.pid, c.fd);
    hide SysOk, CloseFd, View, ResolveFrom, SameFiles, SameViews, SameView, Perform, CloseDone;
  }

  lemma PutFile(s: Sys, c: Call, n: int)
    requires SysOk(s) && In(s.fs.t, n) && c.PutCall? && Possible(s, c)
    ensures FileHolds(s, Perform(s, c).0, n, Publishes(s, c, n))
  {
    var (r, out) := Perform(s, c);
    PerformIs(s, c);
    PutPublishes(s, c, n);
    hide SysOk, Publish, FileBytes, ReadFile, ResolveFrom, SameFiles, SameViews, Kept, Perform, Publishes;
    PublishRefines(s, c.cwd, c.path, c.bytes);
    if out.Fail? {
      QuietFile(s, r, n);
    } else {
      StillIn(s, r, n);
      if ResolveFrom(r.fs.t, c.cwd, c.path) != Some(n) {
        assert SameFile(s, r, n);
      }
    }
  }

  lemma PutPublishes(s: Sys, c: Call, n: int)
    requires SysOk(s) && c.PutCall? && Possible(s, c)
    ensures var (r, out) := Perform(s, c);
            && In(r.fs.t, c.cwd) && Links(r.fs.t)
            && Publishes(s, c, n)
               == if out.Done? && ResolveFrom(r.fs.t, c.cwd, c.path) == Some(n) then Some(c.bytes) else None
  {
    PerformOk(s, c);
    hide SysOk, ResolveFrom, Perform;
  }

  lemma StillIn(s: Sys, r: Sys, n: int)
    requires In(s.fs.t, n) && Kept(s.fs, r.fs)
    ensures In(r.fs.t, n)
  {
  }

  lemma OtherFile(s: Sys, c: Call, n: int)
    requires SysOk(s) && In(s.fs.t, n) && !c.PutCall? && !c.CloseCall? && Possible(s, c)
    ensures FileHolds(s, Perform(s, c).0, n, None)
  {
    var r := Perform(s, c).0;
    assert !c.ReadCall? && !c.WriteCall? ==> In(s.fs.t, c.cwd);
    PerformIs(s, c);
    PerformOk(s, c);
    hide *;
    match c {
      case OpenCall(cwd, pid, path, flags) => OpenRefines(s, cwd, pid, path, flags);
      case ReadCall(pid, fd, len) => ReadRefines(s, pid, fd, len);
      case WriteCall(pid, fd, b) => WriteRefines(s, pid, fd, b);
      case TouchCall(cwd, path) => TouchedOk(s, cwd, path);
      case MkdirCall(cwd, path) => MadeDirOk(s, cwd, path);
      case _ =>
    }
    QuietFile(s, r, n);
  }

  /** A file's bytes change only when something is published there, and then to exactly that. */
  lemma FileStep(s: Sys, c: Call, n: int)
    requires SysOk(s) && In(s.fs.t, n)
    ensures SysOk(Perform(s, c).0) && FileHolds(s, Perform(s, c).0, n, Publishes(s, c, n))
  {
    PerformOk(s, c);
    if !Possible(s, c) {
      assert Perform(s, c).0 == s && Publishes(s, c, n) == None;
    } else if c.PutCall? {
      PutFile(s, c, n);
    } else if c.CloseCall? {
      CloseFile(s, c, n);
    } else {
      OtherFile(s, c, n);
      assert Publishes(s, c, n) == None;
    }
    hide SysOk, Perform, Publishes, FileBytes;
  }

  /** The last bytes published at `n` during the calls, or else `b`. */
  ghost function LastPublished(s: Sys, calls: seq<Call>, n: int, b: seq<Byte>): seq<Byte>
    requires SysOk(s)
    decreases calls
  {
    if calls == [] then b
    else
      PerformOk(s, calls[0]);
      var p := Publishes(s, calls[0], n);
      LastPublished(Perform(s, calls[0]).0, calls[1..], n, if p.Some? then p.value else b)
  }

  /** Over every run the last dirty close wins: a file holds what was last published there. */
  lemma {:induction false} LastCloseWins(s: Sys, calls: seq<Call>, n: int)
    requires SysOk(s) && In(s.fs.t, n)
    ensures In(Finally(s, calls).fs.t, n)
            && FileBytes(Finally(s, calls), n) == LastPublished(s, calls, n, FileBytes(s, n))
    decreases calls
  {
    if calls != [] {
      FileStep(s, calls[0], n);
      hide Perform, Publishes, SysOk, FileBytes;
      LastCloseWins(Perform(s, calls[0]).0, calls[1..], n);
    }
  }

  // ---- what one descriptor wrote and read ----------------------------------

  /** Everything `pid` wrote to slot `f`, in order. */
  function Sent(pid: int, f: int, calls: seq<Call>, outs: seq<Outcome>): (r: seq<Byte>)
    requires |outs| == |calls|
    decreases calls
  {
    if calls == [] then []
    else
      (if calls[0].WriteCall? && calls[0].fd == f && calls[0].pid == pid && outs[0].Done? then calls[0].bytes else [])
      + Sent(pid, f, calls[1..], outs[1..])
  }

  /** Everything `pid` read from slot `f`, in order. */
  function Got(pid: int, f: int, calls: seq<Call>, outs: seq<Outcome>): (r: seq<Byte>)
    requires |outs| == |calls|
    decreases calls
  {
    if calls == [] then []
    else
      (if calls[0].ReadCall? && calls[0].fd == f && calls[0].pid == pid && outs[0].Done? then outs[0].bytes else [])
      + Got(pid, f, calls[1..], outs[1..])
  }

  /** How many bytes those reads asked for. */
  function Asked(pid: int, f: int, calls: seq<Call>, outs: seq<Outcome>): (n: nat)
    requires |outs| == |calls|
    decreases calls
  {
    if calls == [] then 0
    else
      (if calls[0].ReadCall? && calls[0].fd == f && calls[0].pid == pid && outs[0].Done? then calls[0].len else 0)
      + Asked(pid, f, calls[1..], outs[1..])
  }

  /** A simple file at its end collects what is written, whatever the chunks. */
  lemma {:induction false} CollectsWrites(v: Stream, f: int, calls: seq<Call>, outs: seq<Outcome>)
    requires v.pos == |v.bytes| && |outs| == |calls|
    ensures var r := Fold(v, f, calls, outs);
            && r.bytes == v.bytes + Sent(v.pid, f, calls, outs) && r.pos == |r.bytes|
            && r.pid == v.pid && r.writable == v.writable && r.path == v.path
            && (v.dirty || Sent(v.pid, f, calls, outs) != [] ==> r.dirty)
    decreases calls
  {
    if calls == [] {
      assert v.bytes + [] == v.bytes;
    } else {
      var w := Moved(v, f, calls[0], outs[0]);
      CollectsWrites(w, f, calls[1..], outs[1..]);
      var now := if calls[0].WriteCall? && calls[0].fd == f && calls[0].pid == v.pid && outs[0].Done?
                 then calls[0].bytes else [];
      assert w.bytes == v.bytes + now;
      assert v.bytes + now + Sent(v.pid, f, calls[1..], outs[1..])
          == v.bytes + (now + Sent(v.pid, f, calls[1..], outs[1..]));
    }
  }

  /** One call on a simple file nobody writes: a read that is answered moves it by what it gave. */
  lemma ReadMoves(v: Stream, f: int, c: Call, out: Outcome)
    requires InBounds(v) && !v.writable && Answers(v, f, c, out)
    ensures var w := Moved(v, f, c, out);
            if c.ReadCall? && c.fd == f && c.pid == v.pid && out.Done? then
              w == v.(pos := Least(v.pos + c.len, |v.bytes|)) && out.bytes == v.bytes[v.pos..w.pos]
            else w == v
  {
  }

  /** Reading a simple file that is not written, in any chunks, gives its bytes from the position on. */
  lemma {:induction false} GivesBytes(v: Stream, f: int, calls: seq<Call>, outs: seq<Outcome>)
    requires InBounds(v) && !v.writable && |outs| == |calls| && AllAnswered(v, f, calls, outs)
    ensures var end := Least(v.pos + Asked(v.pid, f, calls, outs), |v.bytes|);
            && Got(v.pid, f, calls, outs) == v.bytes[v.pos..end]
            && Fold(v, f, calls, outs) == v.(pos := end)
    decreases calls
  {
    if calls != [] {
      var w := Moved(v, f, calls[0], outs[0]);
      var asked := Asked(v.pid, f, calls[1..], outs[1..]);
      ReadMoves(v, f, calls[0], outs[0]);
      hide Moved, Answers, NextBytes;
      GivesBytes(w, f, calls[1..], outs[1..]);
      var end := Least(w.pos + asked, |v.bytes|);
      Joined(v.bytes, v.pos, w.pos, end);
    }
  }

  lemma Joined(b: seq<Byte>, i: nat, j: nat, k: nat)
    requires i <= j <= k <= |b|
    ensures b[i..j] + b[j..k] == b[i..k] && b[i..i] == []
  {
  }

  // ---- the round trip ------------------------------------------------------

  /** Opened to be written from nothing, written in any chunks among any other calls, then closed. */
  ghost predicate WrittenThrough(s: Sys, open: Call, calls: seq<Call>, close: Call, r: Sys, n: int, sent: seq<Byte>) {
    && SysOk(s) && open.OpenCall? && Possible(s, open) && WantsWrite(open.flags) && Bit(open.flags, O_TRUNC)
    && var (s1, out) := Perform(s, open);
    && SysOk(s1) && out.Done? && StaysOpen(open.pid, out.n, calls)
    && sent == Sent(open.pid, out.n, calls, Outcomes(s1, calls))
    && var s2 := Finally(s1, calls);
    && close.CloseCall? && Possible(s2, close) && close.pid == open.pid && close.fd == out.n
    && Perform(s2, close).1.Done? && r == Perform(s2, close).0
    && SysOk(r) && Open(s2, out.n) && In(r.fs.t, close.cwd)
    && ResolveFrom(r.fs.t, close.cwd, View(s2, out.n).path) == Some(n)
  }

  /** Then the file holds the concatenation of everything written. */
  lemma CloseKeepsAll(s: Sys, open: Call, calls: seq<Call>, close: Call, r: Sys, n: int, sent: seq<Byte>)
    requires WrittenThrough(s, open, calls, close, r, n, sent)
    ensures SysOk(r) && In(r.fs.t, n) && FileBytes(r, n) == sent
  {
    var (s1, out) := Perform(s, open);
    WriterCollects(s, open, calls);
    PublishedAtClose(Finally(s1, calls), close, n);
    hide Perform, SysOk, View, FileBytes, StaysOpen;
  }

  /** A descriptor opened to be written from nothing collects what is written to it, at its full path. */
  lemma WriterCollects(s: Sys, open: Call, calls: seq<Call>)
    requires SysOk(s) && open.OpenCall? && Possible(s, open) && WantsWrite(open.flags) && Bit(open.flags, O_TRUNC)
    requires var (s1, out) := Perform(s, open); SysOk(s1) && out.Done? && StaysOpen(open.pid, out.n, calls)
    ensures var (s1, out) := Perform(s, open);
            var s2, full := Finally(s1, calls), FullName(s.fs.t, open.cwd, open.path);
            && FIRST_FD <= out.n && Open(s2, out.n) && full.Some?
            && var v := View(s2, out.n);
               && v.pid == open.pid && v.writable && v.dirty && v.path == full.value
               && v.bytes == Sent(open.pid, out.n, calls, Outcomes(s1, calls))
  {
    var (s1, out) := Perform(s, open);
    var f := out.n;
    OpensEmpty(s, open);
    hide *;
    Collected(s1, f, calls);
  }

  /** What the open shows. */
  lemma OpensEmpty(s: Sys, open: Call)
    requires SysOk(s) && open.OpenCall? && Possible(s, open) && WantsWrite(open.flags) && Bit(open.flags, O_TRUNC)
    requires Perform(s, open).1.Done?
    ensures var (s1, out) := Perform(s, open);
            var full := FullName(s.fs.t, open.cwd, open.path);
            && FIRST_FD <= out.n && Open(s1, out.n) && full.Some?
            && View(s1, out.n) == Stream(open.pid, WantsRead(open.flags), true, full.value, [], 0, true)
  {
    OpenRefines(s, open.cwd, open.pid, open.path, open.flags);
    var (s1, out) := Perform(s, open);
    assert OpenedAt(s1, out.n, open.cwd, open.pid, FullName(s.fs.t, open.cwd, open.path), open.flags);
    hide SysOk, Kept, SameFiles, OpenFile, View, Aliased, ReadFile, FullName, Bit;
  }

  /** From the end of a simple file on, what is shown is what it had and what was sent. */
  lemma CollectedMore(s: Sys, f: int, calls: seq<Call>)
    requires SysOk(s) && Open(s, f) && StaysOpen(View(s, f).pid, f, calls) && View(s, f).pos == |View(s, f).bytes|
    ensures var s2 := Finally(s, calls);
            && Open(s2, f)
            && var v, w := View(s, f), View(s2, f);
               && w.bytes == v.bytes + Sent(v.pid, f, calls, Outcomes(s, calls))
               && w.pid == v.pid && w.writable == v.writable && w.path == v.path
               && (v.dirty || Sent(v.pid, f, calls, Outcomes(s, calls)) != [] ==> w.dirty)
  {
    hide *;
    DescriptorRefines(s, calls, f);
    CollectsWrites(View(s, f), f, calls, Outcomes(s, calls));
  }

  /** From an empty simple file on, what is shown is what was sent. */
  lemma Collected(s: Sys, f: int, calls: seq<Call>)
    requires SysOk(s) && Open(s, f) && StaysOpen(View(s, f).pid, f, calls) && View(s, f).bytes == [] && View(s, f).pos == 0
    ensures var s2 := Finally(s, calls);
            && Open(s2, f)
            && var v, w := View(s, f), View(s2, f);
               && w.bytes == Sent(v.pid, f, calls, Outcomes(s, calls))
               && w.pid == v.pid && w.writable == v.writable && w.path == v.path && (v.dirty ==> w.dirty)
  {
    hide *;
    CollectedMore(s, f, calls);
    assert [] + Sent(View(s, f).pid, f, calls, Outcomes(s, calls)) == Sent(View(s, f).pid, f, calls, Outcomes(s, calls));
  }

  /** A close that publishes at file `n` leaves there what the descriptor held. */
  lemma PublishedAtClose(s: Sys, close: Call, n: int)
    requires SysOk(s) && close.CloseCall? && Possible(s, close) && Perform(s, close).1.Done?
    requires Open(s, close.fd) && View(s, close.fd).writable && View(s, close.fd).dirty
    requires var r := Perform(s, close).0;
             In(r.fs.t, close.cwd) && Links(r.fs.t) && ResolveFrom(r.fs.t, close.cwd, View(s, close.fd).path) == Some(n)
    ensures In(Perform(s, close).0.fs.t, n) && FileBytes(Perform(s, close).0, n) == View(s, close.fd).bytes
  {
    assert In(s.fs.t, close.cwd);
    PerformIs(s, close);
    hide SysOk, Kept, SameFiles, CloseFd, View, FileBytes, Faithful, Perform, ResolveFrom, ReadFile, SameViews, SameView;
    CloseRefines(s, close.cwd, close.pid, close.fd);
  }

  // ---- appending -----------------------------------------------------------

  /** Opened to be written at the end of file `m`, written in any chunks among any other calls, then closed. */
  ghost predicate AppendedThrough(s: Sys, open: Call, m: int, calls: seq<Call>, close: Call, r: Sys, n: int,
                                  sent: seq<Byte>) {
    && SysOk(s) && open.OpenCall? && Possible(s, open) && WantsWrite(open.flags) && !Bit(open.flags, O_TRUNC)
    && Bit(open.flags, O_APPEND) && FullName(s.fs.t, open.cwd, open.path).Some?
    && var (s1, out) := Perform(s, open);
    && SysOk(s1) && out.Done? && StaysOpen(open.pid, out.n, calls) && In(s1.fs.t, open.cwd) && Links(s1.fs.t)
    && ReadFile(s1.fs.t, open.cwd, FullName(s.fs.t, open.cwd, open.path).value) == Some(m)
    && sent == Sent(open.pid, out.n, calls, Outcomes(s1, calls))
    && var s2 := Finally(s1, calls);
    && close.CloseCall? && Possible(s2, close) && close.pid == open.pid && close.fd == out.n
    && Perform(s2, close).1.Done? && r == Perform(s2, close).0
    && SysOk(r) && Open(s2, out.n) && sent != [] && In(r.fs.t, close.cwd)
    && ResolveFrom(r.fs.t, close.cwd, View(s2, out.n).path) == Some(n)
  }

  /** Then the file holds what the one opened held, and after it everything written. */
  lemma AppendKeepsAll(s: Sys, open: Call, m: int, calls: seq<Call>, close: Call, r: Sys, n: int, sent: seq<Byte>)
    requires AppendedThrough(s, open, m, calls, close, r, n, sent)
    ensures SysOk(r) && In(r.fs.t, n)
    ensures In(Perform(s, open).0.fs.t, m) && FileBytes(r, n) == FileBytes(Perform(s, open).0, m) + sent
  {
    var (s1, out) := Perform(s, open);
    OpensAtEnd(s, open, m);
    hide Perform, SysOk, View, FileBytes, StaysOpen, FullName, ReadFile, ResolveFrom, Links, Finally, Sent;
    CollectedMore(s1, out.n, calls);
    PublishedAtClose(Finally(s1, calls), close, n);
  }

  /** What such an open shows. */
  lemma OpensAtEnd(s: Sys, open: Call, m: int)
    requires SysOk(s) && open.OpenCall? && Possible(s, open) && FullName(s.fs.t, open.cwd, open.path).Some?
    requires WantsWrite(open.flags) && !Bit(open.flags, O_TRUNC) && Bit(open.flags, O_APPEND)
    requires var (s1, out) := Perform(s, open);
             && out.Done? && Links(s1.fs.t) && In(s1.fs.t, open.cwd)
             && ReadFile(s1.fs.t, open.cwd, FullName(s.fs.t, open.cwd, open.path).value) == Some(m)
    ensures var (s1, out) := Perform(s, open);
            && FIRST_FD <= out.n && Open(s1, out.n) && In(s1.fs.t, m)
            && var v := View(s1, out.n);
               v.pid == open.pid && v.writable && v.bytes == FileBytes(s1, m) && v.pos == |v.bytes|
  {
    OpenRefines(s, open.cwd, open.pid, open.path, open.flags);
    var (s1, out) := Perform(s, open);
    assert OpenedAt(s1, out.n, open.cwd, open.pid, FullName(s.fs.t, open.cwd, open.path), open.flags);
    hide SysOk, Kept, SameFiles, OpenFile, View, Aliased, ReadFile, FullName, Bit;
  }

  /** Opened to be read only, then read in any chunks among any other calls. */
  ghost predicate ReadBack(s: Sys, open: Call, calls: seq<Call>, got: seq<Byte>, asked: nat) {
    && SysOk(s) && open.OpenCall? && Possible(s, open) && !WantsWrite(open.flags) && !Bit(open.flags, O_APPEND)
    && FullName(s.fs.t, open.cwd, open.path).Some?
    && var (s1, out) := Perform(s, open);
    && SysOk(s1) && out.Done? && StaysOpen(open.pid, out.n, calls)
    && In(s1.fs.t, open.cwd)
    && got == Got(open.pid, out.n, calls, Outcomes(s1, calls))
    && asked == Asked(open.pid, out.n, calls, Outcomes(s1, calls))
  }

  /** And the path names file `n`. */
  ghost predicate ReadThrough(s: Sys, open: Call, n: int, calls: seq<Call>, got: seq<Byte>, asked: nat) {
    && ReadBack(s, open, calls, got, asked)
    && ReadFile(Perform(s, open).0.fs.t, open.cwd, FullName(s.fs.t, open.cwd, open.path).value) == Some(n)
  }

  /** What a read-only open shows. */
  lemma OpensReader(s: Sys, open: Call, n: int)
    requires SysOk(s) && In(s.fs.t, n) && open.OpenCall? && Possible(s, open)
    requires !WantsWrite(open.flags) && !Bit(open.flags, O_APPEND) && FullName(s.fs.t, open.cwd, open.path).Some?
    requires var (s1, out) := Perform(s, open);
             && out.Done? && Links(s1.fs.t) && In(s1.fs.t, open.cwd)
             && ReadFile(s1.fs.t, open.cwd, FullName(s.fs.t, open.cwd, open.path).value) == Some(n)
    ensures var (s1, out) := Perform(s, open);
            && FIRST_FD <= out.n && Open(s1, out.n)
            && var v := View(s1, out.n);
               v.pid == open.pid && !v.writable && v.bytes == FileBytes(s, n) && v.pos == 0
  {
    OpenRefines(s, open.cwd, open.pid, open.path, open.flags);
    var (s1, out) := Perform(s, open);
    assert OpenedAt(s1, out.n, open.cwd, open.pid, FullName(s.fs.t, open.cwd, open.path), open.flags);
    assert SameFile(s, s1, n);
    hide SysOk, Kept, SameFiles, OpenFile, View, Aliased, ReadFile, FullName, Bit;
  }

  /** From the start of a simple file nobody writes, reads give its bytes. */
  lemma Handed(s: Sys, f: int, calls: seq<Call>)
    requires SysOk(s) && Open(s, f) && StaysOpen(View(s, f).pid, f, calls) && !View(s, f).writable && View(s, f).pos == 0
    ensures var v := View(s, f); var outs := Outcomes(s, calls);
            Got(v.pid, f, calls, outs) == v.bytes[..Least(Asked(v.pid, f, calls, outs), |v.bytes|)]
  {
    hide *;
    DescriptorRefines(s, calls, f);
    GivesBytes(View(s, f), f, calls, Outcomes(s, calls));
  }

  /** Then it reads exactly the bytes the file held at its open, whatever is published there meanwhile. */
  lemma ReadsWhatWasThere(s: Sys, open: Call, n: int, calls: seq<Call>, got: seq<Byte>, asked: nat)
    requires ReadThrough(s, open, n, calls, got, asked) && In(s.fs.t, n)
    ensures got == FileBytes(s, n)[..Least(asked, |FileBytes(s, n)|)]
  {
    var (s1, out) := Perform(s, open);
    OpensReader(s, open, n);
    hide Perform, SysOk, View, StaysOpen, FileBytes, FullName, ReadFile;
    Handed(s1, out.n, calls);
  }

  /**
   * The round trip, for any chunking on both sides and any calls by anybody in between: bytes written to a
   * descriptor, closed, and read again at a path that names the file are the bytes written, as many as are asked
   * for, as long as nothing else was published at that file in between.
   */
  lemma RoundTrip(s: Sys, open: Call, writes: seq<Call>, close: Call, r: Sys, n: int, sent: seq<Byte>,
                  between: seq<Call>, again: Call, asks: seq<Call>, got: seq<Byte>, asked: nat)
    requires WrittenThrough(s, open, writes, close, r, n, sent)
    requires LastPublished(r, between, n, sent) == sent
    requires ReadThrough(Finally(r, between), again, n, asks, got, asked)
    ensures got == sent[..Least(asked, |sent|)]
  {
    CloseKeepsAll(s, open, writes, close, r, n, sent);
    LastCloseWins(r, between, n);
    ReadsWhatWasThere(Finally(r, between), again, n, asks, got, asked);
  }

  // ---- the same path names the same file -----------------------------------

  lemma {:induction false} FinallyKept(s: Sys, calls: seq<Call>)
    requires SysOk(s)
    ensures Kept(s.fs, Finally(s, calls).fs)
    decreases calls
  {
    if calls != [] {
      var r := Perform(s, calls[0]).0;
      PerformOk(s, calls[0]);
      FinallyKept(r, calls[1..]);
      ExtendsTrans(s.fs.t, r.fs.t, Finally(r, calls[1..]).fs.t);
      hide Perform, SysOk, Extends;
    }
  }

  /** A descriptor's path is absolute: what it resolves to depends on no current directory, and stays. */
  lemma FullNameStays(s: Sys, cwd: int, path: string, t: Forest, c: int, t': Forest, c': int)
    requires Links(s.fs.t) && In(s.fs.t, cwd) && FullName(s.fs.t, cwd, path).Some?
    requires Ok(t) && Ok(t') && Extends(t, t') && In(t, c) && In(t', c')
    requires ResolveFrom(t, c, FullName(s.fs.t, cwd, path).value).Some?
    ensures var p := FullName(s.fs.t, cwd, path).value; In(t', c) && ResolveFrom(t', c', p) == ResolveFrom(t, c, p)
  {
    var p := FullName(s.fs.t, cwd, path).value;
    assert p != "" && p[0] == '/';
    ResolveStays(t, t', c, p);
    hide Walk, Extends, FullName;
  }

  /** Where a writer's close published, its path leads for good. */
  lemma ReopenedIsWritten(s: Sys, open: Call, calls: seq<Call>, close: Call, r: Sys, n: int, sent: seq<Byte>,
                          between: seq<Call>, again: Call)
    requires WrittenThrough(s, open, calls, close, r, n, sent)
    requires var q := Finally(r, between);
             && SysOk(q) && again.OpenCall? && Possible(q, again) && Perform(q, again).1.Done?
             && FullName(q.fs.t, again.cwd, again.path) == FullName(s.fs.t, open.cwd, open.path)
    ensures var q := Finally(r, between); var t, p := Perform(q, again).0.fs.t, FullName(q.fs.t, again.cwd, again.path);
            Links(t) && In(t, again.cwd) && p.Some? && ReadFile(t, again.cwd, p.value) == Some(n)
  {
    var q := Finally(r, between);
    var t := Perform(q, again).0.fs.t;
    WriterCollects(s, open, calls);
    FinallyKept(r, between);
    PerformOk(q, again);
    ExtendsTrans(r.fs.t, q.fs.t, t);
    OpenNames(q, again);
    hide Perform, SysOk, View, Extends, FullName, Walk, ResolveFrom, StaysOpen;
    FullNameStays(s, open.cwd, open.path, r.fs.t, close.cwd, t, again.cwd);
  }

  /** An open that succeeds found a file at its full path. */
  lemma OpenNames(s: Sys, open: Call)
    requires SysOk(s) && open.OpenCall? && Possible(s, open) && Perform(s, open).1.Done?
    ensures var t, p := Perform(s, open).0.fs.t, FullName(s.fs.t, open.cwd, open.path);
            Links(t) && In(t, open.cwd) && p.Some? && ReadFile(t, open.cwd, p.value).Some?
  {
    OpenRefines(s, open.cwd, open.pid, open.path, open.flags);
    var (s1, out) := Perform(s, open);
    assert OpenedAt(s1, out.n, open.cwd, open.pid, FullName(s.fs.t, open.cwd, open.path), open.flags);
    hide OpenFile, View, Aliased, ReadFile, FullName, SameViews, SameFiles;
  }

  /** The round trip by path alone: what was written at an absolute path is what opening that path again reads. */
  lemma RoundTripByPath(s: Sys, open: Call, writes: seq<Call>, close: Call, r: Sys, n: int, sent: seq<Byte>,
                        between: seq<Call>, again: Call, asks: seq<Call>, got: seq<Byte>, asked: nat)
    requires WrittenThrough(s, open, writes, close, r, n, sent)
    requires LastPublished(r, between, n, sent) == sent
    requires ReadBack(Finally(r, between), again, asks, got, asked)
    requires FullName(Finally(r, between).fs.t, again.cwd, again.path) == FullName(s.fs.t, open.cwd, open.path)
    ensures got == sent[..Least(asked, |sent|)]
  {
    ReopenedIsWritten(s, open, writes, close, r, n, sent, between, again);
    hide Perform, SysOk, View, FullName, ReadFile, WrittenThrough, StaysOpen, LastPublished;
    RoundTrip(s, open, writes, close, r, n, sent, between, again, asks, got, asked);
  }
}
