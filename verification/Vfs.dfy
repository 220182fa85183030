// The operations that grow the tree, and what every run of them keeps (kernel/vfs.c).

module Vfs {
  import opened Bytes
  import opened Paths
  import opened Heap
  import opened Tree
  import opened Resolve

  datatype Fs = Fs(t: Forest, h: Arena)

  ghost predicate FsOk(s: Fs) {
    Ok(s.t) && s.h.Ok()
  }

  /** `vfs_alloc_node`: the node takes 56 bytes of the heap. */
  function AllocNode(s: Fs, w: string, dir: bool, parent: int): (r: (Fs, bool))
    requires In(s.t, parent)
  {
    var (h, p) := Alloc(s.h, NODE_SIZE);
    if p == None then (s, false) else (Fs(Grown(s.t, w, dir, parent), h), true)
  }

  // ---- the two prefixes the tree does not hold -----------------------------

  predicate Under(p: string, prefix: string) {
    prefix <= p && (|p| == |prefix| || p[|prefix|] == '/')
  }

  /** The path as the alias test sees it: made absolute if that fits. */
  function Absolute(t: Forest, cwd: int, p: string): (r: string)
    requires Links(t) && In(t, cwd)
  {
    if p != "" && p[0] == '/' then p
    else
      match Join(CwdPath(t, cwd, PATH_MAX), p, PATH_MAX)
      case None => p
      case Some(q) => q
  }

  /** Paths served from the disc. */
  predicate Aliased(t: Forest, cwd: int, p: string)
    requires Links(t) && In(t, cwd)
  {
    var q := Absolute(t, cwd, p);
    Under(q, "/bin") || Under(q, "/mount/cdrom")
  }

  // ---- operations ----------------------------------------------------------

  /** The directory a new entry goes to, and its name. */
  function Target(t: Forest, cwd: int, p: string): (r: Option<(int, string)>)
    requires Links(t) && In(t, cwd)
    ensures r.Some? ==> In(t, r.value.0) && t[r.value.0].dir && IsName(r.value.1)
    ensures r.Some? ==> SplitParent(p).Some? && r == Some((r.value.0, SplitParent(p).value.1))
                        && ResolveFrom(t, cwd, SplitParent(p).value.0) == Some(r.value.0)
  {
    match SplitParent(p)
    case None => None
    case Some(split) =>
      match ResolveFrom(t, cwd, split.0)
      case None => None
      case Some(d) => if t[d].dir then Some((d, split.1)) else None
  }

  /** `vfs_make_dir`. */
  function MakeDir(s: Fs, cwd: int, p: string): (r: (Fs, bool))
    requires Links(s.t) && In(s.t, cwd)
  {
    if Aliased(s.t, cwd, p) then (s, false)
    else
      match Target(s.t, cwd, p)
      case None => (s, false)
      case Some(at) => if FindChild(s.t, at.0, at.1) >= 0 then (s, false) else AllocNode(s, at.1, true, at.0)
  }

  /** `vfs_touch`. */
  function Touch(s: Fs, cwd: int, p: string): (r: (Fs, bool))
    requires Links(s.t) && In(s.t, cwd)
  {
    if Aliased(s.t, cwd, p) then (s, false)
    else
      match Target(s.t, cwd, p)
      case None => (s, false)
      case Some(at) =>
        var c := FindChild(s.t, at.0, at.1);
        if c >= 0 then (s, !s.t[c].dir) else AllocNode(s, at.1, false, at.0)
  }

  /** The loop of `vfs_ensure_dir_abs` from node `n` on; what it made before failing stays. */
  function EnsureFrom(s: Fs, n: int, p: string): (r: (Fs, bool))
    requires FsOk(s) && In(s.t, n) && s.t[n].dir
    decreases |p|
  {
    match NextComponent(p)
    case End => (s, true)
    case TooLong => (s, false)
    case Name(w, rest) =>
      var c := FindChild(s.t, n, w);
      if c >= 0 then if s.t[c].dir then EnsureFrom(s, c, rest) else (s, false)
      else
        var (s', made) := AllocNode(s, w, true, n);
        if !made then (s, false)
        else
          AllocNodeOk(s, w, true, n);
          EnsureFrom(s', |s.t|, rest)
  }

  function EnsureDir(s: Fs, p: string): (r: (Fs, bool))
    requires FsOk(s)
  {
    if p == "" || p[0] != '/' then (s, false) else assert LinkOk(s.t, ROOT); EnsureFrom(s, ROOT, p)
  }

  /** `vfs_write_file`: touch, resolve again, then a fresh block; `None` for the block is out of memory. */
  function WriteFile(s: Fs, cwd: int, p: string, size: U32): (r: (Fs, Option<U32>))
    requires FsOk(s) && In(s.t, cwd)
  {
    if Aliased(s.t, cwd, p) then (s, None)
    else
      TouchOk(s, cwd, p);
      var (s1, ok) := Touch(s, cwd, p);
      if !ok then (s1, None)
      else
        match ResolveFrom(s1.t, cwd, p)
        case None => (s1, None)
        case Some(n) =>
          var (h, block) := Alloc(s1.h, Wrap(size + 1));
          if block == None then (s1, None)
          else (Fs(Published(s1.t, n, block.value, size), h), block)
  }

  /** `vfs_read_file` for a path the tree serves: the file's node. */
  function ReadFile(t: Forest, cwd: int, p: string): (r: Option<int>)
    requires Links(t) && In(t, cwd)
    ensures r.Some? ==> In(t, r.value) && !t[r.value].dir
  {
    match ResolveFrom(t, cwd, p)
    case None => None
    case Some(n) => if t[n].dir then None else Some(n)
  }

  // ---- each keeps the tree well-formed -------------------------------------

  /** The state an operation leaves: well-formed, and with everything that was there before. */
  ghost predicate Kept(s: Fs, r: Fs) {
    FsOk(r) && Extends(s.t, r.t) && s.h.current <= r.h.current && r.h == s.h.(current := r.h.current)
  }

  lemma AllocNodeOk(s: Fs, w: string, dir: bool, parent: int)
    requires FsOk(s) && In(s.t, parent) && s.t[parent].dir && IsName(w) && FindChild(s.t, parent, w) < 0
    ensures var (r, ok) := AllocNode(s, w, dir, parent);
            && Kept(s, r)
            && (ok <==> s.h.ready && s.h.current + NODE_SIZE <= s.h.limit)
            && (!ok ==> r == s)
            && (ok ==> r.t == Grown(s.t, w, dir, parent) && FindChild(r.t, parent, w) == |s.t|)
  {
    AllocIs(s.h, NODE_SIZE);
    GrownOk(s.t, w, dir, parent);
  }

  lemma MakeDirOk(s: Fs, cwd: int, p: string)
    requires FsOk(s) && In(s.t, cwd)
    ensures Kept(s, MakeDir(s, cwd, p).0)
  {
    var at := Target(s.t, cwd, p);
    if at.Some? && FindChild(s.t, at.value.0, at.value.1) < 0 {
      AllocNodeOk(s, at.value.1, true, at.value.0);
    }
  }

  lemma TouchOk(s: Fs, cwd: int, p: string)
    requires FsOk(s) && In(s.t, cwd)
    ensures Kept(s, Touch(s, cwd, p).0)
  {
    var at := Target(s.t, cwd, p);
    if at.Some? && FindChild(s.t, at.value.0, at.value.1) < 0 {
      AllocNodeOk(s, at.value.1, false, at.value.0);
    }
  }

  lemma {:induction false} EnsureOk(s: Fs, n: int, p: string)
    requires FsOk(s) && In(s.t, n) && s.t[n].dir
    ensures Kept(s, EnsureFrom(s, n, p).0)
    decreases |p|
  {
    match NextComponent(p)
    case Name(w, rest) =>
      var c := FindChild(s.t, n, w);
      if c >= 0 {
        if s.t[c].dir {
          EnsureOk(s, c, rest);
        }
      } else {
        AllocNodeOk(s, w, true, n);
        var (s', made) := AllocNode(s, w, true, n);
        if made {
          EnsureOk(s', |s.t|, rest);
          ExtendsTrans(s.t, s'.t, EnsureFrom(s', |s.t|, rest).0.t);
        }
      }
    case _ =>
  }

  lemma ExtendsTrans(a: Forest, b: Forest, c: Forest)
    requires Extends(a, b) && Extends(b, c)
    ensures Extends(a, c)
  {
    forall n | In(a, n) ensures SameNode(a[n], c[n]) {
      assert SameNode(a[n], b[n]) && SameNode(b[n], c[n]);
    }
  }

  lemma WriteFileOk(s: Fs, cwd: int, p: string, size: U32)
    requires FsOk(s) && In(s.t, cwd)
    ensures Kept(s, WriteFile(s, cwd, p, size).0)
  {
    TouchOk(s, cwd, p);
    var s1 := Touch(s, cwd, p).0;
    var r := WriteFile(s, cwd, p, size).0;
    if r.t != s1.t || r.h != s1.h {
      var n := ResolveFrom(s1.t, cwd, p).value;
      AllocIs(s1.h, Wrap(size + 1));
      PublishedOk(s1.t, n, Alloc(s1.h, Wrap(size + 1)).1.value, size);
      ExtendsTrans(s.t, s1.t, r.t);
    }
  }

  // ---- every run -----------------------------------------------------------

  datatype Op =
    | Mkdir(cwd: int, path: string)
    | Create(cwd: int, path: string)
    | Ensure(path: string)
    | Write(cwd: int, path: string, size: U32)

  /** A current directory that does not exist (yet) is nobody's: the call is skipped. */
  function Do(s: Fs, op: Op): (r: Fs)
    requires FsOk(s)
  {
    match op
    case Mkdir(cwd, p) => if In(s.t, cwd) then MakeDir(s, cwd, p).0 else s
    case Create(cwd, p) => if In(s.t, cwd) then Touch(s, cwd, p).0 else s
    case Ensure(p) => EnsureDir(s, p).0
    case Write(cwd, p, size) => if In(s.t, cwd) then WriteFile(s, cwd, p, size).0 else s
  }

  lemma DoOk(s: Fs, op: Op)
    requires FsOk(s)
    ensures Kept(s, Do(s, op))
  {
    match op
    case Mkdir(cwd, p) => if In(s.t, cwd) { MakeDirOk(s, cwd, p); }
    case Create(cwd, p) => if In(s.t, cwd) { TouchOk(s, cwd, p); }
    case Ensure(p) => assert LinkOk(s.t, ROOT); EnsureOk(s, ROOT, p);
    case Write(cwd, p, size) => if In(s.t, cwd) { WriteFileOk(s, cwd, p, size); }
  }

  ghost function RunOps(s: Fs, ops: seq<Op>): (r: Fs)
    requires FsOk(s)
    decreases ops
  {
    if ops == [] then s else DoOk(s, ops[0]); RunOps(Do(s, ops[0]), ops[1..])
  }

  /** Every run keeps the tree well-formed, and every path resolves for good to what it first resolved to. */
  lemma {:induction false} RunKeepsTree(s: Fs, ops: seq<Op>, cwd: int, p: string)
    requires FsOk(s) && In(s.t, cwd)
    ensures var r := RunOps(s, ops);
            && Kept(s, r)
            && (ResolveFrom(s.t, cwd, p).Some? ==> ResolveFrom(r.t, cwd, p) == ResolveFrom(s.t, cwd, p))
    decreases ops
  {
    if ops != [] {
      var s1 := Do(s, ops[0]);
      DoOk(s, ops[0]);
      RunKeepsTree(s1, ops[1..], cwd, p);
      ExtendsTrans(s.t, s1.t, RunOps(s, ops).t);
      if ResolveFrom(s.t, cwd, p).Some? {
        ResolveStays(s.t, s1.t, cwd, p);
      }
    }
  }

  /** After every run a directory's printed path leads back to it exactly under the printer's own condition. */
  lemma RunPrints(s: Fs, ops: seq<Op>, n: int, cwd: int)
    requires FsOk(s) && In(RunOps(s, ops).t, n) && In(RunOps(s, ops).t, cwd)
    ensures var t := RunOps(s, ops).t;
            && Ok(t)
            && (ResolveFrom(t, cwd, CwdPath(t, n, PATH_MAX)) == Some(n)
                <==> |Chain(t, n)| <= MAX_PARTS && |FullPath(Chain(t, n))| < PATH_MAX && NoDots(Chain(t, n)))
  {
    assert In(s.t, ROOT);
    RunKeepsTree(s, ops, ROOT, "");
    PrintThenResolve(RunOps(s, ops).t, n, cwd, PATH_MAX);
  }

  // ---- names that stay clean -----------------------------------------------

  /** No node is called "." or "..". */
  ghost predicate Clean(t: Forest) {
    forall n :: In(t, n) ==> !Dots(t[n].name)
  }

  lemma {:induction false} ChainClean(t: Forest, n: int)
    requires Links(t) && Clean(t) && In(t, n)
    ensures NoDots(Chain(t, n))
    decreases n
  {
    if n != ROOT {
      assert LinkOk(t, n);
      ChainClean(t, t[n].parent);
    }
  }

  /** The slash-free arguments that skip the check for "." and "..". */
  predicate CleanPath(p: string) {
    '/' in p || !Dots(p)
  }

  predicate AllClean(p: string)
    decreases |p|
  {
    match NextComponent(p)
    case Name(w, rest) => !Dots(w) && AllClean(rest)
    case _ => true
  }

  predicate CleanOp(op: Op) {
    if op.Ensure? then AllClean(op.path) else CleanPath(op.path)
  }

  lemma GrownClean(t: Forest, w: string, dir: bool, p: int)
    requires Ok(t) && Clean(t) && In(t, p) && !Dots(w)
    ensures Clean(Grown(t, w, dir, p))
  {
    var r := Grown(t, w, dir, p);
    forall n | In(r, n) ensures !Dots(r[n].name) {
      if n < |t| {
        assert !Dots(t[n].name);
      }
    }
  }

  lemma TargetClean(t: Forest, cwd: int, p: string)
    requires Links(t) && In(t, cwd) && CleanPath(p) && Target(t, cwd, p).Some?
    ensures !Dots(Target(t, cwd, p).value.1)
  {
    if LastSlash(p) < 0 && |p| > NAME_MAX {
      assert |SplitParent(p).value.1| == NAME_MAX;
    }
  }

  lemma {:induction false} EnsureClean(s: Fs, n: int, p: string)
    requires FsOk(s) && Clean(s.t) && In(s.t, n) && s.t[n].dir && AllClean(p)
    ensures Clean(EnsureFrom(s, n, p).0.t)
    decreases |p|
  {
    match NextComponent(p)
    case Name(w, rest) =>
      var c := FindChild(s.t, n, w);
      if c >= 0 {
        if s.t[c].dir {
          EnsureClean(s, c, rest);
        }
      } else {
        AllocNodeOk(s, w, true, n);
        GrownClean(s.t, w, true, n);
        var (s', made) := AllocNode(s, w, true, n);
        if made {
          EnsureClean(s', |s.t|, rest);
        }
      }
    case _ =>
  }

  lemma MadeClean(s: Fs, cwd: int, p: string, dir: bool)
    requires FsOk(s) && In(s.t, cwd) && Clean(s.t) && CleanPath(p) && Target(s.t, cwd, p).Some?
    ensures var at := Target(s.t, cwd, p).value; Clean(AllocNode(s, at.1, dir, at.0).0.t)
  {
    var at := Target(s.t, cwd, p).value;
    TargetClean(s.t, cwd, p);
    GrownClean(s.t, at.1, dir, at.0);
  }

  lemma MakeDirClean(s: Fs, cwd: int, p: string)
    requires FsOk(s) && In(s.t, cwd) && Clean(s.t) && CleanPath(p)
    ensures Clean(MakeDir(s, cwd, p).0.t)
  {
    if Target(s.t, cwd, p).Some? {
      MadeClean(s, cwd, p, true);
    }
    hide Clean, AllocNode;
  }

  lemma TouchClean(s: Fs, cwd: int, p: string)
    requires FsOk(s) && In(s.t, cwd) && Clean(s.t) && CleanPath(p)
    ensures Clean(Touch(s, cwd, p).0.t)
  {
    if Target(s.t, cwd, p).Some? {
      MadeClean(s, cwd, p, false);
    }
    hide Clean, AllocNode;
  }

  lemma WriteFileClean(s: Fs, cwd: int, p: string, size: U32)
    requires FsOk(s) && In(s.t, cwd) && Clean(s.t) && CleanPath(p)
    ensures Clean(WriteFile(s, cwd, p, size).0.t)
  {
    TouchOk(s, cwd, p);
    TouchClean(s, cwd, p);
    hide Touch, Aliased, Alloc;
  }

  lemma DoClean(s: Fs, op: Op)
    requires FsOk(s) && Clean(s.t) && CleanOp(op)
    ensures Clean(Do(s, op).t)
  {
    match op
    case Mkdir(cwd, p) => if In(s.t, cwd) { MakeDirClean(s, cwd, p); }
    case Create(cwd, p) => if In(s.t, cwd) { TouchClean(s, cwd, p); }
    case Ensure(p) => assert LinkOk(s.t, ROOT); EnsureClean(s, ROOT, p);
    case Write(cwd, p, size) => if In(s.t, cwd) { WriteFileClean(s, cwd, p, size); }
  }

  lemma {:induction false} RunClean(s: Fs, ops: seq<Op>)
    requires FsOk(s) && Clean(s.t) && forall k :: 0 <= k < |ops| ==> CleanOp(ops[k])
    ensures Clean(RunOps(s, ops).t)
    decreases ops
  {
    if ops != [] {
      DoOk(s, ops[0]);
      DoClean(s, ops[0]);
      RunClean(Do(s, ops[0]), ops[1..]);
    }
  }

  /** Along every run of calls that make no "." or "..", depth and length alone decide. */
  lemma CleanRunPrints(s: Fs, ops: seq<Op>, n: int, cwd: int)
    requires FsOk(s) && Clean(s.t) && forall k :: 0 <= k < |ops| ==> CleanOp(ops[k])
    requires In(RunOps(s, ops).t, n) && In(RunOps(s, ops).t, cwd)
    ensures var t := RunOps(s, ops).t;
            && Ok(t)
            && (ResolveFrom(t, cwd, CwdPath(t, n, PATH_MAX)) == Some(n)
                <==> |Chain(t, n)| <= MAX_PARTS && |FullPath(Chain(t, n))| < PATH_MAX)
  {
    RunPrints(s, ops, n, cwd);
    RunClean(s, ops);
    ChainClean(RunOps(s, ops).t, n);
  }

  // ---- what a successful touch resolves to ---------------------------------

  /** The paths for which the split and the resolution agree on the last name. */
  predicate Faithful(p: string) {
    '/' in p || (!Dots(p) && |p| <= NAME_MAX)
  }

  /** A touch that succeeded left a file of the last name in the target directory. */
  lemma TouchMakes(s: Fs, cwd: int, p: string)
    requires FsOk(s) && In(s.t, cwd) && Touch(s, cwd, p).1
    ensures var r := Touch(s, cwd, p).0;
            && Kept(s, r) && Target(s.t, cwd, p).Some?
            && var (d, w) := Target(s.t, cwd, p).value;
               In(r.t, d) && FindChild(r.t, d, w) >= 0 && !r.t[FindChild(r.t, d, w)].dir
  {
    TouchOk(s, cwd, p);
    var (d, w) := Target(s.t, cwd, p).value;
    if FindChild(s.t, d, w) < 0 {
      AllocNodeOk(s, w, false, d);
    }
  }

  /** A successful touch resolves to a file exactly for these paths. */
  lemma TouchResolves(s: Fs, cwd: int, p: string)
    requires FsOk(s) && In(s.t, cwd) && Touch(s, cwd, p).1
    ensures var t := Touch(s, cwd, p).0.t;
            Ok(t) && In(t, cwd) && (Faithful(p) <==> ReadFile(t, cwd, p).Some?)
  {
    TouchMakes(s, cwd, p);
    var t := Touch(s, cwd, p).0.t;
    var (d, w) := Target(s.t, cwd, p).value;
    var (par, _) := SplitParent(p).value;
    hide Touch, Aliased, Target;
    if LastSlash(p) >= 0 {
      SplitResolves(t, cwd, p);
      ResolveStays(s.t, t, cwd, par);
      assert ReadFile(t, cwd, p) == Some(FindChild(t, d, w));
    } else {
      assert d == cwd && s.t[cwd].dir;
      PlainResolves(t, cwd, p);
      assert LinkOk(t, cwd) && SameNode(s.t[cwd], t[cwd]);
      if |p| <= NAME_MAX && !Dots(p) {
        assert ReadFile(t, cwd, p) == Some(FindChild(t, d, w));
      } else if Dots(p) && t[cwd].parent >= 0 {
        assert t[t[cwd].parent].dir;
      }
    }
  }
}
