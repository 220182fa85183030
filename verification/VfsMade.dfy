// When the calls that make a directory or a file succeed, and what their path then names (kernel/vfs.c).

module VfsMade {
  import opened Bytes
  import opened Paths
  import opened Heap
  import opened Tree
  import opened Resolve
  import opened Vfs

  // ---- what a caller has ---------------------------------------------------

  /** A path is the disc's if, made absolute, it is one of the two prefixes or goes on below it with a slash. */
  lemma AliasedExactly(t: Forest, cwd: int, p: string)
    requires Links(t) && In(t, cwd)
    ensures var q := Absolute(t, cwd, p);
            Aliased(t, cwd, p)
            <==> q == "/bin" || q == "/mount/cdrom" || exists rest: string :: q == "/bin" + ("/" + rest)
                                                                             || q == "/mount/cdrom" + ("/" + rest)
  {
    var q := Absolute(t, cwd, p);
    hide Absolute, Links;
    UnderExactly(q, "/bin");
    UnderExactly(q, "/mount/cdrom");
  }

  lemma UnderExactly(q: string, prefix: string)
    ensures Under(q, prefix) <==> q == prefix || exists rest: string :: q == prefix + ("/" + rest)
  {
    if Under(q, prefix) && q != prefix {
      assert q == prefix + ("/" + q[|prefix| + 1..]);
    }
  }

  /** Node `c` is called `w` and lies in directory `d`. */
  predicate Child(t: Forest, d: int, w: string, c: int) {
    In(t, c) && c != ROOT && t[c].parent == d && t[c].name == w
  }

  ghost predicate NewName(t: Forest, d: int, w: string) {
    forall c :: !Child(t, d, w, c)
  }

  ghost predicate FileThere(t: Forest, d: int, w: string) {
    exists c :: Child(t, d, w, c) && !t[c].dir
  }

  /** The path is for an entry `w` of the existing directory `d`. */
  predicate Leads(t: Forest, cwd: int, p: string, d: int, w: string)
    requires Links(t) && In(t, cwd)
  {
    && SplitParent(p).Some? && SplitParent(p).value.1 == w
    && ResolveFrom(t, cwd, SplitParent(p).value.0) == Some(d) && t[d].dir
  }

  /** Room for one more node. */
  predicate Room(h: Arena) {
    h.ready && h.current + NODE_SIZE <= h.limit
  }

  ghost predicate CanMakeDir(s: Fs, cwd: int, p: string)
    requires Links(s.t) && In(s.t, cwd)
  {
    !Aliased(s.t, cwd, p) && Room(s.h) && exists d, w :: Leads(s.t, cwd, p, d, w) && NewName(s.t, d, w)
  }

  ghost predicate CanTouch(s: Fs, cwd: int, p: string)
    requires Links(s.t) && In(s.t, cwd)
  {
    && !Aliased(s.t, cwd, p)
    && exists d, w :: Leads(s.t, cwd, p, d, w) && (FileThere(s.t, d, w) || (NewName(s.t, d, w) && Room(s.h)))
  }

  // ---- when they succeed ---------------------------------------------------

  lemma FoundExactly(t: Forest, d: int, w: string)
    requires Ok(t) && In(t, d)
    ensures FindChild(t, d, w) < 0 <==> NewName(t, d, w)
    ensures FindChild(t, d, w) >= 0 ==> (FileThere(t, d, w) <==> !t[FindChild(t, d, w)].dir)
  {
    var c := FindChild(t, d, w);
    if c >= 0 {
      FindIs(t, d, w, c);
      assert Child(t, d, w, c);
      forall e | Child(t, d, w, e) ensures e == c {
        FindIs(t, d, w, e);
      }
    } else {
      forall e ensures !Child(t, d, w, e) {
        if Child(t, d, w, e) {
          FindIs(t, d, w, e);
        }
      }
    }
  }

  lemma TargetExactly(t: Forest, cwd: int, p: string, d: int, w: string)
    requires Links(t) && In(t, cwd)
    ensures Target(t, cwd, p) == Some((d, w)) <==> Leads(t, cwd, p, d, w)
  {
    hide Links, ResolveFrom, SplitParent;
  }

  /** A directory is made exactly when its parent resolves to a directory without the name, and a node fits. */
  lemma MakeDirExactly(s: Fs, cwd: int, p: string)
    requires FsOk(s) && In(s.t, cwd)
    ensures MakeDir(s, cwd, p).1 <==> CanMakeDir(s, cwd, p)
    ensures !MakeDir(s, cwd, p).1 ==> MakeDir(s, cwd, p).0 == s
  {
    var at := Target(s.t, cwd, p);
    forall d, w ensures at == Some((d, w)) <==> Leads(s.t, cwd, p, d, w) {
      TargetExactly(s.t, cwd, p, d, w);
    }
    hide Links, Ok, Aliased, Target, Leads, FindChild;
    if at.Some? {
      var (d, w) := at.value;
      FoundExactly(s.t, d, w);
      AllocIs(s.h, NODE_SIZE);
      hide NewName, Alloc;
    }
  }

  /** A touch succeeds exactly when the file is there, or its name is new and a node fits. */
  lemma TouchExactly(s: Fs, cwd: int, p: string)
    requires FsOk(s) && In(s.t, cwd)
    ensures Touch(s, cwd, p).1 <==> CanTouch(s, cwd, p)
    ensures !Touch(s, cwd, p).1 ==> Touch(s, cwd, p).0 == s
  {
    var at := Target(s.t, cwd, p);
    forall d, w ensures at == Some((d, w)) <==> Leads(s.t, cwd, p, d, w) {
      TargetExactly(s.t, cwd, p, d, w);
    }
    hide Links, Ok, Aliased, Target, Leads, FindChild;
    if at.Some? {
      var (d, w) := at.value;
      FoundExactly(s.t, d, w);
      AllocIs(s.h, NODE_SIZE);
      hide NewName, FileThere, Alloc;
    }
  }

  // ---- what they make ------------------------------------------------------

  /** The tree has one more node: `w`, an empty directory or file, in `d`. */
  ghost predicate OneMore(t: Forest, t': Forest, d: int, w: string, dir: bool) {
    var n := |t|;
    && Ok(t') && Extends(t, t') && |t'| == n + 1 && Child(t', d, w, n)
    && t'[n].dir == dir && Children(t', n) == [] && t'[n].size == 0
  }

  lemma NodeMade(s: Fs, w: string, dir: bool, d: int)
    requires FsOk(s) && In(s.t, d) && s.t[d].dir && IsName(w) && FindChild(s.t, d, w) < 0
    ensures var (r, ok) := AllocNode(s, w, dir, d); ok ==> OneMore(s.t, r.t, d, w, dir)
  {
    AllocNodeOk(s, w, dir, d);
    if AllocNode(s, w, dir, d).1 {
      var t' := Grown(s.t, w, dir, d);
      assert LinkOk(t', |s.t|);
      hide Links;
    }
  }

  lemma MakeDirMakes(s: Fs, cwd: int, p: string, d: int, w: string)
    requires FsOk(s) && In(s.t, cwd) && MakeDir(s, cwd, p).1 && Leads(s.t, cwd, p, d, w)
    ensures OneMore(s.t, MakeDir(s, cwd, p).0.t, d, w, true)
  {
    TargetExactly(s.t, cwd, p, d, w);
    NodeMade(s, w, true, d);
    hide Ok, Links, Aliased, OneMore, AllocNode;
  }

  /** A touch leaves the tree alone if the file is there; otherwise it gains the file. */
  lemma TouchAdds(s: Fs, cwd: int, p: string, d: int, w: string)
    requires FsOk(s) && In(s.t, cwd) && Touch(s, cwd, p).1 && Leads(s.t, cwd, p, d, w)
    ensures var r := Touch(s, cwd, p).0;
            if FileThere(s.t, d, w) then r == s else NewName(s.t, d, w) && OneMore(s.t, r.t, d, w, false)
  {
    TargetExactly(s.t, cwd, p, d, w);
    FoundExactly(s.t, d, w);
    if FindChild(s.t, d, w) < 0 {
      NodeMade(s, w, false, d);
    }
    hide Ok, Links, Aliased, OneMore, AllocNode, NewName, FileThere;
  }

  /** In a tree where `c` is the child `w` of the directory a path leads to, the path names `c` if it is faithful. */
  lemma LeadsTo(t: Forest, t': Forest, cwd: int, p: string, d: int, w: string, c: int)
    requires Ok(t) && Ok(t') && Extends(t, t') && In(t, cwd) && In(t', cwd) && Leads(t, cwd, p, d, w)
    requires Child(t', d, w, c)
    ensures Faithful(p) ==> ResolveFrom(t', cwd, p) == Some(c)
    ensures !Faithful(p) ==> ResolveFrom(t', cwd, p) == None || exists m :: In(t, m) && ResolveFrom(t', cwd, p) == Some(m)
  {
    var (par, _) := SplitParent(p).value;
    assert In(t', d) by { assert SameNode(t[d], t'[d]); }
    FindIs(t', d, w, c);
    ResolveStays(t, t', cwd, par);
    assert LinkOk(t, cwd) && SameNode(t[cwd], t'[cwd]);
    if LastSlash(p) >= 0 {
      SplitResolves(t', cwd, p);
    } else {
      PlainResolves(t', cwd, p);
    }
    hide Ok, Links, FindChild, ResolveFrom;
  }

  /** The path of a directory just made names it, an empty directory, exactly if the path is faithful. */
  lemma MakeDirResolves(s: Fs, cwd: int, p: string)
    requires FsOk(s) && In(s.t, cwd) && MakeDir(s, cwd, p).1
    ensures var t, n := MakeDir(s, cwd, p).0.t, |s.t|;
            && Ok(t) && In(t, n) && In(t, cwd) && t[n].dir && Children(t, n) == []
            && (Faithful(p) <==> ResolveFrom(t, cwd, p) == Some(n))
  {
    MakeDirExactly(s, cwd, p);
    var t, n := MakeDir(s, cwd, p).0.t, |s.t|;
    var d, w :| Leads(s.t, cwd, p, d, w) && NewName(s.t, d, w);
    MakeDirMakes(s, cwd, p, d, w);
    LeadsTo(s.t, t, cwd, p, d, w, n);
    hide Ok, Links, MakeDir, ResolveFrom, Faithful, Leads, Extends;
  }

  /** So does that of a file, by a touch that finds it or makes it. */
  lemma TouchNames(s: Fs, cwd: int, p: string, d: int, w: string)
    requires FsOk(s) && In(s.t, cwd) && Touch(s, cwd, p).1 && Leads(s.t, cwd, p, d, w) && Faithful(p)
    ensures var t, n := Touch(s, cwd, p).0.t, ResolveFrom(s.t, cwd, p);
            && Ok(t) && In(t, cwd)
            && (if FileThere(s.t, d, w) then n.Some? && !s.t[n.value].dir && t == s.t
                else n == None && ResolveFrom(t, cwd, p) == Some(|s.t|) && OneMore(s.t, t, d, w, false))
  {
    TouchAdds(s, cwd, p, d, w);
    var t := Touch(s, cwd, p).0.t;
    TouchOk(s, cwd, p);
    if FileThere(s.t, d, w) {
      var c :| Child(s.t, d, w, c) && !s.t[c].dir;
      LeadsTo(s.t, t, cwd, p, d, w, c);
    } else {
      LeadsTo(s.t, t, cwd, p, d, w, |s.t|);
      NotYet(s.t, t, cwd, p);
    }
    hide Ok, Links, Touch, ResolveFrom, Faithful, Leads, Extends, NewName, Child;
  }

  /** What resolves to a new node did not resolve before. */
  lemma NotYet(t: Forest, t': Forest, cwd: int, p: string)
    requires Ok(t) && Ok(t') && Extends(t, t') && In(t, cwd) && In(t', cwd) && ResolveFrom(t', cwd, p) == Some(|t|)
    ensures ResolveFrom(t, cwd, p) == None
  {
    if ResolveFrom(t, cwd, p).Some? {
      ResolveStays(t, t', cwd, p);
    }
  }

  // ---- what they take of the heap ------------------------------------------

  const NODE_STEP := 64

  lemma AllocMoves(a: Arena, size: U32)
    requires a.Ok() && Alloc(a, size).1.Some?
    ensures var (r, p) := Alloc(a, size);
            p == Some(a.current) && r == a.(current := r.current) && r.current == a.current + RoundUp(size)
  {
    AllocIs(a, size);
    RoundedUp(a.current, size);
    hide RoundUp;
  }

  lemma NodeTakes(s: Fs, w: string, dir: bool, d: int)
    requires s.h.Ok() && In(s.t, d) && AllocNode(s, w, dir, d).1
    ensures var h := AllocNode(s, w, dir, d).0.h;
            h == s.h.(current := h.current) && h.current == s.h.current + NODE_STEP
  {
    AllocMoves(s.h, NODE_SIZE);
    hide Alloc, Grown;
  }

  /** The two ways a touch succeeds. */
  lemma TouchIs(s: Fs, cwd: int, p: string, d: int, w: string)
    requires Links(s.t) && In(s.t, cwd) && Touch(s, cwd, p).1 && Target(s.t, cwd, p) == Some((d, w))
    ensures Touch(s, cwd, p) == if FindChild(s.t, d, w) >= 0 then (s, true) else AllocNode(s, w, false, d)
  {
    hide Links, Aliased, Target, AllocNode, FindChild;
  }

  lemma TouchTakes(s: Fs, cwd: int, p: string, d: int, w: string)
    requires FsOk(s) && In(s.t, cwd) && Touch(s, cwd, p).1 && Leads(s.t, cwd, p, d, w)
    ensures var h := Touch(s, cwd, p).0.h;
            && h == s.h.(current := h.current)
            && h.current == s.h.current + if FileThere(s.t, d, w) then 0 else NODE_STEP
  {
    TargetExactly(s.t, cwd, p, d, w);
    TouchIs(s, cwd, p, d, w);
    FoundExactly(s.t, d, w);
    hide Ok, Links, Touch, Target, NewName, FileThere, Leads, FindChild, AllocNode;
    if FindChild(s.t, d, w) < 0 {
      NodeTakes(s, w, false, d);
    }
  }

  lemma MakeDirTakes(s: Fs, cwd: int, p: string)
    requires FsOk(s) && In(s.t, cwd) && MakeDir(s, cwd, p).1
    ensures var h := MakeDir(s, cwd, p).0.h;
            h == s.h.(current := h.current) && h.current == s.h.current + NODE_STEP
  {
    var (d, w) := Target(s.t, cwd, p).value;
    hide Ok, Links, Aliased, FindChild, AllocNode;
    NodeTakes(s, w, true, d);
  }

  // ---- making every directory of a path ------------------------------------

  /** Down from `n` by every name of a path, "." and ".." included. */
  function Down(t: Forest, n: int, p: string): (r: Option<int>)
    requires Links(t) && In(t, n)
    ensures r.Some? ==> In(t, r.value)
    decreases |p|
  {
    match NextComponent(p)
    case End => Some(n)
    case TooLong => None
    case Name(w, rest) =>
      var c := FindChild(t, n, w);
      if c < 0 then None else Down(t, c, rest)
  }

  /** The names of a path. */
  function Depth(p: string): nat
    decreases |p|
  {
    match NextComponent(p)
    case Name(_, rest) => 1 + Depth(rest)
    case _ => 0
  }

  lemma {:induction false} DownStays(t: Forest, t': Forest, n: int, p: string)
    requires Ok(t) && Ok(t') && Extends(t, t') && In(t, n) && In(t', n) && Down(t, n, p).Some?
    ensures Down(t', n, p) == Down(t, n, p)
    decreases |p|
  {
    match NextComponent(p)
    case Name(w, rest) =>
      var c := FindChild(t, n, w);
      FindIs(t, n, w, c);
      assert SameNode(t[c], t'[c]);
      FindIs(t', n, w, c);
      DownStays(t, t', c, rest);
    case _ =>
  }

  /** `vfs_ensure_dir_abs` leaves a directory below every name of the path, when it succeeds. */
  lemma {:induction false} EnsureMakes(s: Fs, n: int, p: string)
    requires FsOk(s) && In(s.t, n) && s.t[n].dir && EnsureFrom(s, n, p).1
    ensures var t := EnsureFrom(s, n, p).0.t;
            Ok(t) && In(t, n) && Down(t, n, p).Some? && t[Down(t, n, p).value].dir
    decreases |p|
  {
    EnsureOk(s, n, p);
    match NextComponent(p)
    case Name(w, rest) =>
      var c, t := FindChild(s.t, n, w), EnsureFrom(s, n, p).0.t;
      if c >= 0 {
        EnsureMakes(s, c, rest);
        FindIs(s.t, n, w, c);
        assert SameNode(s.t[c], t[c]);
        FindIs(t, n, w, c);
      } else {
        AllocNodeOk(s, w, true, n);
        var s' := AllocNode(s, w, true, n).0;
        c := |s.t|;
        EnsureMakes(s', c, rest);
        EnsureOk(s', c, rest);
        assert SameNode(s'.t[c], t[c]);
        FindIs(t, n, w, c);
      }
    case _ =>
  }

  lemma {:induction false} DownDepth(t: Forest, n: int, p: string)
    requires Links(t) && In(t, n) && Down(t, n, p).Some?
    ensures |Chain(t, Down(t, n, p).value)| == |Chain(t, n)| + Depth(p)
    decreases |p|
  {
    match NextComponent(p)
    case Name(w, rest) =>
      FoundIsChild(t, n, w);
      DownDepth(t, FindChild(t, n, w), rest);
    case _ =>
  }

  lemma {:induction false} PathDepth(t: Forest, n: int, p: string)
    requires Links(t) && In(t, n) && Walk(t, n, p).Some?
    ensures |Chain(t, Walk(t, n, p).value)| <= |Chain(t, n)| + Depth(p)
    ensures !AllClean(p) ==> |Chain(t, Walk(t, n, p).value)| < |Chain(t, n)| + Depth(p)
    decreases |p|
  {
    match NextComponent(p)
    case Name(w, rest) =>
      EnterDepth(t, n, w);
      PathDepth(t, Enter(t, n, w).value, rest);
    case _ =>
  }

  lemma {:induction false} WalkIsDown(t: Forest, n: int, p: string)
    requires Links(t) && In(t, n) && AllClean(p)
    ensures Walk(t, n, p) == Down(t, n, p)
    decreases |p|
  {
    match NextComponent(p)
    case Name(w, rest) =>
      if FindChild(t, n, w) >= 0 {
        WalkIsDown(t, FindChild(t, n, w), rest);
      }
    case _ =>
  }

  /**
   * The directory that `vfs_ensure_dir_abs` reports, it takes "." and ".." for names; so the path resolves to that
   * directory if and only if it has neither.
   */
  lemma EnsureResolves(s: Fs, p: string, cwd: int)
    requires FsOk(s) && In(s.t, cwd) && EnsureDir(s, p).1
    ensures var t := EnsureDir(s, p).0.t;
            && Ok(t) && In(t, ROOT) && In(t, cwd) && Down(t, ROOT, p).Some? && t[Down(t, ROOT, p).value].dir
            && (ResolveFrom(t, cwd, p) == Down(t, ROOT, p) <==> AllClean(p))
  {
    assert LinkOk(s.t, ROOT);
    EnsureMakes(s, ROOT, p);
    EnsureOk(s, ROOT, p);
    var t := EnsureDir(s, p).0.t;
    DownDepth(t, ROOT, p);
    hide EnsureFrom, Down, Ok, AllClean;
    if AllClean(p) {
      WalkIsDown(t, ROOT, p);
    } else if Walk(t, ROOT, p).Some? {
      PathDepth(t, ROOT, p);
    }
  }

  // ---- "." and ".." --------------------------------------------------------

  /** From any path that resolves: a dot stays, two dots are the parent (the root's is the root), a name is a child. */
  lemma OneMoreComponent(t: Forest, cwd: int, p: string, n: int)
    requires Ok(t) && Links(t) && In(t, cwd) && p != "" && ResolveFrom(t, cwd, p) == Some(n)
    ensures ResolveFrom(t, cwd, p + "/.") == Some(n)
    ensures ResolveFrom(t, cwd, p + "/..") == Some(if n == ROOT then ROOT else t[n].parent)
    ensures forall w, c :: IsName(w) && !Dots(w) ==>
              (ResolveFrom(t, cwd, p + ("/" + w)) == Some(c) <==> Child(t, n, w, c))
  {
    hide Links, Ok;
    Appended(t, cwd, p, n, ".");
    Appended(t, cwd, p, n, "..");
    assert "/" + "." == "/." && "/" + ".." == "/..";
    ParentIs(t, n);
    forall w, c | IsName(w) && !Dots(w)
      ensures ResolveFrom(t, cwd, p + ("/" + w)) == Some(c) <==> Child(t, n, w, c)
    {
      Appended(t, cwd, p, n, w);
      EnterChild(t, n, w, c);
    }
  }

  lemma EnterChild(t: Forest, n: int, w: string, c: int)
    requires Ok(t) && Links(t) && In(t, n) && !Dots(w)
    ensures Enter(t, n, w) == Some(c) <==> Child(t, n, w, c)
  {
    if c >= 0 {
      FindIs(t, n, w, c);
    }
    hide Links, Ok, FindChild;
  }

  lemma Appended(t: Forest, cwd: int, p: string, n: int, w: string)
    requires Links(t) && In(t, cwd) && p != "" && ResolveFrom(t, cwd, p) == Some(n) && IsName(w)
    ensures ResolveFrom(t, cwd, p + ("/" + w)) == Enter(t, n, w)
  {
    hide Walk, Enter, Links;
    WalkAppend(t, if p[0] == '/' then ROOT else cwd, p, w);
    assert p + ("/" + w) == p + "/" + w && (p + ("/" + w))[0] == p[0];
  }

  lemma ParentIs(t: Forest, n: int)
    requires Links(t) && In(t, n)
    ensures Enter(t, n, "..") == Some(if n == ROOT then ROOT else t[n].parent) && Enter(t, n, ".") == Some(n)
  {
    assert LinkOk(t, n);
  }

  // ---- relative paths ------------------------------------------------------

  /** A path after another: the walk goes on where the first one led. */
  lemma {:induction false} WalkOn(t: Forest, n: int, p: string, q: string)
    requires Links(t) && In(t, n)
    ensures Walk(t, n, p + ("/" + q)) == match Walk(t, n, p) case None => None case Some(m) => Walk(t, m, q)
    decreases |p|
  {
    hide *;
    var x := "/" + q;
    NextAppend(p, x);
    WalkIs(t, n, p);
    WalkIs(t, n, p + x);
    match NextComponent(p) {
      case End =>
        WalkIs(t, n, x);
        LeadingSlash(t, n, q);
      case TooLong =>
      case Name(v, rest) =>
        if Enter(t, n, v).Some? {
          WalkOn(t, Enter(t, n, v).value, rest, q);
        }
    }
  }

  /** The path that leads from everywhere to what `p` names from `cwd`, if the directory's own path can be printed. */
  lemma AbsoluteNames(t: Forest, cwd: int, p: string, q: string, c: int)
    requires Ok(t) && Links(t) && In(t, cwd) && In(t, c) && (p == "" || p[0] != '/')
    requires |Chain(t, cwd)| <= MAX_PARTS && |FullPath(Chain(t, cwd))| < PATH_MAX && NoDots(Chain(t, cwd))
    requires Join(CwdPath(t, cwd, PATH_MAX), p, PATH_MAX) == Some(q)
    ensures ResolveFrom(t, c, q) == ResolveFrom(t, cwd, p)
  {
    hide Ok, Links, Walk, Chain, FullPath, NoDots;
    var b := CwdPath(t, cwd, PATH_MAX);
    PrintThenResolve(t, cwd, c, PATH_MAX);
    EmptyWalks(t);
    assert b[0] == '/';
    if b[|b| - 1] == '/' {
      var a := b[..|b| - 1];
      assert b == a + "/" && q == a + ("/" + p);
      WalkOn(t, ROOT, a, p);
      WalkOn(t, ROOT, a, "");
      assert a + ("/" + "") == b;
    } else {
      assert q == b + ("/" + p);
      WalkOn(t, ROOT, b, p);
    }
  }

  lemma EmptyWalks(t: Forest)
    requires Links(t)
    ensures forall m :: In(t, m) ==> Walk(t, m, "") == Some(m)
  {
    NothingLeft();
    forall m | In(t, m) ensures Walk(t, m, "") == Some(m) {
      WalkIs(t, m, "");
    }
  }
}
