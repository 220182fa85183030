// Trees and calls on which the code does less than its comments say (kernel/vfs.c).

module VfsFailures {
  import opened Bytes
  import opened Paths
  import opened Heap
  import opened Tree
  import opened Resolve
  import opened Vfs

  // ---- every chain of names is some directory's ----------------------------

  /** The root, and under it one directory inside the other, called so. */
  function Linear(names: seq<string>): (t: Forest)
    ensures |t| == |names| + 1
    decreases |names|
  {
    if names == [] then [Node("", true, NIL, NIL, NIL, 0, 0)]
    else
      var k := |names| - 1;
      Grown(Linear(names[..k]), names[k], true, k)
  }

  lemma {:induction false} LinearOk(names: seq<string>)
    requires Names(names)
    ensures var t := Linear(names); Ok(t) && t[|names|].dir && t[|names|].first == NIL && Chain(t, |names|) == names
    decreases |names|
  {
    var t := Linear(names);
    if names == [] {
      assert LinkOk(t, ROOT) && Listed(t, ROOT);
    } else {
      var k := |names| - 1;
      var t0 := Linear(names[..k]);
      LinearOk(names[..k]);
      assert LinkOk(t0, k) && Siblings(t0, t0[k].first) == [];
      GrownOk(t0, names[k], true, k);
      ChainStays(t0, t, k);
      assert t[|names|].parent == k && names == names[..k] + [names[k]];
    }
  }

  /** No directory more than 16 deep, however it is called, is found by the path it prints. */
  lemma DeepIsLost(names: seq<string>, cwd: int)
    requires Names(names) && |names| > MAX_PARTS && 0 <= cwd <= |names|
    ensures var t := Linear(names); Ok(t) && ResolveFrom(t, cwd, CwdPath(t, |names|, PATH_MAX)) != Some(|names|)
  {
    LinearOk(names);
    PrintThenResolve(Linear(names), |names|, cwd, PATH_MAX);
  }

  const A31: string := seq(NAME_MAX, i => 'a')
  const A30: string := seq(NAME_MAX - 1, i => 'a')

  lemma SpanOfFour(parts: seq<string>)
    requires |parts| == 4
    ensures Span(parts) == |parts[0]| + |parts[1]| + |parts[2]| + |parts[3]| + 4
  {
    var a, b, c := parts[1..], parts[2..], parts[3..];
    assert a[1..] == b && b[1..] == c && c[1..] == [];
    assert Span(c) == |parts[3]| + 1;
    assert Span(b) == |parts[2]| + 1 + Span(c);
  }

  /** Three names of 31 characters, one of 30 and one more: the printed text leaves no room for its terminator. */
  lemma TerminatorOverflows(w: string)
    requires IsName(w)
    ensures var t := Linear([A31, A31, A31, A30, w]); Ok(t) && |CwdPath(t, 5, PATH_MAX)| == PATH_MAX
  {
    var names := [A31, A31, A31, A30, w];
    var t := Linear(names);
    LinearOk(names);
    hide *;
    ChainIsParts(t, 5);
    SpanOfFour(names[..4]);
    assert 1 + Span(names[..4]) == PATH_MAX;
    TerminatorFits(t, 5, PATH_MAX);
  }

  lemma ChainIsParts(t: Forest, n: int)
    requires Links(t) && In(t, n) && |Chain(t, n)| <= MAX_PARTS
    ensures Parts(t, n) == Chain(t, n)
  {
  }

  // ---- slash-free dots -----------------------------------------------------

  /** The heap has room for a node, and the root has nothing called ".". */
  ghost predicate CanMakeDot(s: Fs) {
    FsOk(s) && s.h.ready && s.h.current + NODE_SIZE <= s.h.limit && FindChild(s.t, ROOT, ".") < 0
  }

  lemma DotAtRoot(s: Fs)
    requires CanMakeDot(s)
    ensures !Aliased(s.t, ROOT, ".") && s.t[ROOT].dir && Target(s.t, ROOT, ".") == Some((ROOT, "."))
  {
    assert LinkOk(s.t, ROOT);
    assert CwdPath(s.t, ROOT, PATH_MAX) == "/" && "/" + "." == "/.";
    assert Absolute(s.t, ROOT, ".") == "/.";
    assert LastSlash(".") < 0;
  }

  /** `mkdir .` makes a directory, and the path it prints leads to the root. */
  lemma MadeDotIsLost(s: Fs, cwd: int)
    requires CanMakeDot(s) && In(s.t, cwd)
    ensures var (r, ok) := MakeDir(s, ROOT, "."); var n := |s.t|;
            && ok && Ok(r.t) && In(r.t, n) && In(r.t, cwd) && r.t[n].dir && Children(r.t, n) == []
            && CwdPath(r.t, n, PATH_MAX) == "/." && ResolveFrom(r.t, cwd, "/.") == Some(ROOT)
  {
    DotAtRoot(s);
    AllocNodeOk(s, ".", true, ROOT);
    var r, n := MakeDir(s, ROOT, ".").0, |s.t|;
    assert r.t == Grown(s.t, ".", true, ROOT) && r.t[n].parent == ROOT && r.t[n].name == ".";
    assert LinkOk(r.t, n) && Chain(r.t, ROOT) == [] && Chain(r.t, n) == ["."];
    PrintStep(1, ["."], PATH_MAX);
    LeadingSlash(r.t, ROOT, ".");
    assert "/" + "." == "/.";
    NextOfName(".");
    NothingLeft();
    WalkIs(r.t, ROOT, ".");
    WalkIs(r.t, ROOT, "");
  }

  /** `touch .` succeeds and leaves a file that its own path does not resolve to. */
  lemma TouchedDotIsNoFile(s: Fs)
    requires CanMakeDot(s)
    ensures var (r, ok) := Touch(s, ROOT, "."); ok && Ok(r.t) && ReadFile(r.t, ROOT, ".") == None
  {
    DotAtRoot(s);
    AllocNodeOk(s, ".", false, ROOT);
    assert Touch(s, ROOT, ".").1;
    assert LastSlash(".") < 0;
    TouchResolves(s, ROOT, ".");
  }

  // ---- the two directories vfs_init asks for -------------------------------

  /** In every tree and from everywhere, the alias test refuses them. */
  lemma InitDirsRefused(s: Fs, cwd: int)
    requires Links(s.t) && In(s.t, cwd)
    ensures MakeDir(s, cwd, "/bin") == (s, false) && MakeDir(s, cwd, "/mount/cdrom") == (s, false)
  {
  }
}
